/** The time-tracking panel, web/src/components/TimeTracker.jsx: the two
    totals over the task's time logs and the form that logs time through
    the `onAddTimeLog` callback, whose outcome is a parameter. */
module TimeTracker {
  import opened Wrappers
  import Seqs
  import Text
  import Api

  /** A time log as the panel reads it; `estimatedMinutes` may be null. */
  datatype TimeLog = TimeLog(durationMinutes: int, estimatedMinutes: Option<int>)

  function DurationOf(log: TimeLog): int { log.durationMinutes }

  /** `log.estimated_minutes || 0`: null (and 0) count as 0. */
  function EstimateOf(log: TimeLog): int { log.estimatedMinutes.GetOr(0) }

  function DurationFn(): TimeLog -> int { (log: TimeLog) => DurationOf(log) }
  function EstimateFn(): TimeLog -> int { (log: TimeLog) => EstimateOf(log) }

  /** `totalSpent` */
  function TotalSpent(logs: seq<TimeLog>): int
  {
    Seqs.Sum(logs, DurationFn())
  }

  /** `totalEstimated` */
  function TotalEstimated(logs: seq<TimeLog>): int
  {
    Seqs.Sum(logs, EstimateFn())
  }

  /** Both totals start at 0, and a further log adds its own minutes, an
      estimate of null adding nothing. */
  lemma TotalsAppend(logs: seq<TimeLog>, log: TimeLog)
    ensures TotalSpent([]) == 0 && TotalEstimated([]) == 0
    ensures TotalSpent(logs + [log]) == TotalSpent(logs) + log.durationMinutes
    ensures TotalEstimated(logs + [log]) == TotalEstimated(logs) + (if log.estimatedMinutes.Some? then log.estimatedMinutes.value else 0)
  {
    Seqs.SumConcat(logs, [log], DurationFn());
    Seqs.SumConcat(logs, [log], EstimateFn());
  }

  /** With no negative minutes the totals are never negative. */
  lemma TotalsNonNegative(logs: seq<TimeLog>)
    requires forall i :: 0 <= i < |logs| ==> logs[i].durationMinutes >= 0
    requires forall i :: 0 <= i < |logs| ==> logs[i].estimatedMinutes.GetOr(0) >= 0
    ensures TotalSpent(logs) >= 0 && TotalEstimated(logs) >= 0
  {
    Seqs.SumNonNegative(logs, DurationFn());
    Seqs.SumNonNegative(logs, EstimateFn());
  }

  /** The heading `{totalSpent}m` followed by ` / {totalEstimated}m` when the
      estimate total is not 0. */
  datatype Heading = Heading(spent: int, estimated: Option<int>)

  function HeadingOf(logs: seq<TimeLog>): (h: Heading)
    ensures h.spent == TotalSpent(logs)
    ensures h.estimated.Some? <==> TotalEstimated(logs) != 0
    ensures h.estimated.Some? ==> h.estimated.value == TotalEstimated(logs)
  {
    var e := TotalEstimated(logs);
    Heading(TotalSpent(logs), if e != 0 then Some(e) else None)
  }

  /** The object handed to `onAddTimeLog`. A `NaN` from `parseInt` is sent
      as JSON null, written `None` here, like an empty estimate. */
  datatype LogPayload = LogPayload(durationMinutes: Option<int>, estimatedMinutes: Option<int>, notes: string)

  /** The payload for the form's three inputs. */
  function PayloadOf(duration: string, estimated: string, notes: string): (p: LogPayload)
    ensures p.durationMinutes == Text.ParseInt(duration)
    ensures estimated == "" ==> p.estimatedMinutes.None?
    ensures estimated != "" ==> p.estimatedMinutes == Text.ParseInt(estimated)
    ensures p.notes == notes
  {
    LogPayload(Text.ParseInt(duration), if estimated != "" then Text.ParseInt(estimated) else None, notes)
  }

  /** Typed digits reach the server as their value. */
  lemma PayloadOfDigits(duration: nat, estimated: nat, notes: string)
    ensures PayloadOf(Text.Decimal(duration), Text.Decimal(estimated), notes)
      == LogPayload(Some(duration), Some(estimated), notes)
  {
    Text.ParseIntOfDecimal(duration);
    Text.ParseIntOfDecimal(estimated);
  }

  class Panel {
    var showAddLog: bool
    var duration: string
    var estimated: string
    var notes: string

    constructor ()
      ensures !showAddLog && duration == "" && estimated == "" && notes == ""
    {
      showAddLog := false;
      duration := "";
      estimated := "";
      notes := "";
    }

    /** `handleAddLog`: with an empty duration or no callback nothing
        happens; otherwise the payload is sent, and only a successful call
        clears the inputs and closes the form (a failure is logged). */
    method HandleAddLog(hasCallback: bool, reply: Api.Reply<()>) returns (sent: Option<LogPayload>)
      modifies this
      ensures sent.Some? <==> old(duration) != "" && hasCallback
      ensures sent.Some? ==> sent.value == PayloadOf(old(duration), old(estimated), old(notes))
      ensures sent.Some? && reply.Success? ==> !showAddLog && duration == "" && estimated == "" && notes == ""
      ensures sent.None? || reply.Failure? ==>
        showAddLog == old(showAddLog) && duration == old(duration) && estimated == old(estimated) && notes == old(notes)
    {
      sent := None;
      if duration != "" && hasCallback {
        sent := Some(PayloadOf(duration, estimated, notes));
        if reply.Success? {
          duration := "";
          estimated := "";
          notes := "";
          showAddLog := false;
        }
      }
    }
  }
}
