/** The Pomodoro countdown of `PomodoroTimer` in
    web/src/pages/DashboardOld.jsx: minutes, seconds and a running flag. One
    tick is one firing of the one-second interval, followed by the effect
    that runs after every change of the three fields. */
module Pomodoro {

  datatype Clock = Clock(minutes: int, seconds: int, running: bool)

  /** `useState(25)`, `useState(0)`, `useState(false)`, and what Reset sets. */
  const Start: Clock := Clock(25, 0, false)

  /** The seconds left on the display. */
  function Remaining(c: Clock): int
  {
    c.minutes * 60 + c.seconds
  }

  /** The states the component can reach: seconds stay in 0..59 and a clock
      showing 0:00 is never left running. */
  predicate Valid(c: Clock)
  {
    c.minutes >= 0 && 0 <= c.seconds < 60 && !(c.running && Remaining(c) == 0)
  }

  /** The effect's `else if` branch: a running clock at 0:00 stops. */
  function Settle(c: Clock): (r: Clock)
    ensures r.minutes == c.minutes && r.seconds == c.seconds
    ensures r.running <==> c.running && !(c.minutes == 0 && c.seconds == 0)
  {
    if c.minutes == 0 && c.seconds == 0 && c.running then c.(running := false) else c
  }

  /** The interval callback. */
  function Step(c: Clock): Clock
  {
    if c.seconds == 0 then
      if c.minutes == 0 then c.(running := false) else Clock(c.minutes - 1, 59, c.running)
    else c.(seconds := c.seconds - 1)
  }

  /** One second: the interval fires only while running with time left;
      the effect follows. */
  function Ticked(c: Clock): Clock
  {
    Settle(if c.running && (c.minutes > 0 || c.seconds > 0) then Step(c) else c)
  }

  /** A running clock counts down exactly one second and keeps its seconds
      in 0..59; it goes on running exactly when time is left. */
  lemma TickedRunning(c: Clock)
    requires Valid(c) && c.running
    ensures Valid(Ticked(c)) && Remaining(Ticked(c)) == Remaining(c) - 1
    ensures Ticked(c).running <==> Remaining(Ticked(c)) > 0
  {
    if c.seconds == 0 {
      TickedAtFullMinute(c);
    } else {
      TickedWithinMinute(c);
    }
  }

  lemma TickedAtFullMinute(c: Clock)
    requires Valid(c) && c.running && c.seconds == 0
    ensures Valid(Ticked(c)) && Remaining(Ticked(c)) == Remaining(c) - 1
    ensures Ticked(c).running <==> Remaining(Ticked(c)) > 0
  {
    assert c.minutes != 0;
    assert Ticked(c) == Clock(c.minutes - 1, 59, true);
  }

  lemma TickedWithinMinute(c: Clock)
    requires Valid(c) && c.running && c.seconds != 0
    ensures Valid(Ticked(c)) && Remaining(Ticked(c)) == Remaining(c) - 1
    ensures Ticked(c).running <==> Remaining(Ticked(c)) > 0
  {
    assert Ticked(c) == Settle(Clock(c.minutes, c.seconds - 1, true));
  }

  /** A paused clock does not move. */
  lemma TickedPaused(c: Clock)
    requires !c.running
    ensures Ticked(c) == c
  {
  }

  /** Start/Pause: the flag flips, the time stays, and a clock at 0:00 does
      not start. */
  function Toggled(c: Clock): (r: Clock)
    ensures r.minutes == c.minutes && r.seconds == c.seconds
    ensures Valid(c) ==> Valid(r) && (r.running <==> !c.running && Remaining(c) > 0)
  {
    Settle(c.(running := !c.running))
  }

  /** `n` successive ticks. */
  function Ticks(c: Clock, n: nat): Clock
    decreases n
  {
    if n == 0 then c else Ticks(Ticked(c), n - 1)
  }

  /** While running, `n` ticks take exactly `n` seconds off the clock. */
  lemma {:induction false} TicksCountDown(c: Clock, n: nat)
    requires Valid(c) && c.running && n <= Remaining(c)
    ensures Valid(Ticks(c, n)) && Remaining(Ticks(c, n)) == Remaining(c) - n
    decreases n
  {
    if n > 0 {
      TickedRunning(c);
      var d := Ticked(c);
      if n > 1 {
        TicksCountDown(d, n - 1);
      } else {
        assert Ticks(c, n) == Ticks(d, 0) == d;
      }
    }
  }

  /** A running clock stops at 0:00 once all its seconds have ticked away,
      and stays there. */
  lemma RunsOut(c: Clock, extra: nat)
    requires Valid(c) && c.running
    ensures Ticks(c, Remaining(c) + extra) == Clock(0, 0, false)
  {
    RunsOutExactly(c);
    PausedStays(Clock(0, 0, false), extra);
    TicksAdd(c, Remaining(c), extra);
  }

  lemma RunsOutExactly(c: Clock)
    requires Valid(c) && c.running
    ensures Ticks(c, Remaining(c)) == Clock(0, 0, false)
  {
    TicksCountDown(c, Remaining(c));
    StoppedAtZero(Ticks(c, Remaining(c)));
  }

  /** Ticking `a` times and then `b` times is ticking `a + b` times. */
  lemma {:induction false} TicksAdd(c: Clock, a: nat, b: nat)
    ensures Ticks(c, a + b) == Ticks(Ticks(c, a), b)
    decreases a
  {
    if a > 0 {
      TicksAdd(Ticked(c), a - 1, b);
    }
  }

  /** The only valid clock without seconds left is 0:00. */
  lemma StoppedAtZero(d: Clock)
    requires Valid(d) && Remaining(d) == 0
    ensures d == Clock(0, 0, false)
  {
  }

  /** A paused clock does not move, however many ticks pass. */
  lemma {:induction false} PausedStays(c: Clock, n: nat)
    requires !c.running
    ensures Ticks(c, n) == c
    decreases n
  {
    if n > 0 {
      PausedStays(Ticked(c), n - 1);
    }
  }

  /** Pressing Start/Pause twice on a clock with time left changes nothing. */
  lemma ToggleTwice(c: Clock)
    requires Valid(c) && Remaining(c) > 0
    ensures Toggled(Toggled(c)) == c
  {
  }

  /** The component's state, updated in place by the interval and the
      buttons. */
  class Timer {
    var minutes: int
    var seconds: int
    var isRunning: bool

    function State(): Clock
      reads this
    {
      Clock(minutes, seconds, isRunning)
    }

    constructor ()
      ensures State() == Start
    {
      minutes := 25;
      seconds := 0;
      isRunning := false;
    }

    /** The effect after a state change. */
    method SettleAfterChange()
      modifies this
      ensures State() == Settle(old(State()))
    {
      if minutes == 0 && seconds == 0 && isRunning {
        isRunning := false;
      }
    }

    /** The interval callback. */
    method Callback()
      modifies this
      ensures State() == Step(old(State()))
    {
      if seconds == 0 {
        if minutes == 0 {
          isRunning := false;
        } else {
          minutes := minutes - 1;
          seconds := 59;
        }
      } else {
        seconds := seconds - 1;
      }
    }

    /** One second: the interval exists only while running with time left;
        the effect follows. */
    method Tick()
      modifies this
      ensures State() == Ticked(old(State()))
    {
      if isRunning && (minutes > 0 || seconds > 0) {
        Callback();
      }
      SettleAfterChange();
    }

    /** The Start/Pause button. */
    method Toggle()
      modifies this
      ensures State() == Toggled(old(State()))
    {
      isRunning := !isRunning;
      SettleAfterChange();
    }

    /** The Reset button. */
    method Reset()
      modifies this
      ensures State() == Start
    {
      minutes := 25;
      seconds := 0;
      isRunning := false;
    }
  }
}
