/** The settings page web/src/pages/Settings.jsx: the preference flags kept
    in local storage and the goal form. The goal calls' replies are
    parameters. */
module Settings {
  import opened Wrappers
  import opened LocalStorage
  import Text
  import Api

  const Notifications := "enableNotifications"
  const SoundAlerts := "enableSoundAlerts"
  const FocusMode := "enableFocusMode"
  const AutoSave := "autoSave"

  /** The preferences when nothing is stored. */
  const Defaults: map<string, bool> :=
    map[Notifications := true, SoundAlerts := true, FocusMode := false, AutoSave := false]

  /** The `useState` initialiser: a stored record, or the defaults. An entry
      under the key that is not a preferences record is read as absent. */
  function InitialPreferences(items: map<string, Item>): (r: map<string, bool>)
    ensures PreferencesKey in items && items[PreferencesKey].Preferences? ==> r == items[PreferencesKey].flags
    ensures !(PreferencesKey in items && items[PreferencesKey].Preferences?) ==> r == Defaults
  {
    var saved := Get(items, PreferencesKey);
    if saved.Some? && saved.value.Preferences? then saved.value.flags else Defaults
  }

  /** `preferences[key]`, a missing key reading as `undefined`, which is falsy. */
  function Flag(prefs: map<string, bool>, key: string): bool
  {
    key in prefs && prefs[key]
  }

  /** `{ ...preferences, [key]: !preferences[key] }` */
  function Toggled(prefs: map<string, bool>, key: string): (r: map<string, bool>)
    ensures r.Keys == prefs.Keys + {key}
    ensures Flag(r, key) == !Flag(prefs, key)
    ensures forall k :: k in prefs && k != key ==> r[k] == prefs[k]
  {
    prefs[key := !Flag(prefs, key)]
  }

  /** Toggling the same flag twice restores the record when the flag was
      present; a flag that was missing comes back as `false`. */
  lemma ToggleTwice(prefs: map<string, bool>, key: string)
    ensures key in prefs ==> Toggled(Toggled(prefs, key), key) == prefs
    ensures key !in prefs ==> Toggled(Toggled(prefs, key), key) == prefs[key := false]
  {
  }

  /** Toggles of different flags commute. */
  lemma ToggleCommutes(prefs: map<string, bool>, a: string, b: string)
    requires a != b
    ensures Toggled(Toggled(prefs, a), b) == Toggled(Toggled(prefs, b), a)
  {
  }

  /** The defaults have the four flags, two on and two off, and toggling one
      of them keeps the same four keys. */
  lemma DefaultsKeys(key: string)
    requires key in Defaults
    ensures Defaults.Keys == {Notifications, SoundAlerts, FocusMode, AutoSave}
    ensures Flag(Defaults, Notifications) && Flag(Defaults, SoundAlerts)
    ensures !Flag(Defaults, FocusMode) && !Flag(Defaults, AutoSave)
    ensures Toggled(Defaults, key).Keys == Defaults.Keys
  {
  }

  /** What is written survives a reload of the page. */
  lemma StoredPreferencesReload(items: map<string, Item>, prefs: map<string, bool>)
    ensures InitialPreferences(items[PreferencesKey := Preferences(prefs)]) == prefs
  {
  }

  datatype Goal = Goal(id: int, title: string)

  /** The object passed to `createGoal`. */
  datatype GoalPayload = GoalPayload(title: string, targetValue: int, currentValue: int, unit: string)

  function GoalPayloadOf(title: string): (p: GoalPayload)
    ensures p.title == title && p.targetValue == 10 && p.currentValue == 0 && p.unit == "tasks"
  {
    GoalPayload(title, 10, 0, "tasks")
  }

  class Page {
    var goals: seq<Goal>
    var newGoal: string
    var showGoalForm: bool
    var preferences: map<string, bool>

    /** Mounting: preferences come from storage; the goals from the first
        fetch, or none when it fails. */
    constructor (storage: Storage, fetched: Api.Reply<seq<Goal>>)
      ensures preferences == InitialPreferences(storage.items)
      ensures goals == (if fetched.Success? then fetched.value else [])
      ensures newGoal == "" && !showGoalForm
    {
      preferences := InitialPreferences(storage.items);
      goals := if fetched.Success? then fetched.value else [];
      newGoal := "";
      showGoalForm := false;
    }

    /** `handlePreferenceChange`: flips exactly `key` and writes the new
        record under `userPreferences`. */
    method HandlePreferenceChange(storage: Storage, key: string)
      modifies this, storage
      ensures preferences == Toggled(old(preferences), key)
      ensures storage.items == old(storage.items)[PreferencesKey := Preferences(preferences)]
      ensures goals == old(goals) && newGoal == old(newGoal) && showGoalForm == old(showGoalForm)
    {
      var updated := preferences[key := !Flag(preferences, key)];
      preferences := updated;
      storage.SetItem(PreferencesKey, Preferences(updated));
    }

    /** `handleAddGoal`: a blank title creates nothing. Otherwise the goal is
        sent; a failed create changes nothing. After a successful create
        the input is cleared and the form closed, and the goals are those of
        the refetch, or stay as they were when the refetch fails. */
    method HandleAddGoal(created: Api.Reply<Goal>, refetched: Api.Reply<seq<Goal>>) returns (sent: Option<GoalPayload>)
      modifies this
      ensures sent.Some? <==> !Text.IsBlank(old(newGoal))
      ensures sent.Some? ==> sent.value == GoalPayloadOf(old(newGoal))
      ensures sent.Some? && created.Success? ==> newGoal == "" && !showGoalForm
      ensures sent.Some? && created.Success? && refetched.Success? ==> goals == refetched.value
      ensures sent.None? || created.Failure? ==> newGoal == old(newGoal) && showGoalForm == old(showGoalForm)
      ensures sent.None? || created.Failure? || refetched.Failure? ==> goals == old(goals)
      ensures preferences == old(preferences)
    {
      sent := None;
      if !Text.IsBlank(newGoal) {
        sent := Some(GoalPayloadOf(newGoal));
        if created.Success? {
          newGoal := "";
          showGoalForm := false;
          if refetched.Success? {
            goals := refetched.value;
          }
        }
      }
    }
  }
}
