/**
 * The habit grid's records and the pure rules that app.js applies to them:
 * what a per-day checkbox reads as, what toggling it writes, when the table
 * must grow a blank row, and when a checkbox is rendered disabled.
 */
module Habits {
  import opened Text

  /** A habit's identifier, `"h" + Date.now()` in the source. */
  type Key = string

  /** One entry of `gridData`: `{ name, days }`, where `days` maps a day of
      the month to whether it was ticked. */
  datatype Habit = Habit(name: string, days: map<int, bool>)

  /** `days[d]` read as a JavaScript truth value: a day that was never
      written reads as not ticked. */
  predicate Checked(days: map<int, bool>, d: int)
  {
    d in days && days[d]
  }

  /** The row the table appends: `{ name: "", days: {} }`. */
  const Blank: Habit := Habit("", map[])

  /** `gridData` seen as `Object.keys(gridData)` and the map behind it: the
      keys occur once each, in insertion order, and are exactly the map's keys. */
  ghost predicate GridOk(keys: seq<Key>, habits: map<Key, Habit>)
  {
    && (forall i, j :: 0 <= i < j < |keys| ==> keys[i] != keys[j])
    && (forall k :: k in keys ==> k in habits)
    && (forall k :: k in habits ==> k in keys)
  }

  /** `Object.values(gridData)`: the records in key order. */
  function Values(keys: seq<Key>, habits: map<Key, Habit>): (vs: seq<Habit>)
    requires forall k :: k in keys ==> k in habits
    ensures |vs| == |keys|
    ensures forall i :: 0 <= i < |keys| ==> vs[i] == habits[keys[i]]
  {
    seq(|keys|, i requires 0 <= i < |keys| => habits[keys[i]])
  }

  /** The position of a key in the key order. */
  function IndexOf(keys: seq<Key>, k: Key): (i: nat)
    requires k in keys
    ensures i < |keys| && keys[i] == k
  {
    if keys[0] == k then 0 else 1 + IndexOf(keys[1..], k)
  }

  /** Writing one record in place replaces that record, at its position in
      `Object.values(gridData)`, and no other. */
  lemma ValuesUpdate(keys: seq<Key>, habits: map<Key, Habit>, i: nat, h: Habit)
    requires GridOk(keys, habits) && i < |keys|
    ensures Values(keys, habits[keys[i] := h]) == Values(keys, habits)[i := h]
  {
  }

  /** What `toggleCheck` writes into an accepted habit:
      `days[day] = !days[day]`, the name left as it is. */
  function Flip(h: Habit, day: int): Habit
  {
    Habit(h.name, h.days[day := !Checked(h.days, day)])
  }

  /** A flip negates the chosen day and no other, and keeps the name. */
  lemma FlipOnlyThatDay(h: Habit, day: int)
    ensures Flip(h, day).name == h.name
    ensures Checked(Flip(h, day).days, day) == !Checked(h.days, day)
    ensures forall d :: d != day ==> Checked(Flip(h, day).days, d) == Checked(h.days, d)
  {
  }

  /** Flipping the same day twice gives back a habit whose days read the same. */
  lemma FlipTwice(h: Habit, day: int)
    ensures Flip(Flip(h, day), day).name == h.name
    ensures forall d :: Checked(Flip(Flip(h, day), day).days, d) == Checked(h.days, d)
  {
  }

  /** Every record keeps its name and loses all its days: what
      `resetMonth` does to each entry with `days = {}`. */
  function ClearDays(habits: map<Key, Habit>): (r: map<Key, Habit>)
    ensures r.Keys == habits.Keys
  {
    map k | k in habits :: Habit(habits[k].name, map[])
  }

  /** Clearing days keeps names, so it does not change whether the table
      needs a blank row. */
  lemma ClearKeepsBlankRowTest(keys: seq<Key>, habits: map<Key, Habit>)
    requires forall k :: k in keys ==> k in habits
    ensures NeedsBlankRow(keys, ClearDays(habits)) == NeedsBlankRow(keys, habits)
  {
  }

  /** `toggleCheck`'s guard: a day before today is never changed. */
  predicate ToggleAccepted(day: int, today: int)
  {
    !(day < today)
  }

  /** The `disabled` attribute of a rendered checkbox: the habit has no
      name yet, or the day is already past. */
  predicate Disabled(name: string, day: int, today: int)
  {
    name == "" || day < today
  }

  /** The rendered checkbox and `toggleCheck` agree on named habits; on an
      unnamed habit the checkbox is disabled although `toggleCheck` itself
      would accept the day. An enabled checkbox is always accepted. */
  lemma DisabledVersusGuard(name: string, day: int, today: int)
    ensures !Disabled(name, day, today) ==> ToggleAccepted(day, today)
    ensures name != "" ==> (Disabled(name, day, today) <==> !ToggleAccepted(day, today))
    ensures name == "" ==> Disabled(name, day, today)
  {
  }

  /** The test at the end of `renderTable`: there is no last key (none at
      all, or the falsy key ""), or the last record's trimmed name is not
      empty. */
  predicate NeedsBlankRow(keys: seq<Key>, habits: map<Key, Habit>)
    requires forall k :: k in keys ==> k in habits
  {
    |keys| == 0 || keys[|keys| - 1] == "" || Trim(habits[keys[|keys| - 1]].name) != ""
  }

  /** Appending a blank row under a non-empty new key settles the table:
      a second render adds nothing, because the last row is now blank. */
  lemma BlankRowSettles(keys: seq<Key>, habits: map<Key, Habit>, newKey: Key)
    requires forall k :: k in keys ==> k in habits
    requires newKey != ""
    ensures !NeedsBlankRow(keys + [newKey], habits[newKey := Blank])
  {
    var ks := keys + [newKey];
    assert ks[|ks| - 1] == newKey;
  }
}
