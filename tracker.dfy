/**
 * The page's state and the user actions of app.js that change it: the
 * habit grid (`gridData`), the sleep log (`sleepData`), the copy of both
 * last written to local storage, and the `isInitializing` flag that keeps
 * the page from writing while it loads.
 */
module App {
  import opened Text
  import opened Habits
  import opened Stats
  import opened Sleep

  class Tracker {
    /** `DAYS`: the number of days of the current month. */
    const days: int
    /** `TODAY_DATE`: today's day of the month. */
    const today: int

    /** `gridData`: `Object.keys(gridData)` in order, and the records. */
    var keys: seq<Key>
    var habits: map<Key, Habit>
    /** `sleepData`: hours slept, by day of the month. */
    var sleep: map<int, real>
    /** `isInitializing`. */
    var initializing: bool

    /** What local storage holds under "gridData" and "sleepData". */
    ghost var storedKeys: seq<Key>
    ghost var storedHabits: map<Key, Habit>
    ghost var storedSleep: map<int, real>

    ghost predicate Valid()
      reads this
    {
      && 1 <= today <= days <= 31
      && GridOk(keys, habits)
      && GridOk(storedKeys, storedHabits)
    }

    /** `Object.values(gridData)`. */
    function Records(): seq<Habit>
      reads this
      requires Valid()
    {
      Values(keys, habits)
    }

    /** The state the page starts from: what `JSON.parse` read back from
        local storage (an empty grid and log when nothing was stored), with
        saving locked. */
    constructor (days: int, today: int, keys: seq<Key>, habits: map<Key, Habit>, sleep: map<int, real>)
      requires 1 <= today <= days <= 31
      requires GridOk(keys, habits)
      ensures Valid()
      ensures this.days == days && this.today == today
      ensures this.keys == keys && this.habits == habits && this.sleep == sleep
      ensures storedKeys == keys && storedHabits == habits && storedSleep == sleep
      ensures initializing
    {
      this.days, this.today := days, today;
      this.keys, this.habits, this.sleep := keys, habits, sleep;
      storedKeys, storedHabits, storedSleep := keys, habits, sleep;
      initializing := true;
    }

    /** `isInitializing = false`, the last statement of the page's script. */
    method FinishInit()
      requires Valid()
      modifies this`initializing
      ensures Valid() && !initializing
    {
      initializing := false;
    }

    /** `save`: while the page loads, storage is left alone; afterwards it
        receives the grid and the log as they are in memory. */
    method Save()
      requires Valid()
      modifies this`storedKeys, this`storedHabits, this`storedSleep
      ensures Valid()
      ensures initializing ==>
        storedKeys == old(storedKeys) && storedHabits == old(storedHabits) && storedSleep == old(storedSleep)
      ensures !initializing ==>
        storedKeys == keys && storedHabits == habits && storedSleep == sleep
    {
      if initializing {
        return;
      }
      storedKeys, storedHabits, storedSleep := keys, habits, sleep;
    }

    /** The effect of `renderTable` on the grid: when the grid is empty or
        its last row has a name, a blank row is appended under the new key
        `newKey` (`"h" + Date.now()` in the source). Existing rows are left
        alone, at most one row is added, and afterwards the last row is
        blank. Nothing is saved. */
    method RenderTable(newKey: Key)
      requires Valid()
      requires newKey !in habits
      modifies this`keys, this`habits
      ensures Valid()
      ensures NeedsBlankRow(old(keys), old(habits)) ==>
        keys == old(keys) + [newKey] && habits == old(habits)[newKey := Blank]
      ensures !NeedsBlankRow(old(keys), old(habits)) ==>
        keys == old(keys) && habits == old(habits)
      ensures forall k :: k in old(habits) ==> k in habits && habits[k] == old(habits)[k]
      ensures |keys| > 0 && Trim(habits[keys[|keys| - 1]].name) == ""
    {
      if NeedsBlankRow(keys, habits) {
        keys := keys + [newKey];
        habits := habits[newKey := Blank];
      }
    }

    /** `updateHabitName`: the habit `key` takes the trimmed `value` as its
        name and keeps its days; no other record changes. The grid is saved
        before the table is rendered, so this call does not store the blank
        row that rendering may append; the next save does. */
    method UpdateHabitName(key: Key, value: string, newKey: Key)
      requires Valid()
      requires key in habits && newKey !in habits
      modifies this`keys, this`habits, this`storedKeys, this`storedHabits, this`storedSleep
      ensures Valid()
      ensures key in habits && habits[key].name == Trim(value) && habits[key].days == old(habits[key].days)
      ensures forall k :: k in old(habits) && k != key ==> k in habits && habits[k] == old(habits[k])
      ensures var renamed := old(habits)[key := Habit(Trim(value), old(habits[key].days))];
        && (NeedsBlankRow(old(keys), renamed) ==> keys == old(keys) + [newKey] && habits == renamed[newKey := Blank])
        && (!NeedsBlankRow(old(keys), renamed) ==> keys == old(keys) && habits == renamed)
        && (!initializing ==> storedKeys == old(keys) && storedHabits == renamed && storedSleep == sleep)
      ensures initializing ==>
        storedKeys == old(storedKeys) && storedHabits == old(storedHabits) && storedSleep == old(storedSleep)
    {
      var h := habits[key];
      habits := habits[key := Habit(Trim(value), h.days)];
      Save();
      ghost var renamed := habits;
      assert keys == old(keys);
      RenderTable(newKey);
      assert NeedsBlankRow(old(keys), renamed) ==> keys == old(keys) + [newKey] && habits == renamed[newKey := Blank];
      assert !NeedsBlankRow(old(keys), renamed) ==> keys == old(keys) && habits == renamed;
    }

    /** `toggleCheck`: a day before today is refused and nothing changes;
        otherwise that one day of habit `key` is flipped, whatever the
        habit's name, and the grid is saved. `ToggleFigures` says how this
        update moves the power score and the completed count. */
    method ToggleCheck(key: Key, day: int)
      requires Valid()
      requires key in habits
      modifies this`habits, this`storedKeys, this`storedHabits, this`storedSleep
      ensures Valid()
      ensures !ToggleAccepted(day, today) ==> habits == old(habits)
      ensures ToggleAccepted(day, today) ==> habits == old(habits)[key := Flip(old(habits[key]), day)]
      ensures !ToggleAccepted(day, today) || initializing ==>
        storedKeys == old(storedKeys) && storedHabits == old(storedHabits) && storedSleep == old(storedSleep)
      ensures ToggleAccepted(day, today) && !initializing ==>
        storedKeys == keys && storedHabits == habits && storedSleep == sleep
    {
      if day < today {
        return;
      }
      habits := habits[key := Flip(habits[key], day)];
      Save();
    }

    /** The first step of `resetMonth`: `gridData[key].days = {}` for each
        key in turn. */
    method ClearAllDays()
      requires Valid()
      modifies this`habits
      ensures Valid()
      ensures habits == ClearDays(old(habits))
    {
      for i := 0 to |keys|
        invariant habits.Keys == old(habits).Keys
        invariant forall k :: k in habits ==>
          habits[k] == if k in keys[..i] then Habit(old(habits)[k].name, map[]) else old(habits)[k]
      {
        var k := keys[i];
        assert keys[..i + 1] == keys[..i] + [k];
        habits := habits[k := Habit(habits[k].name, map[])];
      }
      assert keys[..|keys|] == keys;
    }

    /** Steps 1 to 3 of `resetMonth`: every habit keeps its name and loses
        its days, the sleep log is emptied, and both are written to storage
        directly, without looking at `isInitializing`. */
    method StartNewMonth()
      requires Valid()
      modifies this`habits, this`sleep, this`storedKeys, this`storedHabits, this`storedSleep
      ensures Valid()
      ensures habits == ClearDays(old(habits)) && sleep == map[]
      ensures storedKeys == keys && storedHabits == habits && storedSleep == map[]
      ensures NeedsBlankRow(keys, habits) == NeedsBlankRow(keys, old(habits))
    {
      ClearAllDays();
      sleep := map[];
      storedKeys, storedHabits, storedSleep := keys, habits, map[];
      ClearKeepsBlankRowTest(keys, old(habits));
    }

    /** `resetMonth` with the answer `ok` of the confirmation dialog. On
        "cancel" nothing changes. On "OK" every habit keeps its name and
        loses all its ticked days, the sleep log is emptied, and both are
        stored even while the page is loading; the power score and the
        completed count are then 0. Rendering the table afterwards may
        append a blank row, which this call does not store; the next save
        does. */
    method ResetMonth(ok: bool, newKey: Key)
      requires Valid()
      requires newKey !in habits
      modifies this`keys, this`habits, this`sleep, this`storedKeys, this`storedHabits, this`storedSleep
      ensures Valid()
      ensures !ok ==> keys == old(keys) && habits == old(habits) && sleep == old(sleep)
      ensures !ok ==>
        storedKeys == old(storedKeys) && storedHabits == old(storedHabits) && storedSleep == old(storedSleep)
      ensures ok ==> sleep == map[] && storedSleep == map[]
      ensures ok ==> storedKeys == old(keys) && storedHabits == ClearDays(old(habits))
      ensures ok ==> NeedsBlankRow(old(keys), old(habits)) ==>
        keys == old(keys) + [newKey] && habits == ClearDays(old(habits))[newKey := Blank]
      ensures ok ==> !NeedsBlankRow(old(keys), old(habits)) ==>
        keys == old(keys) && habits == ClearDays(old(habits))
      ensures ok ==> Power(Records()) == 0 && DoneSum(Named(Records()), today) == 0
    {
      if !ok {
        return;
      }
      StartNewMonth();
      RenderTable(newKey);
      NothingTicked(keys, habits, today);
    }

    /** `logSleep` with the number `parseFloat` read: NaN, a value of 0 or
        less and a value above 24 are refused and nothing changes; any other
        value becomes today's entry, and the log is saved. The sleep
        dashboard then shows it as last night's hours, the chart moves at
        today's point only, and a log whose values were all in range stays
        so. */
    method LogSleep(hours: Number)
      requires Valid()
      modifies this`sleep, this`storedKeys, this`storedHabits, this`storedSleep
      ensures Valid()
      ensures Rejected(hours) ==> sleep == old(sleep)
      ensures !Rejected(hours) ==> sleep == old(sleep)[today := hours.value]
      ensures Rejected(hours) || initializing ==>
        storedKeys == old(storedKeys) && storedHabits == old(storedHabits) && storedSleep == old(storedSleep)
      ensures !Rejected(hours) && !initializing ==>
        storedKeys == keys && storedHabits == habits && storedSleep == sleep
      ensures !Rejected(hours) ==> 0.0 < Hours(sleep, today) <= 24.0 && Hours(sleep, today) == hours.value
      ensures InRange(old(sleep)) ==> InRange(sleep)
      ensures Series(sleep, days) ==
        if Rejected(hours) then old(Series(sleep, days)) else old(Series(sleep, days))[today - 1 := hours.value]
    {
      if Rejected(hours) {
        return;
      }
      AcceptedRange(hours);
      SeriesAfterLog(sleep, days, today, hours.value);
      sleep := sleep[today := hours.value];
      Save();
    }
  }

  /** How an accepted toggle of day `day` of habit `key` moves the figures
      computed from `Object.values(gridData)`. */
  lemma ToggleFigures(keys: seq<Key>, habits: map<Key, Habit>, key: Key, day: int, today: nat)
    requires GridOk(keys, habits) && key in habits && today <= day
    ensures var before, after := Values(keys, habits), Values(keys, habits[key := Flip(habits[key], day)]);
      && Power(after) == (if Checked(habits[key].days, day) then Power(before) - 1 else Power(before) + 1)
      && (day > today ==> DoneSum(Named(after), today) == DoneSum(Named(before), today))
      && (day == today >= 1 && habits[key].name != "" ==>
            DoneSum(Named(after), today) ==
              if Checked(habits[key].days, day) then DoneSum(Named(before), today) - 1
              else DoneSum(Named(before), today) + 1)
  {
    var i := IndexOf(keys, key);
    ValuesUpdate(keys, habits, i, Flip(habits[key], day));
    FiguresAfterFlip(Values(keys, habits), i, day, today);
  }

  /** A grid in which no record has any day written scores nothing and
      counts nothing as completed. */
  lemma NothingTicked(keys: seq<Key>, habits: map<Key, Habit>, today: nat)
    requires forall k :: k in keys ==> k in habits
    requires forall k :: k in habits ==> habits[k].days == map[]
    ensures Power(Values(keys, habits)) == 0 && DoneSum(Named(Values(keys, habits)), today) == 0
  {
    PowerCleared(Values(keys, habits));
    CompletedCleared(Values(keys, habits), today);
  }

  /** Adding a record under a new key keeps every existing record. */
  lemma BlankRowKeeps(habits: map<Key, Habit>, newKey: Key)
    requires newKey !in habits
    ensures forall k :: k in habits ==> k in habits[newKey := Blank] && habits[newKey := Blank][k] == habits[k]
  {
  }

  /** The page's script from top to bottom: read the stored state, render
      the table once with saving locked, and unlock saving. Loading writes
      nothing to storage, even though rendering may add a blank row in
      memory. */
  method Load(days: int, today: int, keys: seq<Key>, habits: map<Key, Habit>, sleep: map<int, real>, newKey: Key)
    returns (t: Tracker)
    requires 1 <= today <= days <= 31
    requires GridOk(keys, habits) && newKey !in habits
    ensures fresh(t) && t.Valid() && !t.initializing
    ensures t.days == days && t.today == today && t.sleep == sleep
    ensures t.storedKeys == keys && t.storedHabits == habits && t.storedSleep == sleep
    ensures NeedsBlankRow(keys, habits) ==> t.keys == keys + [newKey] && t.habits == habits[newKey := Blank]
    ensures !NeedsBlankRow(keys, habits) ==> t.keys == keys && t.habits == habits
    ensures forall k :: k in habits ==> k in t.habits && t.habits[k] == habits[k]
  {
    t := new Tracker(days, today, keys, habits, sleep);
    ghost var needs := NeedsBlankRow(keys, habits);
    t.RenderTable(newKey);
    ghost var k1, h1 := t.keys, t.habits;
    assert needs ==> k1 == keys + [newKey] && h1 == habits[newKey := Blank];
    assert !needs ==> k1 == keys && h1 == habits;
    t.FinishInit();
    assert t.keys == k1 && t.habits == h1;
    BlankRowKeeps(habits, newKey);
  }
}
