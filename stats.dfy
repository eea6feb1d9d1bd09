/**
 * The habit dashboard of app.js: the power score (`updatePowerScore`) and
 * the completion figures (`updateDashboard`), both derived afresh from
 * `Object.values(gridData)` each time they are shown.
 */
module Stats {
  import opened Habits
  import opened Percent

  // ---------------------------------------------------------------- power score

  /** The days ticked in a habit: what `Object.values(h.days).filter(Boolean)`
      keeps. A day written back to false is not among them. */
  function TrueDays(days: map<int, bool>): set<int>
  {
    set d | d in days && days[d]
  }

  /** One habit's share of the power score: its ticked days, whether or not
      the habit is named and whether or not the day lies in this month. */
  function Score(h: Habit): nat
  {
    |TrueDays(h.days)|
  }

  /** The power score of the records `vs`, summed in order. */
  function Power(vs: seq<Habit>): nat
  {
    if vs == [] then 0 else Power(vs[..|vs| - 1]) + Score(vs[|vs| - 1])
  }

  /** `updatePowerScore`: the running total over `Object.values(gridData)`. */
  method PowerScore(values: seq<Habit>) returns (score: nat)
    ensures score == Power(values)
  {
    score := 0;
    for i := 0 to |values|
      invariant score == Power(values[..i])
    {
      assert values[..i + 1][..i] == values[..i];
      score := score + Score(values[i]);
    }
    assert values[..|values|] == values;
  }

  /** A flip moves one habit's score by exactly one: down if the day was
      ticked, up if it was not. */
  lemma ScoreFlip(h: Habit, day: int)
    ensures Score(Flip(h, day)) == if Checked(h.days, day) then Score(h) - 1 else Score(h) + 1
  {
    var before, after := TrueDays(h.days), TrueDays(Flip(h, day).days);
    FlipOnlyThatDay(h, day);
    if Checked(h.days, day) {
      assert day in before;
      assert after == before - {day};
    } else {
      assert day !in before;
      assert after == before + {day};
    }
  }

  /** Replacing one record changes the power score by the difference of the
      two records' scores and by nothing else. */
  lemma {:induction false} PowerUpdate(vs: seq<Habit>, i: nat, h: Habit)
    requires i < |vs|
    ensures Power(vs[i := h]) == Power(vs) - Score(vs[i]) + Score(h)
  {
    var n := |vs| - 1;
    var ws := vs[i := h];
    if i == n {
      assert ws[..n] == vs[..n];
    } else {
      assert ws[..n] == vs[..n][i := h];
      PowerUpdate(vs[..n], i, h);
    }
  }

  /** Records whose `days` are all empty score nothing. */
  lemma {:induction false} PowerCleared(vs: seq<Habit>)
    requires forall i :: 0 <= i < |vs| ==> vs[i].days == map[]
    ensures Power(vs) == 0
  {
    if vs != [] {
      PowerCleared(vs[..|vs| - 1]);
      assert TrueDays(vs[|vs| - 1].days) == {};
    }
  }

  // ---------------------------------------------------------------- completion

  /** `Object.values(gridData).filter(h => h.name)`: the named records, in
      order. */
  function Named(vs: seq<Habit>): (r: seq<Habit>)
    ensures |r| <= |vs|
    ensures forall i :: 0 <= i < |r| ==> r[i].name != ""
  {
    if vs == [] then []
    else
      var p, h := Named(vs[..|vs| - 1]), vs[|vs| - 1];
      if h.name != "" then p + [h] else p
  }

  /** The filter keeps records of `vs` only, and keeps every named one. */
  lemma {:induction false} NamedFilter(vs: seq<Habit>)
    ensures forall h :: h in Named(vs) ==> h in vs
    ensures forall i :: 0 <= i < |vs| && vs[i].name != "" ==> vs[i] in Named(vs)
  {
    if vs != [] {
      var init := vs[..|vs| - 1];
      NamedFilter(init);
      assert forall i :: 0 <= i < |init| ==> vs[i] == init[i];
    }
  }

  /** How many of the records `vs` are named, counted record by record. */
  function NamedCount(vs: seq<Habit>): nat
  {
    if vs == [] then 0 else NamedCount(vs[..|vs| - 1]) + (if vs[|vs| - 1].name != "" then 1 else 0)
  }

  /** The filter keeps one entry per named record: duplicates included. */
  lemma {:induction false} NamedCounts(vs: seq<Habit>)
    ensures |Named(vs)| == NamedCount(vs)
  {
    if vs != [] {
      NamedCounts(vs[..|vs| - 1]);
    }
  }

  /** The days among 1 .. n that are ticked. */
  function TickedThrough(days: map<int, bool>, n: int): set<int>
  {
    set d | 1 <= d <= n && d in days && days[d]
  }

  /** The inner loop of `updateDashboard` for one habit: how many of the
      days 1 .. n are ticked. */
  function DoneThrough(days: map<int, bool>, n: nat): (r: nat)
    ensures r == |TickedThrough(days, n)|
    ensures r <= n
  {
    if n == 0 then
      assert TickedThrough(days, n) == {};
      0
    else
      var prev := TickedThrough(days, n - 1);
      if Checked(days, n) then
        assert TickedThrough(days, n) == prev + {n};
        DoneThrough(days, n - 1) + 1
      else
        assert TickedThrough(days, n) == prev;
        DoneThrough(days, n - 1)
  }

  /** The ticked days through day n, summed over the records `hs`. */
  function DoneSum(hs: seq<Habit>, n: nat): nat
  {
    if hs == [] then 0 else DoneSum(hs[..|hs| - 1], n) + DoneThrough(hs[|hs| - 1].days, n)
  }

  /** Each habit contributes at most n days, so the completed total is at
      most the number of habits times n. */
  lemma {:induction false} DoneSumBound(hs: seq<Habit>, n: nat)
    ensures DoneSum(hs, n) <= |hs| * n
  {
    if hs != [] {
      DoneSumBound(hs[..|hs| - 1], n);
      MulSucc(|hs| - 1, n);
    }
  }

  /** The inner loop of `updateDashboard` for one habit: of the days
      1 .. today, how many are ticked and how many are not. */
  method CountDays(days: map<int, bool>, today: nat) returns (done: nat, missed: nat)
    ensures done == DoneThrough(days, today)
    ensures done + missed == today
  {
    done, missed := 0, 0;
    for d := 1 to today + 1
      invariant done == DoneThrough(days, d - 1)
      invariant done + missed == d - 1
    {
      if Checked(days, d) {
        done := done + 1;
      } else {
        missed := missed + 1;
      }
    }
  }

  /** `updateDashboard`: the number of named habits, the ticked and unticked
      habit-days from day 1 through today, and the completion rate; every
      habit-day considered is counted exactly once, and the rate is 0 when
      there is nothing to count. */
  method Dashboard(values: seq<Habit>, today: nat)
    returns (habitCount: nat, completed: nat, notCompleted: nat, rate: nat)
    ensures habitCount == |Named(values)| == NamedCount(values)
    ensures completed == DoneSum(Named(values), today)
    ensures completed + notCompleted == habitCount * today
    ensures rate <= 100
    ensures habitCount * today == 0 ==> rate == 0
    ensures habitCount * today > 0 ==> rate == RoundedPercent(completed, habitCount * today)
  {
    var habits := Named(values);
    completed, notCompleted := 0, 0;
    for i := 0 to |habits|
      invariant completed == DoneSum(habits[..i], today)
      invariant completed + notCompleted == i * today
    {
      var done, missed := CountDays(habits[i].days, today);
      completed, notCompleted := completed + done, notCompleted + missed;
      assert habits[..i + 1][..i] == habits[..i];
      MulSucc(i, today);
    }
    assert habits[..|habits|] == habits;
    habitCount := |habits|;
    NamedCounts(values);
    var total := habitCount * today;
    rate := if total != 0 then RoundedPercent(completed, total) else 0;
  }

  lemma MulSucc(i: nat, n: nat)
    ensures (i + 1) * n == i * n + n
  {
  }

  lemma DoneSumAppend(hs: seq<Habit>, h: Habit, n: nat)
    ensures DoneSum(hs + [h], n) == DoneSum(hs, n) + DoneThrough(h.days, n)
  {
    assert (hs + [h])[..|hs|] == hs;
  }

  /** One record's share of the completed count: its ticked days through
      day n when it is named, nothing when it is not. */
  function Contribution(h: Habit, n: nat): nat
  {
    if h.name != "" then DoneThrough(h.days, n) else 0
  }

  /** The completed count defined record by record, without the filter. */
  function Completed(vs: seq<Habit>, n: nat): nat
  {
    if vs == [] then 0 else Completed(vs[..|vs| - 1], n) + Contribution(vs[|vs| - 1], n)
  }

  /** Filtering the named records and then summing their ticked days, as
      `updateDashboard` does, gives the record-by-record count. */
  lemma {:induction false} CompletedIsDoneSum(vs: seq<Habit>, n: nat)
    ensures DoneSum(Named(vs), n) == Completed(vs, n)
  {
    if vs != [] {
      var init, last := vs[..|vs| - 1], vs[|vs| - 1];
      CompletedIsDoneSum(init, n);
      if last.name != "" {
        DoneSumAppend(Named(init), last, n);
      }
    }
  }

  /** Replacing one record changes the completed count by the difference of
      the two records' contributions and by nothing else. */
  lemma {:induction false} CompletedUpdate(vs: seq<Habit>, i: nat, h: Habit, n: nat)
    requires i < |vs|
    ensures Completed(vs[i := h], n) == Completed(vs, n) - Contribution(vs[i], n) + Contribution(h, n)
  {
    var m := |vs| - 1;
    var ws := vs[i := h];
    if i == m {
      assert ws[..m] == vs[..m];
    } else {
      assert ws[..m] == vs[..m][i := h];
      CompletedUpdate(vs[..m], i, h, n);
    }
  }

  /** Flipping day `day` changes the ticked count through day n by one when
      the day lies in 1 .. n, and not at all otherwise. */
  lemma {:induction false} DoneThroughFlip(h: Habit, day: int, n: nat)
    ensures DoneThrough(Flip(h, day).days, n) ==
      if 1 <= day <= n then
        (if Checked(h.days, day) then DoneThrough(h.days, n) - 1 else DoneThrough(h.days, n) + 1)
      else DoneThrough(h.days, n)
  {
    if n > 0 {
      DoneThroughFlip(h, day, n - 1);
    }
  }

  /** How an accepted toggle moves the figures: the power score by exactly
      one; the completed count not at all for a day after today, and by
      exactly one for today's box on a named habit. */
  lemma FiguresAfterFlip(vs: seq<Habit>, i: nat, day: int, today: nat)
    requires i < |vs| && today <= day
    ensures Power(vs[i := Flip(vs[i], day)]) ==
      if Checked(vs[i].days, day) then Power(vs) - 1 else Power(vs) + 1
    ensures day > today ==>
      DoneSum(Named(vs[i := Flip(vs[i], day)]), today) == DoneSum(Named(vs), today)
    ensures day == today >= 1 && vs[i].name != "" ==>
      DoneSum(Named(vs[i := Flip(vs[i], day)]), today) ==
        if Checked(vs[i].days, day) then DoneSum(Named(vs), today) - 1
        else DoneSum(Named(vs), today) + 1
  {
    var h := Flip(vs[i], day);
    PowerUpdate(vs, i, h);
    ScoreFlip(vs[i], day);
    CompletedIsDoneSum(vs, today);
    CompletedIsDoneSum(vs[i := h], today);
    CompletedUpdate(vs, i, h, today);
    FlipOnlyThatDay(vs[i], day);
    DoneThroughFlip(vs[i], day, today);
  }

  /** A habit with no days written has ticked none. */
  lemma {:induction false} DoneThroughEmpty(n: nat)
    ensures DoneThrough(map[], n) == 0
  {
    if n > 0 {
      DoneThroughEmpty(n - 1);
    }
  }

  /** After every `days` map is emptied nothing counts as completed, so the
      completion rate shows 0. */
  lemma {:induction false} CompletedCleared(vs: seq<Habit>, n: nat)
    requires forall i :: 0 <= i < |vs| ==> vs[i].days == map[]
    ensures DoneSum(Named(vs), n) == 0
  {
    NothingCompleted(vs, n);
    CompletedIsDoneSum(vs, n);
  }

  lemma {:induction false} NothingCompleted(vs: seq<Habit>, n: nat)
    requires forall i :: 0 <= i < |vs| ==> vs[i].days == map[]
    ensures Completed(vs, n) == 0
  {
    if vs != [] {
      NothingCompleted(vs[..|vs| - 1], n);
      DoneThroughEmpty(n);
    }
  }

  /** Habit A ticked on days 1 and 2, habit B on day 1, today the 3rd: a
      power score of 3, and 3 of 6 habit-days completed, 50%. */
  lemma DashboardExample()
    ensures var vs := [Habit("A", map[1 := true, 2 := true]), Habit("B", map[1 := true])];
      && Power(vs) == 3
      && |Named(vs)| == 2
      && DoneSum(Named(vs), 3) == 3
      && RoundedPercent(3, 2 * 3) == 50
  {
    var a, b := Habit("A", map[1 := true, 2 := true]), Habit("B", map[1 := true]);
    PowerExample(a, b);
    NamedExample(a, b);
    DoneExample(a, b);
  }

  lemma PowerExample(a: Habit, b: Habit)
    requires a.days == map[1 := true, 2 := true] && b.days == map[1 := true]
    ensures Power([a, b]) == 3
  {
    assert TrueDays(a.days) == {1, 2};
    assert TrueDays(b.days) == {1};
    assert [a, b][..1] == [a] && [a][..0] == [];
    assert Power([a]) == Power([]) + Score(a) == 2;
    assert Power([a, b]) == Power([a]) + Score(b);
  }

  lemma NamedExample(a: Habit, b: Habit)
    requires a.name != "" && b.name != ""
    ensures Named([a, b]) == [a, b]
  {
    assert [a, b][..1] == [a];
    assert [a][..0] == [];
  }

  lemma DoneExample(a: Habit, b: Habit)
    requires a.days == map[1 := true, 2 := true] && b.days == map[1 := true]
    ensures DoneSum([a, b], 3) == 3
  {
    assert TickedThrough(a.days, 3) == {1, 2};
    assert TickedThrough(b.days, 3) == {1};
    assert [a, b][..1] == [a] && [a][..0] == [];
    assert DoneSum([a], 3) == DoneSum([], 3) + DoneThrough(a.days, 3) == 2;
    assert DoneSum([a, b], 3) == DoneSum([a], 3) + DoneThrough(b.days, 3);
  }
}
