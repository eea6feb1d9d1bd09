/**
 * The sleep tracker of app.js: the guard on a logged number of hours, the
 * figures of `updateSleepDashboard` that do not depend on number
 * formatting, and the data series `drawSleepChart` hands to the chart.
 */
module Sleep {
  import opened Percent

  /** A JavaScript number as `parseFloat` can return it. */
  datatype Number = NaN | Finite(value: real) | Infinity(negative: bool)

  /** `x <= bound` in JavaScript: false when `x` is NaN. */
  predicate AtMost(x: Number, bound: real)
  {
    match x
    case NaN => false
    case Finite(v) => v <= bound
    case Infinity(negative) => negative
  }

  /** `x > bound` in JavaScript: false when `x` is NaN. */
  predicate Above(x: Number, bound: real)
  {
    match x
    case NaN => false
    case Finite(v) => v > bound
    case Infinity(negative) => !negative
  }

  /** `logSleep`'s guard, `isNaN(hours) || hours <= 0 || hours > 24`. */
  predicate Rejected(hours: Number)
  {
    hours.NaN? || AtMost(hours, 0.0) || Above(hours, 24.0)
  }

  /** The guard lets through exactly the finite values in (0, 24]. */
  lemma AcceptedRange(hours: Number)
    ensures !Rejected(hours) <==> hours.Finite? && 0.0 < hours.value <= 24.0
  {
  }

  /** Every logged value lies in (0, 24]. */
  ghost predicate InRange(sleep: map<int, real>)
  {
    forall d :: d in sleep ==> 0.0 < sleep[d] <= 24.0
  }

  /** `sleepData[d] || 0`: the hours logged for day `d`, or 0. */
  function Hours(sleep: map<int, real>, d: int): real
  {
    if d in sleep then sleep[d] else 0.0
  }

  /** The nights of at least seven hours: `values.filter(v => v >= 7)`. */
  function GoodNights(sleep: map<int, real>): set<int>
  {
    set d | d in sleep && sleep[d] >= 7.0
  }

  /** The consistency figure of `updateSleepDashboard`: the share of logged
      nights that reached seven hours, as a rounded percentage, 0 when
      nothing is logged. */
  function Consistency(sleep: map<int, real>): (r: nat)
    ensures r <= 100
    ensures |sleep| == 0 ==> r == 0
    ensures 0 < |sleep| ==>
      2 * |sleep| * r <= 200 * |GoodNights(sleep)| + |sleep| < 2 * |sleep| * (r + 1)
    ensures (forall d :: d in sleep ==> sleep[d] < 7.0) ==> r == 0
    ensures 0 < |sleep| && (forall d :: d in sleep ==> sleep[d] >= 7.0) ==> r == 100
  {
    var good := GoodNights(sleep);
    assert good <= sleep.Keys;
    SubsetSize(good, sleep.Keys);
    assert (forall d :: d in sleep ==> sleep[d] < 7.0) ==> good == {};
    assert (forall d :: d in sleep ==> sleep[d] >= 7.0) ==> good == sleep.Keys;
    if |sleep| == 0 then 0 else RoundedPercent(|good|, |sleep|)
  }

  lemma SubsetSize(a: set<int>, b: set<int>)
    requires a <= b
    ensures |a| <= |b|
  {
    var rest := b - a;
    assert b == a + rest;
    assert a * rest == {};
  }

  /** The series of `drawSleepChart`: one point for each day 1 .. days. */
  function Series(sleep: map<int, real>, days: nat): (r: seq<real>)
    ensures |r| == days
  {
    seq(days, i requires 0 <= i < days => Hours(sleep, i + 1))
  }

  /** Logging today's hours moves the chart at today's point only. */
  lemma SeriesAfterLog(sleep: map<int, real>, days: nat, today: int, h: real)
    requires 1 <= today <= days
    ensures Series(sleep[today := h], days) == Series(sleep, days)[today - 1 := h]
  {
  }

  /** An empty log draws a flat line at 0. */
  lemma SeriesCleared(days: nat)
    ensures forall i :: 0 <= i < days ==> Series(map[], days)[i] == 0.0
  {
  }

  /** When every logged value is in range, every point of the chart lies
      between 0 and 24. */
  lemma SeriesBounded(sleep: map<int, real>, days: nat)
    requires InRange(sleep)
    ensures forall i :: 0 <= i < days ==> 0.0 <= Series(sleep, days)[i] <= 24.0
  {
  }

  /** Nights of 6, 8 and 7 hours: two of three reach seven hours, 67%. */
  lemma ConsistencyExample()
    ensures Consistency(map[1 := 6.0, 2 := 8.0, 3 := 7.0]) == 67
  {
    var sleep := map[1 := 6.0, 2 := 8.0, 3 := 7.0];
    assert sleep.Keys == {1, 2, 3};
    assert GoodNights(sleep) == {2, 3};
    assert |sleep| == 3;
  }
}
