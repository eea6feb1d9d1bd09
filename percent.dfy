/**
 * The one rounding rule of the dashboards: `Math.round(x / y * 100)`, used
 * for the habit completion rate and for the sleep consistency.
 */
module Percent {

  /** `Math.round(part / whole * 100)` on exact numbers: the integer nearest
      to the percentage, a half rounding up. */
  function RoundedPercent(part: nat, whole: nat): (r: nat)
    requires 0 < whole
    ensures 2 * whole * r <= 200 * part + whole < 2 * whole * (r + 1)
    ensures part <= whole ==> r <= 100
    ensures part == whole ==> r == 100
    ensures part == 0 ==> r == 0
  {
    var r := (200 * part + whole) / (2 * whole);
    RoundingFacts(part, whole, r);
    r
  }

  lemma RoundingFacts(part: nat, whole: nat, r: nat)
    requires 0 < whole && r == (200 * part + whole) / (2 * whole)
    ensures 2 * whole * r <= 200 * part + whole < 2 * whole * (r + 1)
    ensures part <= whole ==> r <= 100
    ensures part == whole ==> r == 100
    ensures part == 0 ==> r == 0
  {
    DivBounds(200 * part + whole, 2 * whole);
    if part <= whole && r > 100 {
      MulAtLeast(2 * whole, r, 101);
    }
    if part == whole && r < 100 {
      MulAtLeast(2 * whole, 100, r + 1);
    }
    if part == 0 && r > 0 {
      MulAtLeast(2 * whole, r, 1);
    }
  }

  lemma DivBounds(a: nat, b: nat)
    requires 0 < b
    ensures b * (a / b) <= a < b * (a / b + 1)
  {
  }

  lemma MulAtLeast(k: nat, x: nat, y: nat)
    requires x >= y
    ensures k * x >= k * y
  {
  }
}
