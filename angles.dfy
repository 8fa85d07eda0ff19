/**
 * The two angle normalisations of the miter calculator: `normalizeAngle`
 * (remainder, then one correction each way) and the pair of while loops that
 * bring the joint's angle difference into range.
 */
module Angles {

  /** `x` is a whole number of turns of 360 degrees. */
  predicate MultipleOf360(x: real) {
    (x / 360.0).Floor as real == x / 360.0
  }

  /** Integer part of `x`, truncating towards zero as JavaScript does. */
  function Trunc(x: real): (r: int)
    ensures 0.0 <= x ==> 0.0 <= r as real <= x < r as real + 1.0
    ensures x < 0.0 ==> r as real - 1.0 < x <= r as real <= 0.0
  {
    if x >= 0.0 then x.Floor else -((-x).Floor)
  }

  /**
   * JavaScript's `a % 360`: the remainder of truncated division, which takes
   * the sign of `a`.
   */
  function Rem360(a: real): (r: real)
    ensures 0.0 <= a ==> 0.0 <= r < 360.0
    ensures a < 0.0 ==> -360.0 < r <= 0.0
    ensures MultipleOf360(a - r)
  {
    var q := Trunc(a / 360.0);
    assert (a - (a - 360.0 * q as real)) / 360.0 == q as real;
    a - 360.0 * q as real
  }

  lemma AddTurns(x: real, k: int)
    requires MultipleOf360(x)
    ensures MultipleOf360(x + 360.0 * k as real)
  {
    var q := (x / 360.0).Floor;
    var y := x + 360.0 * k as real;
    assert y / 360.0 == (q + k) as real by {
      assert y / 360.0 == x / 360.0 + k as real;
    }
    assert (y / 360.0).Floor == q + k;
  }

  lemma ShiftTurn(x: real, y: real, k: int)
    requires MultipleOf360(x - y)
    ensures MultipleOf360(x - (y + 360.0 * k as real))
  {
    AddTurns(x - y, -k);
    assert x - (y + 360.0 * k as real) == (x - y) + 360.0 * (-k) as real;
  }

  lemma NoTurn(x: real)
    ensures MultipleOf360(x - x)
  {
    assert (x - x) / 360.0 == 0.0;
  }

  /** `normalizeAngle`: the value in (-180, 180] one whole number of turns from `deg`. */
  method NormalizeAngle(deg: real) returns (d: real)
    ensures -180.0 < d <= 180.0
    ensures MultipleOf360(deg - d)
  {
    d := Rem360(deg);
    if d > 180.0 {
      ShiftTurn(deg, d, -1);
      d := d - 360.0;
    }
    if d <= -180.0 {
      ShiftTurn(deg, d, 1);
      d := d + 360.0;
    }
  }

  /** The first loop, `while (diff > 180) diff -= 360`, as a recursion. */
  function WrapDown(d: real): (r: real)
    decreases d.Floor
    ensures r <= 180.0
    ensures d <= 180.0 ==> r == d
    ensures d > 180.0 ==> -180.0 < r
    ensures MultipleOf360(d - r)
  {
    if d > 180.0 then
      var r := WrapDown(d - 360.0);
      AddTurns(d - 360.0 - r, 1);
      assert d - r == (d - 360.0 - r) + 360.0 * 1 as real;
      r
    else
      NoTurn(d);
      d
  }

  /** The second loop, `while (diff < -180) diff += 360`, as a recursion. */
  function WrapUp(d: real): (r: real)
    decreases (-d).Floor
    ensures -180.0 <= r
    ensures -180.0 <= d ==> r == d
    ensures d < -180.0 ==> r < 180.0
    ensures MultipleOf360(d - r)
  {
    if d < -180.0 then
      var r := WrapUp(d + 360.0);
      AddTurns(d + 360.0 - r, -1);
      assert d - r == (d + 360.0 - r) + 360.0 * (-1) as real;
      r
    else
      NoTurn(d);
      d
  }

  /** Both loops in order: the angle difference the miter calculator uses. */
  function Wrap(d: real): real {
    WrapUp(WrapDown(d))
  }

  /**
   * The loops leave `d` in [-180, 180], a whole number of turns from where it
   * started, and untouched when it was already there; a value above the range
   * ends in (-180, 180] and one below it in [-180, 180).
   */
  lemma WrapRange(d: real)
    ensures -180.0 <= Wrap(d) <= 180.0
    ensures MultipleOf360(d - Wrap(d))
    ensures -180.0 <= d <= 180.0 ==> Wrap(d) == d
    ensures d > 180.0 ==> -180.0 < Wrap(d)
    ensures d < -180.0 ==> Wrap(d) < 180.0
  {
    var m := WrapDown(d);
    var r := WrapUp(m);
    var b := ((m - r) / 360.0).Floor;
    AddTurns(d - m, b);
    assert d - r == (d - m) + 360.0 * b as real;
  }

  /** The loops of `getMiterData` on `diff`, which end with `Wrap` of its start. */
  method WrapDiff(diff0: real) returns (diff: real)
    ensures diff == Wrap(diff0)
  {
    diff := diff0;
    while diff > 180.0
      invariant WrapDown(diff) == WrapDown(diff0)
      decreases diff.Floor
    {
      diff := diff - 360.0;
    }
    while diff < -180.0
      invariant WrapUp(diff) == Wrap(diff0)
      decreases (-diff).Floor
    {
      diff := diff + 360.0;
    }
  }
}
