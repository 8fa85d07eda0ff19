/**
 * The segment store's entities and the exact numeric primitives shared by the
 * snap resolver, the connectivity resolver, the miter calculator and the
 * board outline.
 */
module Geometry {
  import opened Wrappers

  /** Logical units ("pixels") per real centimetre. */
  const PixelsPerCm: real := 20.0
  /** On-screen pick radius of the snap resolver, before zoom scaling. */
  const SnapDist: real := 10.0
  /** Two endpoints closer than this belong to the same joint. */
  const JointTolerance: real := 2.0

  datatype Point = Point(x: real, y: real)

  /** Which perpendicular side of the centreline the board material occupies. */
  datatype Side = Right | Left

  /**
   * One board: a directed centreline with optional thickness, side and
   * per-end saw overrides (`miterOverrides.left` for the start end,
   * `miterOverrides.right` for the end end).
   */
  datatype Segment = Segment(
    x1: real, y1: real, x2: real, y2: real,
    thickness: Option<real>,
    side: Option<Side>,
    leftOverride: Option<real>,
    rightOverride: Option<real>)
  {
    function Start(): Point { Point(x1, y1) }
    function End(): Point { Point(x2, y2) }
  }

  function Abs(x: real): (r: real)
    ensures r >= 0.0 && (r == x || r == -x)
  {
    if x < 0.0 then -x else x
  }

  /** Squared Euclidean distance between two points. */
  function DistSq(p: Point, q: Point): (r: real)
    ensures r >= 0.0
  {
    var dx := p.x - q.x;
    var dy := p.y - q.y;
    SquarePositive(dx);
    SquarePositive(dy);
    dx * dx + dy * dy
  }

  lemma SquarePositive(d: real)
    ensures d * d >= 0.0
    ensures d != 0.0 ==> d * d > 0.0
  {
    if d < 0.0 {
      assert d * d == (-d) * (-d);
    }
  }

  /**
   * `Math.hypot(p - q) < limit`, exactly: the Euclidean distance is the
   * non-negative square root of DistSq, so it is below `limit` precisely when
   * `limit` is positive and DistSq is below `limit * limit`.
   */
  predicate Within(p: Point, q: Point, limit: real) {
    limit > 0.0 && DistSq(p, q) < limit * limit
  }

  /** `t || fallback`: a missing or zero thickness falls back to the global one. */
  function EffectiveThickness(t: Option<real>, fallback: real): (r: real)
    ensures t.Some? && t.value != 0.0 ==> r == t.value
    ensures t.None? || t.value == 0.0 ==> r == fallback
  {
    if t.Some? && t.value != 0.0 then t.value else fallback
  }

  /** `(side || 'right') === 'right'`: an unset side means the right side. */
  predicate IsRightSide(s: Segment) {
    s.side.GetOr(Right) == Right
  }

  /** JavaScript's `Math.round`: round half up, towards positive infinity. */
  function JsRound(x: real): (r: int)
    ensures x - 0.5 < r as real <= x + 0.5
  {
    (x + 0.5).Floor
  }

  function Pow10(n: nat): (r: nat)
    ensures r >= 1
  {
    if n == 0 then 1 else 10 * Pow10(n - 1)
  }

  /**
   * `parseFloat(x.toFixed(p))` for p > 0: rounding to p decimals, half away
   * from zero (on exact reals).
   */
  function ToFixedValue(x: real, p: nat): (r: real)
    ensures var scale := Pow10(p) as real;
      Abs(x) * scale - 0.5 < Abs(r) * scale <= Abs(x) * scale + 0.5
      && (x < 0.0 ==> r <= 0.0) && (x >= 0.0 ==> r >= 0.0)
  {
    var scale := Pow10(p) as real;
    var m := RoundedUnits(x, scale);
    Unscaled(if x < 0.0 then -m else m, scale)
  }

  /** The magnitude of `x` in units of `1 / s`, rounded half up. */
  function RoundedUnits(x: real, s: real): (m: int)
    ensures Abs(x) * s - 0.5 < m as real <= Abs(x) * s + 0.5
  {
    (Abs(x) * s + 0.5).Floor
  }

  /** `k / s`: the real that the scale `s` takes back to the whole number `k`. */
  function Unscaled(k: int, s: real): (r: real)
    requires s > 0.0
    ensures r * s == k as real && Abs(r) * s == Abs(k as real)
    ensures k >= 0 ==> r >= 0.0
    ensures k < 0 ==> r < 0.0
  {
    var q := k as real / s;
    assert q * s == k as real;
    q
  }

  /** A scaled error of at most one half is, unscaled, at most one half over the scale. */
  lemma ErrorUnscaled(r: real, x: real, s: real)
    requires s > 0.0 && -0.5 <= r * s - x * s <= 0.5
    ensures Abs(r - x) <= 0.5 / s
  {
    var d := r - x;
    assert d * s == r * s - x * s;
    assert (0.5 / s) * s == 0.5;
  }

  /** `r` is a whole number of units of `1 / s`. */
  predicate WholeUnits(r: real, s: real) {
    (r * s).Floor as real == r * s
  }

  /** Rounding to `p` decimals gives a whole number of units in the last place. */
  lemma ToFixedWhole(x: real, p: nat)
    ensures WholeUnits(ToFixedValue(x, p), Pow10(p) as real)
  {
    var scale := Pow10(p) as real;
    var m := RoundedUnits(x, scale);
    var k := if x < 0.0 then -m else m;
    assert ToFixedValue(x, p) == Unscaled(k, scale);
    UnscaledWhole(k, scale);
  }

  lemma UnscaledWhole(k: int, s: real)
    requires s > 0.0
    ensures WholeUnits(Unscaled(k, s), s)
  {
    var y := Unscaled(k, s) * s;
    assert y == k as real;
    assert y.Floor == k;
  }

  /** Rounding to `p` decimals moves the value by at most half a unit in the last place. */
  lemma ToFixedError(x: real, p: nat)
    ensures Abs(ToFixedValue(x, p) - x) <= 0.5 / Pow10(p) as real
  {
    var scale := Pow10(p) as real;
    SameSignError(ToFixedValue(x, p), x, scale);
  }

  lemma SameSignError(r: real, x: real, s: real)
    requires s > 0.0
    requires Abs(x) * s - 0.5 < Abs(r) * s <= Abs(x) * s + 0.5
    requires (x < 0.0 ==> r <= 0.0) && (x >= 0.0 ==> r >= 0.0)
    ensures Abs(r - x) <= 0.5 / s
  {
    if x >= 0.0 {
      assert r * s == Abs(r) * s && x * s == Abs(x) * s;
    } else {
      assert r * s == -(Abs(r) * s) && x * s == -(Abs(x) * s);
    }
    ErrorUnscaled(r, x, s);
  }

  /**
   * A value and its negation round to opposite results, so a half is
   * rounded away from zero on both sides.
   */
  lemma ToFixedSymmetric(x: real, p: nat)
    ensures ToFixedValue(-x, p) == -ToFixedValue(x, p)
  {
    if x > 0.0 {
      ToFixedNegated(x, p);
    } else if x < 0.0 {
      ToFixedNegated(-x, p);
      assert - -x == x;
    } else {
      var scale := Pow10(p) as real;
      assert RoundedUnits(x, scale) == 0;
      assert ToFixedValue(x, p) == Unscaled(0, scale);
      UnscaledNeg(0, scale);
    }
  }

  lemma ToFixedNegated(x: real, p: nat)
    requires x > 0.0
    ensures ToFixedValue(-x, p) == -ToFixedValue(x, p)
  {
    var scale := Pow10(p) as real;
    var m := RoundedUnits(x, scale);
    assert RoundedUnits(-x, scale) == m by {
      assert Abs(-x) == Abs(x);
    }
    UnscaledNeg(m, scale);
  }

  lemma UnscaledNeg(k: int, s: real)
    requires s > 0.0
    ensures Unscaled(-k, s) == -Unscaled(k, s)
  {
  }

  /**
   * The opaque transcendental primitives. Angles are in degrees: the source's
   * radian values are these times pi/180.
   *  - atan2Deg(dy, dx) is `Math.atan2(dy, dx)`;
   *  - miterDeg(tSelf, tOther, thetaDeg) is
   *    `atan2(tSelf * sin(theta), tOther + tSelf * cos(theta))`;
   *  - shift(yOff, bisectRelDeg) is `yOff / Math.tan(bisectRel)`;
   *  - cosDeg, sinDeg are `Math.cos`, `Math.sin`;
   *  - hypot(dx, dy) is `Math.hypot(dx, dy)` used as a value.
   */
  datatype Numerics = Numerics(
    atan2Deg: (real, real) -> real,
    miterDeg: (real, real, real) -> real,
    shift: (real, real) -> real,
    cosDeg: real -> real,
    sinDeg: real -> real,
    hypot: (real, real) -> real)
}
