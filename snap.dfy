/**
 * The snap resolver (`getSnappedPos`): a cursor position is replaced by the
 * nearest grid point or by an existing segment endpoint when one is close
 * enough on screen.
 */
module Snap {
  import opened Wrappers
  import opened Geometry

  /** `v` is a whole multiple of the 20-unit (one centimetre) grid spacing. */
  predicate OnGrid(v: real) {
    (v / PixelsPerCm).Floor as real * PixelsPerCm == v
  }

  /** The grid intersection `Math.round(p / 20) * 20`, coordinate by coordinate. */
  function GridPoint(p: Point): (g: Point)
    ensures OnGrid(g.x) && OnGrid(g.y)
    ensures Abs(g.x - p.x) <= 10.0 && Abs(g.y - p.y) <= 10.0
  {
    var gx := JsRound(p.x / PixelsPerCm);
    var gy := JsRound(p.y / PixelsPerCm);
    assert (gx as real * PixelsPerCm) / PixelsPerCm == gx as real;
    assert (gy as real * PixelsPerCm) / PixelsPerCm == gy as real;
    Point(gx as real * PixelsPerCm, gy as real * PixelsPerCm)
  }

  /** Every endpoint in scan order: start then end of each segment, in store order. */
  function Endpoints(lines: seq<Segment>): (e: seq<Point>)
    ensures |e| == 2 * |lines|
    ensures forall i :: 0 <= i < |lines| ==> e[2 * i] == lines[i].Start() && e[2 * i + 1] == lines[i].End()
  {
    if lines == [] then []
    else
      var rest := Endpoints(lines[1..]);
      var e := [lines[0].Start(), lines[0].End()] + rest;
      assert forall i :: 1 <= i < |lines| ==> e[2 * i] == lines[i].Start() && e[2 * i + 1] == lines[i].End() by {
        forall i | 1 <= i < |lines|
          ensures e[2 * i] == lines[i].Start() && e[2 * i + 1] == lines[i].End()
        {
          var j := i - 1;
          assert 2 * i == 2 * j + 2;
          assert lines[1..][j] == lines[i];
          assert e[2 * j + 2] == rest[2 * j] && e[2 * j + 3] == rest[2 * j + 1];
        }
      }
      e
  }

  /**
   * Among the first `n` endpoints, `e[k]` is a closest one to `pos` and every
   * earlier one is strictly farther: the first closest.
   */
  ghost predicate FirstClosest(pos: Point, e: seq<Point>, k: int, n: int)
    requires 0 <= k < |e| && n <= |e|
  {
    forall j :: 0 <= j < n ==>
      DistSq(pos, e[k]) <= DistSq(pos, e[j]) && (j < k ==> DistSq(pos, e[k]) < DistSq(pos, e[j]))
  }

  /** No endpoint lies within the pick radius of `pos`. */
  ghost predicate NoEndpointWithin(pos: Point, e: seq<Point>, limit: real) {
    forall j :: 0 <= j < |e| ==> !Within(pos, e[j], limit)
  }

  /**
   * What `getSnappedPos` returns for `pos`. With snapping off, the position
   * itself. Otherwise, when no endpoint is within `SnapDist / zoom`, the grid
   * point if it is within that radius and the position if not; when some
   * endpoint is, the first closest endpoint.
   */
  ghost predicate SnapResult(pos: Point, lines: seq<Segment>, snapEnabled: bool, zoom: real, snapped: Point)
    requires zoom > 0.0
  {
    var e := Endpoints(lines);
    var limit := SnapDist / zoom;
    (!snapEnabled ==> snapped == pos)
    && (snapEnabled ==> snapped == pos || snapped == GridPoint(pos) || snapped in e)
    && (snapEnabled && NoEndpointWithin(pos, e, limit) ==>
          snapped == (if Within(pos, GridPoint(pos), limit) then GridPoint(pos) else pos))
    && (snapEnabled && !NoEndpointWithin(pos, e, limit) ==>
          exists k :: 0 <= k < |e| && snapped == e[k] && Within(pos, e[k], limit) && FirstClosest(pos, e, k, |e|))
  }

  /** The snap result is a function of its inputs: at most one point satisfies the contract. */
  lemma {:induction false} SnapResultUnique(pos: Point, lines: seq<Segment>, snapEnabled: bool, zoom: real, a: Point, b: Point)
    requires zoom > 0.0
    requires SnapResult(pos, lines, snapEnabled, zoom, a) && SnapResult(pos, lines, snapEnabled, zoom, b)
    ensures a == b
  {
    var e := Endpoints(lines);
    var limit := SnapDist / zoom;
    if snapEnabled && !NoEndpointWithin(pos, e, limit) {
      var i :| 0 <= i < |e| && a == e[i] && FirstClosest(pos, e, i, |e|);
      var j :| 0 <= j < |e| && b == e[j] && FirstClosest(pos, e, j, |e|);
      FirstClosestUnique(pos, e, i, j);
    }
  }

  /** Two first-closest indices over the whole sequence are the same index. */
  lemma FirstClosestUnique(pos: Point, e: seq<Point>, i: int, j: int)
    requires 0 <= i < |e| && 0 <= j < |e|
    requires FirstClosest(pos, e, i, |e|) && FirstClosest(pos, e, j, |e|)
    ensures i == j
  {
    var di, dj := DistSq(pos, e[i]), DistSq(pos, e[j]);
    assert di <= dj && (j < i ==> di < dj);
    assert dj <= di && (i < j ==> dj < di);
  }

  /**
   * `getSnappedPos`. With snapping off the position is returned as it is.
   * Otherwise the grid point is taken when it is within `SnapDist / zoom`,
   * and then every endpoint strictly closer than the current bound replaces
   * the candidate and becomes the bound. The grid hit does not lower the
   * bound, so any endpoint within the radius wins over the grid point, even
   * one farther away than it; among endpoints the first closest wins.
   */
  method GetSnappedPos(pos: Point, lines: seq<Segment>, snapEnabled: bool, zoom: real)
    returns (snapped: Point)
    requires zoom > 0.0
    ensures SnapResult(pos, lines, snapEnabled, zoom, snapped)
  {
    if !snapEnabled {
      return pos;
    }
    var limit := SnapDist / zoom;
    // The bound is kept squared: distances are never negative, so comparing
    // their squares orders them as Math.hypot does.
    var minSq := limit * limit;
    ghost var bound := minSq;
    snapped := pos;
    var grid := GridPoint(pos);
    if Within(pos, grid, limit) {
      snapped := grid;
    }
    ghost var first := snapped;
    ghost var e := Endpoints(lines);
    ghost var best := -1;
    var i := 0;
    while i < |lines|
      invariant 0 <= i <= |lines|
      invariant -1 <= best < 2 * i
      invariant best == -1 ==> snapped == first && minSq == bound
      invariant best == -1 ==> forall j :: 0 <= j < 2 * i ==> DistSq(pos, e[j]) >= bound
      invariant best >= 0 ==> snapped == e[best] && minSq == DistSq(pos, e[best]) && minSq < bound
      invariant best >= 0 ==> FirstClosest(pos, e, best, 2 * i)
    {
      var d1 := DistSq(pos, lines[i].Start());
      var d2 := DistSq(pos, lines[i].End());
      assert d1 == DistSq(pos, e[2 * i]) && d2 == DistSq(pos, e[2 * i + 1]);
      if d1 < minSq {
        snapped, minSq, best := lines[i].Start(), d1, 2 * i;
      }
      if d2 < minSq {
        snapped, minSq, best := lines[i].End(), d2, 2 * i + 1;
      }
      i := i + 1;
    }
    if best >= 0 {
      assert snapped == e[best] && Within(pos, e[best], limit) && FirstClosest(pos, e, best, |e|);
    } else {
      assert NoEndpointWithin(pos, e, limit);
    }
  }

  /**
   * An endpoint inside the pick radius beats a grid point that is closer:
   * at (1, 0) the grid point (0, 0) is 1 away and the endpoint (1, 9) is 9
   * away, and the endpoint is chosen.
   */
  method EndpointBeatsCloserGrid() returns (pos: Point, snapped: Point)
    ensures Within(pos, GridPoint(pos), SnapDist)
    ensures DistSq(pos, GridPoint(pos)) < DistSq(pos, snapped)
    ensures snapped != GridPoint(pos)
    ensures pos == Point(1.0, 0.0) && snapped == Point(1.0, 9.0)
  {
    pos := Point(1.0, 0.0);
    var s := Segment(1.0, 9.0, 100.0, 9.0, None, None, None, None);
    assert GridPoint(pos) == Point(0.0, 0.0);
    snapped := GetSnappedPos(pos, [s], true, 1.0);
    var e := Endpoints([s]);
    assert e[0] == Point(1.0, 9.0);
    assert !NoEndpointWithin(pos, e, SnapDist);
    assert DistSq(pos, e[1]) > DistSq(pos, e[0]);
    assert snapped == e[0];
  }

  /**
   * Snapping is not idempotent: (5, 0) snaps to the grid point (0, 0), and
   * (0, 0) snaps on to the endpoint (-8, 0), which was out of reach of (5, 0).
   */
  method SnapNotIdempotent() returns (pos: Point, once: Point, twice: Point)
    ensures once != twice
    ensures pos == Point(5.0, 0.0) && once == Point(0.0, 0.0) && twice == Point(-8.0, 0.0)
  {
    pos := Point(5.0, 0.0);
    var s := Segment(-8.0, 0.0, -100.0, 0.0, None, None, None, None);
    var e := Endpoints([s]);
    assert e[0] == Point(-8.0, 0.0) && e[1] == Point(-100.0, 0.0);
    assert GridPoint(pos) == Point(0.0, 0.0);
    once := GetSnappedPos(pos, [s], true, 1.0);
    assert NoEndpointWithin(pos, e, SnapDist);
    assert once == Point(0.0, 0.0);
    twice := GetSnappedPos(once, [s], true, 1.0);
    assert GridPoint(once) == Point(0.0, 0.0);
    assert !NoEndpointWithin(once, e, SnapDist);
    assert twice == e[0];
  }
}
