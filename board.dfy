/**
 * The board outline (`getBoardPoints`): the four corners of one board, built
 * in the segment's local frame (x along the centreline, y across it), then
 * either recentred for the profile thumbnail or rotated into world space.
 */
module Board {
  import opened Wrappers
  import opened Geometry
  import opened Miter

  /** Saw settings below this are treated as a square cut. */
  const SquareTolerance: real := 0.01

  /** The profile thumbnail's horizontal centre. */
  const ProfileCentreX: real := 50.0

  /** `tPx`: the board thickness in logical units; `/ 20 * PIXELS_PER_CM` cancels. */
  function StripThickness(lineThickness: Option<real>, thickness: real): (r: real)
    ensures r == EffectiveThickness(lineThickness, thickness)
  {
    (EffectiveThickness(lineThickness, thickness) / 20.0) * PixelsPerCm
  }

  /** The edge of the strip at the start-corner side: 0 on the right, `-tPx` on the left. */
  function YStart(l: Segment, tPx: real): real {
    if IsRightSide(l) then 0.0 else -tPx
  }

  /** The opposite edge of the strip: `tPx` on the right, 0 on the left. */
  function YEnd(l: Segment, tPx: real): real {
    if IsRightSide(l) then tPx else 0.0
  }

  /** `getShift`: the horizontal offset of an end's cut at height `yOff`. */
  function Shift(yOff: real, m: MiterData, num: Numerics): real {
    if Abs(m.angle) < SquareTolerance then 0.0 else num.shift(yOff, m.bisectRel)
  }

  /** The four corners in the local frame, in drawing order. */
  function LocalCorners(l: Segment, mLeft: MiterData, mRight: MiterData, tPx: real, num: Numerics): seq<Point> {
    var length := num.hypot(l.x2 - l.x1, l.y2 - l.y1);
    var yS := YStart(l, tPx);
    var yE := YEnd(l, tPx);
    [ Point(Shift(yS, mLeft, num), yS),
      Point(length + Shift(yS, mRight, num), yS),
      Point(length + Shift(yE, mRight, num), yE),
      Point(Shift(yE, mLeft, num), yE) ]
  }

  /** `Math.min(...xs)` of a non-empty list. */
  function SeqMin(xs: seq<real>): (r: real)
    requires |xs| > 0
    ensures r in xs
    ensures forall k :: 0 <= k < |xs| ==> r <= xs[k]
  {
    if |xs| == 1 then xs[0]
    else
      var rest := SeqMin(xs[1..]);
      assert forall k :: 1 <= k < |xs| ==> xs[k] == xs[1..][k - 1];
      if xs[0] <= rest then xs[0] else rest
  }

  /** `Math.max(...xs)` of a non-empty list. */
  function SeqMax(xs: seq<real>): (r: real)
    requires |xs| > 0
    ensures r in xs
    ensures forall k :: 0 <= k < |xs| ==> xs[k] <= r
  {
    if |xs| == 1 then xs[0]
    else
      var rest := SeqMax(xs[1..]);
      assert forall k :: 1 <= k < |xs| ==> xs[k] == xs[1..][k - 1];
      if xs[0] >= rest then xs[0] else rest
  }

  function Xs(pts: seq<Point>): (r: seq<real>)
    ensures |r| == |pts| && forall k :: 0 <= k < |pts| ==> r[k] == pts[k].x
  {
    seq(|pts|, k requires 0 <= k < |pts| => pts[k].x)
  }

  /** Every point moved by the same offset. */
  function Translated(pts: seq<Point>, dx: real, dy: real): (r: seq<Point>)
    ensures |r| == |pts|
    ensures forall k :: 0 <= k < |pts| ==> r[k] == Point(pts[k].x + dx, pts[k].y + dy)
  {
    seq(|pts|, k requires 0 <= k < |pts| => Point(pts[k].x + dx, pts[k].y + dy))
  }

  /** Profile mode: centre the x-extent on 50 and the strip on y = 0. */
  function Profile(pts: seq<Point>, yS: real, yE: real): seq<Point>
    requires |pts| > 0
  {
    var xs := Xs(pts);
    Translated(pts, ProfileCentreX - (SeqMin(xs) + SeqMax(xs)) / 2.0, -(yS + yE) / 2.0)
  }

  /** One local point rotated by the centreline's direction and placed at its start. */
  function WorldPoint(l: Segment, p: Point, num: Numerics): Point {
    var angle := num.atan2Deg(l.y2 - l.y1, l.x2 - l.x1);
    var c := num.cosDeg(angle);
    var s := num.sinDeg(angle);
    Point(l.x1 + p.x * c - p.y * s, l.y1 + p.x * s + p.y * c)
  }

  function World(l: Segment, pts: seq<Point>, num: Numerics): (r: seq<Point>)
    ensures |r| == |pts| && forall k :: 0 <= k < |pts| ==> r[k] == WorldPoint(l, pts[k], num)
  {
    seq(|pts|, k requires 0 <= k < |pts| => WorldPoint(l, pts[k], num))
  }

  /** `getBoardPoints(l, mLeft, mRight, isProfile, lineThickness)`. */
  function BoardPoints(l: Segment, mLeft: MiterData, mRight: MiterData, isProfile: bool,
                       lineThickness: Option<real>, thickness: real, num: Numerics): (r: seq<Point>)
    ensures |r| == 4
  {
    var tPx := StripThickness(lineThickness, thickness);
    var pts := LocalCorners(l, mLeft, mRight, tPx, num);
    if isProfile then Profile(pts, YStart(l, tPx), YEnd(l, tPx)) else World(l, pts, num)
  }

  /**
   * The strip's cross-section: the first two corners lie on one edge and the
   * last two on the other; on the right side (also when unset) the edges are
   * 0 and tPx, on the left side -tPx and 0, with tPx the effective thickness.
   */
  lemma StripExtent(l: Segment, mLeft: MiterData, mRight: MiterData, lineThickness: Option<real>, thickness: real, num: Numerics)
    ensures var t := EffectiveThickness(lineThickness, thickness);
      var pts := LocalCorners(l, mLeft, mRight, StripThickness(lineThickness, thickness), num);
      |pts| == 4
      && pts[0].y == pts[1].y && pts[2].y == pts[3].y
      && (l.side.None? || l.side == Some(Right) ==> pts[0].y == 0.0 && pts[2].y == t)
      && (l.side == Some(Left) ==> pts[0].y == -t && pts[2].y == 0.0)
  {
  }

  /** A square end (saw setting within 0.01 of 0) has no shift at any height. */
  lemma SquareEndNoShift(yOff: real, m: MiterData, num: Numerics)
    requires -SquareTolerance < m.angle < SquareTolerance
    ensures Shift(yOff, m, num) == 0.0
  {
  }

  /**
   * With both ends square the outline is the plain rectangle from 0 to the
   * centreline's length, between the strip's two edges.
   */
  lemma SquareEndsRectangle(l: Segment, mLeft: MiterData, mRight: MiterData, tPx: real, num: Numerics)
    requires Abs(mLeft.angle) < SquareTolerance && Abs(mRight.angle) < SquareTolerance
    ensures var len := num.hypot(l.x2 - l.x1, l.y2 - l.y1);
      LocalCorners(l, mLeft, mRight, tPx, num)
        == [Point(0.0, YStart(l, tPx)), Point(len, YStart(l, tPx)), Point(len, YEnd(l, tPx)), Point(0.0, YEnd(l, tPx))]
  {
  }

  /**
   * An end with no connection stores a saw setting of 0, so its cut is
   * square in the outline.
   */
  lemma OpenEndSquare(lines: seq<Segment>, index: nat, isStart: bool, thickness: real, precision: nat, yOff: real, num: Numerics)
    requires index < |lines|
    requires forall j :: 0 <= j < |lines| && j != index ==> !Touches(lines[j], JointPoint(lines[index], isStart))
    ensures Shift(yOff, Miter.Miter(lines, index, isStart, thickness, precision, num), num) == 0.0
  {
    OpenEnd(lines, index, isStart, thickness, precision, num);
  }

  /** The minimum of a translated list is the translated minimum; likewise the maximum. */
  lemma ExtremaTranslate(pts: seq<Point>, dx: real, dy: real)
    requires |pts| > 0
    ensures SeqMin(Xs(Translated(pts, dx, dy))) == SeqMin(Xs(pts)) + dx
    ensures SeqMax(Xs(Translated(pts, dx, dy))) == SeqMax(Xs(pts)) + dx
  {
    var xs := Xs(pts);
    var ys := Xs(Translated(pts, dx, dy));
    var lo := SeqMin(ys);
    var hi := SeqMax(ys);
    var i :| 0 <= i < |ys| && ys[i] == lo;
    var j :| 0 <= j < |ys| && ys[j] == hi;
    assert SeqMin(xs) <= xs[i] && ys[i] == xs[i] + dx;
    assert SeqMax(xs) >= xs[j] && ys[j] == xs[j] + dx;
    var i' :| 0 <= i' < |xs| && xs[i'] == SeqMin(xs);
    var j' :| 0 <= j' < |xs| && xs[j'] == SeqMax(xs);
    assert lo <= ys[i'] && hi >= ys[j'];
  }

  /**
   * Profile mode keeps the outline's shape (every corner moves by the same
   * offset), puts the midpoint of its x-extent at 50 and the midpoint of the
   * strip at y = 0.
   */
  lemma ProfileCentred(l: Segment, mLeft: MiterData, mRight: MiterData, lineThickness: Option<real>, thickness: real, num: Numerics)
    ensures var tPx := StripThickness(lineThickness, thickness);
      var pts := LocalCorners(l, mLeft, mRight, tPx, num);
      var q := BoardPoints(l, mLeft, mRight, true, lineThickness, thickness, num);
      var xs := Xs(q);
      (exists dx, dy :: q == Translated(pts, dx, dy))
      && (SeqMin(xs) + SeqMax(xs)) / 2.0 == ProfileCentreX
      && (q[0].y + q[2].y) / 2.0 == 0.0
  {
    var tPx := StripThickness(lineThickness, thickness);
    var pts := LocalCorners(l, mLeft, mRight, tPx, num);
    var dx := ProfileCentreX - (SeqMin(Xs(pts)) + SeqMax(Xs(pts))) / 2.0;
    var dy := -(YStart(l, tPx) + YEnd(l, tPx)) / 2.0;
    var q := Translated(pts, dx, dy);
    assert BoardPoints(l, mLeft, mRight, true, lineThickness, thickness, num) == q;
    ExtremaTranslate(pts, dx, dy);
    assert q[0].y == YStart(l, tPx) + dy && q[2].y == YEnd(l, tPx) + dy;
  }

  /**
   * In world space, when the local start corner is the origin (the right or
   * unset side with a square start cut), the outline's first corner is the
   * segment's start point: the reference edge begins on the centreline.
   */
  lemma ReferenceEdgeAtStart(l: Segment, mLeft: MiterData, mRight: MiterData, lineThickness: Option<real>, thickness: real, num: Numerics)
    requires IsRightSide(l) && Abs(mLeft.angle) < SquareTolerance
    ensures BoardPoints(l, mLeft, mRight, false, lineThickness, thickness, num)[0] == l.Start()
  {
  }

  /**
   * `(lineThickness || thickness)` treats a thickness of 0 as unset: a segment
   * whose thickness is 0 is drawn exactly like one with no thickness, both in
   * its own strip and in the cuts at its two ends.
   */
  lemma ZeroThicknessBoard(lines: seq<Segment>, i: nat, isProfile: bool, thickness: real, precision: nat, num: Numerics)
    requires i < |lines|
    ensures var a := lines[i := lines[i].(thickness := Some(0.0))];
      var b := lines[i := lines[i].(thickness := None)];
      BoardPoints(a[i], Miter.Miter(a, i, true, thickness, precision, num), Miter.Miter(a, i, false, thickness, precision, num),
                  isProfile, a[i].thickness, thickness, num)
      == BoardPoints(b[i], Miter.Miter(b, i, true, thickness, precision, num), Miter.Miter(b, i, false, thickness, precision, num),
                     isProfile, b[i].thickness, thickness, num)
  {
    var a := lines[i := lines[i].(thickness := Some(0.0))];
    var b := lines[i := lines[i].(thickness := None)];
    var mLeft := Miter.Miter(a, i, true, thickness, precision, num);
    var mRight := Miter.Miter(a, i, false, thickness, precision, num);
    assert mLeft == Miter.Miter(b, i, true, thickness, precision, num) by {
      ZeroThicknessMiter(lines, i, i, true, thickness, precision, num);
    }
    assert mRight == Miter.Miter(b, i, false, thickness, precision, num) by {
      ZeroThicknessMiter(lines, i, i, false, thickness, precision, num);
    }
    SameBoard(a[i], b[i], mLeft, mRight, isProfile, a[i].thickness, b[i].thickness, thickness, num);
  }

  /** The outline reads only the segment's endpoints and side, and its effective thickness. */
  lemma SameBoard(x: Segment, y: Segment, mLeft: MiterData, mRight: MiterData, isProfile: bool,
                  tx: Option<real>, ty: Option<real>, thickness: real, num: Numerics)
    requires x.Start() == y.Start() && x.End() == y.End() && x.side == y.side
    requires EffectiveThickness(tx, thickness) == EffectiveThickness(ty, thickness)
    ensures BoardPoints(x, mLeft, mRight, isProfile, tx, thickness, num)
         == BoardPoints(y, mLeft, mRight, isProfile, ty, thickness, num)
  {
    var tPx := StripThickness(tx, thickness);
    assert tPx == StripThickness(ty, thickness);
    assert YStart(x, tPx) == YStart(y, tPx) && YEnd(x, tPx) == YEnd(y, tPx);
    var pts := LocalCorners(x, mLeft, mRight, tPx, num);
    assert pts == LocalCorners(y, mLeft, mRight, tPx, num);
    if !isProfile {
      forall k | 0 <= k < |pts|
        ensures WorldPoint(x, pts[k], num) == WorldPoint(y, pts[k], num)
      {
      }
      assert World(x, pts, num) == World(y, pts, num);
    }
  }
}
