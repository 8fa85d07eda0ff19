/**
 * The connectivity resolver and the miter angle calculator
 * (`calculateAngles` / `getMiterData`): for one end of one segment, find the
 * first other segment touching that end and work out the saw setting, the
 * signed bisector angle used to shear the board outline, and where to put
 * the readout.
 */
module Miter {
  import opened Wrappers
  import opened Geometry
  import opened Angles

  /** `s` has an endpoint closer than the joint tolerance to `p`. */
  predicate Touches(s: Segment, p: Point) {
    Within(s.Start(), p, JointTolerance) || Within(s.End(), p, JointTolerance)
  }

  /**
   * The indices from `i` on of the segments other than `self` that touch
   * `p`, in store order: the `filter` of `getMiterData`.
   */
  function ConnectedFrom(lines: seq<Segment>, self: int, p: Point, i: nat): (r: seq<nat>)
    requires i <= |lines|
    decreases |lines| - i
    ensures forall k :: 0 <= k < |r| ==> i <= r[k] < |lines| && r[k] != self && Touches(lines[r[k]], p)
    ensures forall k, m :: 0 <= k < m < |r| ==> r[k] < r[m]
    ensures forall j :: i <= j < |lines| && j != self && Touches(lines[j], p) ==> j in r
  {
    if i == |lines| then []
    else if i != self && Touches(lines[i], p) then [i] + ConnectedFrom(lines, self, p, i + 1)
    else ConnectedFrom(lines, self, p, i + 1)
  }

  function Connections(lines: seq<Segment>, self: int, p: Point): seq<nat> {
    ConnectedFrom(lines, self, p, 0)
  }

  /**
   * A segment never connects to itself; there is no connection exactly when
   * no other segment touches the point; and the connection used, the first,
   * is the lowest-indexed other segment that touches it.
   */
  lemma FirstConnection(lines: seq<Segment>, self: int, p: Point)
    ensures var c := Connections(lines, self, p);
      (c == [] <==> forall j :: 0 <= j < |lines| && j != self ==> !Touches(lines[j], p))
      && (c != [] ==>
            c[0] != self && c[0] < |lines| && Touches(lines[c[0]], p)
            && forall j :: 0 <= j < c[0] && j != self ==> !Touches(lines[j], p))
  {
    var c := Connections(lines, self, p);
    forall j | 0 <= j < |lines| && j != self && Touches(lines[j], p)
      ensures c != [] && c[0] <= j
    {
      assert j in c;
      var m :| 0 <= m < |c| && c[m] == j;
      assert m == 0 || c[0] < c[m];
    }
  }

  /** How the readout text is formed: a fixed text, or `value.toFixed(digits) + "°"`. */
  datatype Label = Text(text: string) | Fixed(value: real, digits: nat)

  /**
   * One end's result. All angles are in degrees: `angle` is the saw setting,
   * `bisectRel` the signed bisector angle, `labelOffset` the direction
   * of the readout.
   */
  datatype MiterData = MiterData(labelText: Label, angle: real, bisectRel: real, labelOffset: real)

  /** The result at an end with no connection. */
  const OpenEndLabel: Label := Text("90.0°")

  /** The point of `line` at the end being evaluated. */
  function JointPoint(line: Segment, isStart: bool): Point {
    if isStart then line.Start() else line.End()
  }

  /** Direction of `line` pointing away from the end given by `fromStart`. */
  function AwayAngle(line: Segment, fromStart: bool, num: Numerics): real {
    if fromStart then num.atan2Deg(line.y2 - line.y1, line.x2 - line.x1)
    else num.atan2Deg(line.y1 - line.y2, line.x1 - line.x2)
  }

  /** The override for an end: key 'left' for the start, 'right' for the end. */
  function Override(line: Segment, isStart: bool): Option<real> {
    if isStart then line.leftOverride else line.rightOverride
  }

  /**
   * The signed angle between the two boards at the joint, each taken away
   * from the shared point; the neighbour's direction depends on which of its
   * ends touches the point.
   */
  function JointDiff(line: Segment, other: Segment, isStart: bool, num: Numerics): real {
    var p := JointPoint(line, isStart);
    var a2 := AwayAngle(other, Within(other.Start(), p, JointTolerance), num);
    Wrap(a2 - AwayAngle(line, isStart, num))
  }

  /**
   * The miter angle (degrees) at a connected end: `90 - override` when the
   * end has an override, otherwise the bisector-miter law on the two
   * effective thicknesses and the absolute angle difference.
   */
  function MiterAngle(line: Segment, other: Segment, isStart: bool, thickness: real, num: Numerics): real {
    var ov := Override(line, isStart);
    if ov.Some? then 90.0 - ov.value
    else
      var tSelf := EffectiveThickness(line.thickness, thickness);
      var tOther := EffectiveThickness(other.thickness, thickness);
      num.miterDeg(tSelf, tOther, Abs(JointDiff(line, other, isStart, num)))
  }

  /** The saw setting before rounding: the override, or the deviation from square. */
  function RawSaw(line: Segment, other: Segment, isStart: bool, thickness: real, num: Numerics): real {
    var ov := Override(line, isStart);
    if ov.Some? then ov.value else Abs(90.0 - MiterAngle(line, other, isStart, thickness, num))
  }

  /** Precision 0 rounds with `Math.round`; otherwise `toFixed(precision)`. */
  function RoundSaw(x: real, precision: nat): real {
    if precision == 0 then JsRound(x) as real else ToFixedValue(x, precision)
  }

  /** The segment used at the joint: the first connection, if any. */
  function Neighbour(lines: seq<Segment>, index: int, p: Point): Option<Segment> {
    var c := Connections(lines, index, p);
    if c == [] then None else Some(lines[c[0]])
  }

  /** The result at one end of `line`, given the neighbour found there. */
  function EndMiter(line: Segment, neighbour: Option<Segment>, isStart: bool, thickness: real, precision: nat, num: Numerics): MiterData {
    match neighbour
    case None =>
      var baseAngle := num.atan2Deg(line.y2 - line.y1, line.x2 - line.x1);
      MiterData(OpenEndLabel, 0.0, 90.0, (if isStart then baseAngle else baseAngle + 180.0) + 90.0)
    case Some(other) =>
      var diff := JointDiff(line, other, isStart, num);
      var miter := MiterAngle(line, other, isStart, thickness, num);
      var saw := RoundSaw(RawSaw(line, other, isStart, thickness, num), precision);
      MiterData(Fixed(saw, precision), saw, if diff > 0.0 then miter else -miter,
        AwayAngle(line, isStart, num) + diff / 2.0 + 180.0)
  }

  /**
   * `getMiterData(x, y, isStart)` for `lines[index]`, with the global
   * thickness and precision.
   */
  function Miter(lines: seq<Segment>, index: nat, isStart: bool, thickness: real, precision: nat, num: Numerics): MiterData
    requires index < |lines|
  {
    EndMiter(lines[index], Neighbour(lines, index, JointPoint(lines[index], isStart)), isStart, thickness, precision, num)
  }

  /** `getMiterData`, step by step as the source computes it. */
  method GetMiterData(lines: seq<Segment>, index: nat, isStart: bool, thickness: real, precision: nat, num: Numerics)
    returns (m: MiterData)
    requires index < |lines|
    ensures m == Miter(lines, index, isStart, thickness, precision, num)
  {
    var line := lines[index];
    var p := JointPoint(line, isStart);
    var connections := Connections(lines, index, p);
    var baseAngle := num.atan2Deg(line.y2 - line.y1, line.x2 - line.x1);
    var currentDir := if isStart then baseAngle else baseAngle + 180.0;
    if connections == [] {
      return MiterData(OpenEndLabel, 0.0, 90.0, currentDir + 90.0);
    }
    var other := lines[connections[0]];
    assert Neighbour(lines, index, p) == Some(other);
    var a1 := AwayAngle(line, isStart, num);
    var a2 := AwayAngle(other, Within(other.Start(), p, JointTolerance), num);
    var diff := WrapDiff(a2 - a1);
    var theta := Abs(diff);
    var tSelf := EffectiveThickness(line.thickness, thickness);
    var tOther := EffectiveThickness(other.thickness, thickness);
    var myOverride := Override(line, isStart);
    var miterAngle := num.miterDeg(tSelf, tOther, theta);
    var sawSetting := Abs(90.0 - miterAngle);
    if myOverride.Some? {
      sawSetting := myOverride.value;
      miterAngle := 90.0 - sawSetting;
    }
    assert diff == JointDiff(line, other, isStart, num);
    assert miterAngle == MiterAngle(line, other, isStart, thickness, num);
    assert sawSetting == RawSaw(line, other, isStart, thickness, num);
    sawSetting := RoundSaw(sawSetting, precision);
    var bisectRel := if diff > 0.0 then miterAngle else -miterAngle;
    m := MiterData(Fixed(sawSetting, precision), sawSetting, bisectRel, a1 + diff / 2.0 + 180.0);
  }

  /** `calculateAngles`: the results at the start ('left') and end ('right') of `lines[index]`. */
  method CalculateAngles(lines: seq<Segment>, index: nat, thickness: real, precision: nat, num: Numerics)
    returns (left: MiterData, right: MiterData)
    requires index < |lines|
    ensures left == Miter(lines, index, true, thickness, precision, num)
    ensures right == Miter(lines, index, false, thickness, precision, num)
  {
    left := GetMiterData(lines, index, true, thickness, precision, num);
    right := GetMiterData(lines, index, false, thickness, precision, num);
  }

  /**
   * An end no other segment touches reads "90.0°" but stores a saw angle of
   * 0 and a bisector angle of 90, whatever the thicknesses.
   */
  lemma OpenEnd(lines: seq<Segment>, index: nat, isStart: bool, thickness: real, precision: nat, num: Numerics)
    requires index < |lines|
    requires forall j :: 0 <= j < |lines| && j != index ==> !Touches(lines[j], JointPoint(lines[index], isStart))
    ensures var m := Miter(lines, index, isStart, thickness, precision, num);
      m.labelText == Text("90.0°") && m.angle == 0.0 && m.bisectRel == 90.0
  {
    FirstConnection(lines, index, JointPoint(lines[index], isStart));
  }

  /** A segment alone in the store is open at both ends. */
  lemma LoneSegment(s: Segment, thickness: real, precision: nat, num: Numerics)
    ensures Miter([s], 0, true, thickness, precision, num).angle == 0.0
    ensures Miter([s], 0, false, thickness, precision, num).angle == 0.0
    ensures Miter([s], 0, true, thickness, precision, num).labelText == Text("90.0°")
    ensures Miter([s], 0, false, thickness, precision, num).labelText == Text("90.0°")
  {
    OpenEnd([s], 0, true, thickness, precision, num);
    OpenEnd([s], 0, false, thickness, precision, num);
  }

  /**
   * At a connected end the computed angle difference lies in [-180, 180];
   * the bisector angle has the miter angle's magnitude, and for a positive
   * miter angle it is positive exactly when the difference is.
   */
  lemma BisectSign(lines: seq<Segment>, index: nat, isStart: bool, thickness: real, precision: nat, num: Numerics)
    requires index < |lines|
    requires Connections(lines, index, JointPoint(lines[index], isStart)) != []
    ensures var other := lines[Connections(lines, index, JointPoint(lines[index], isStart))[0]];
      var diff := JointDiff(lines[index], other, isStart, num);
      var miter := MiterAngle(lines[index], other, isStart, thickness, num);
      var m := Miter(lines, index, isStart, thickness, precision, num);
      -180.0 <= diff <= 180.0
      && Abs(m.bisectRel) == Abs(miter)
      && (miter > 0.0 ==> (m.bisectRel > 0.0 <==> diff > 0.0))
      && (miter < 0.0 ==> (m.bisectRel > 0.0 <==> diff <= 0.0))
  {
    var line := lines[index];
    var other := lines[Connections(lines, index, JointPoint(line, isStart))[0]];
    var p := JointPoint(line, isStart);
    WrapRange(AwayAngle(other, Within(other.Start(), p, JointTolerance), num) - AwayAngle(line, isStart, num));
  }

  /**
   * An override replaces the saw setting of its end: a connected end with an
   * override reports that value, rounded to the precision, and a bisector
   * angle of magnitude |90 - override|, independently of both thicknesses.
   * Without one the setting is the rounded deviation from square.
   */
  lemma OverrideSetsSaw(lines: seq<Segment>, index: nat, isStart: bool, thickness: real, precision: nat, num: Numerics)
    requires index < |lines|
    requires Connections(lines, index, JointPoint(lines[index], isStart)) != []
    ensures var other := lines[Connections(lines, index, JointPoint(lines[index], isStart))[0]];
      var m := Miter(lines, index, isStart, thickness, precision, num);
      var ov := Override(lines[index], isStart);
      (ov.Some? ==> m.angle == RoundSaw(ov.value, precision) && Abs(m.bisectRel) == Abs(90.0 - ov.value))
      && (ov.None? ==> m.angle == RoundSaw(Abs(90.0 - MiterAngle(lines[index], other, isStart, thickness, num)), precision))
  {
    BisectSign(lines, index, isStart, thickness, precision, num);
  }

  /** `b` is `a` with at most the overrides of segment `i` changed. */
  predicate SameButOverrides(a: seq<Segment>, b: seq<Segment>, i: int) {
    |a| == |b|
    && (forall j :: 0 <= j < |a| && j != i ==> a[j] == b[j])
    && (0 <= i < |a| ==>
          a[i].x1 == b[i].x1 && a[i].y1 == b[i].y1 && a[i].x2 == b[i].x2 && a[i].y2 == b[i].y2
          && a[i].thickness == b[i].thickness && a[i].side == b[i].side)
  }

  /** Connectivity depends only on the endpoints. */
  lemma {:induction false} ConnectedFromSameEnds(a: seq<Segment>, b: seq<Segment>, self: int, p: Point, i: nat)
    requires |a| == |b| && i <= |a|
    requires forall j :: 0 <= j < |a| ==> a[j].Start() == b[j].Start() && a[j].End() == b[j].End()
    decreases |a| - i
    ensures ConnectedFrom(a, self, p, i) == ConnectedFrom(b, self, p, i)
  {
    if i < |a| {
      ConnectedFromSameEnds(a, b, self, p, i + 1);
    }
  }

  /**
   * Setting an override on one end of segment `i` changes nothing at its
   * other end.
   */
  lemma OverrideKeepsOtherEnd(a: seq<Segment>, b: seq<Segment>, i: nat, isStart: bool, thickness: real, precision: nat, num: Numerics)
    requires i < |a| && SameButOverrides(a, b, i)
    requires Override(a[i], !isStart) == Override(b[i], !isStart)
    ensures Miter(a, i, !isStart, thickness, precision, num) == Miter(b, i, !isStart, thickness, precision, num)
  {
    var e := !isStart;
    var p := JointPoint(a[i], e);
    assert p == JointPoint(b[i], e);
    ConnectedFromSameEnds(a, b, i, p, 0);
    var n := Neighbour(a, i, p);
    assert n == Neighbour(b, i, p);
    SameEndMiter(a[i], b[i], n, e, thickness, precision, num);
  }

  /**
   * The result at an end reads only the segment's geometry, its effective
   * thickness and that end's override.
   */
  lemma SameEndMiter(x: Segment, y: Segment, n: Option<Segment>, e: bool, thickness: real, precision: nat, num: Numerics)
    requires x.x1 == y.x1 && x.y1 == y.y1 && x.x2 == y.x2 && x.y2 == y.y2
    requires EffectiveThickness(x.thickness, thickness) == EffectiveThickness(y.thickness, thickness)
    requires Override(x, e) == Override(y, e)
    ensures EndMiter(x, n, e, thickness, precision, num) == EndMiter(y, n, e, thickness, precision, num)
  {
    if n.Some? {
      assert AwayAngle(x, e, num) == AwayAngle(y, e, num);
      assert JointDiff(x, n.value, e, num) == JointDiff(y, n.value, e, num);
      assert MiterAngle(x, n.value, e, thickness, num) == MiterAngle(y, n.value, e, thickness, num);
    }
  }

  /**
   * Changing the overrides of segment `i` changes nothing at any end of any
   * other segment, including the neighbour it shares a joint with.
   */
  lemma OverrideKeepsNeighbours(a: seq<Segment>, b: seq<Segment>, i: nat, j: nat, e: bool, thickness: real, precision: nat, num: Numerics)
    requires i < |a| && j < |a| && j != i && SameButOverrides(a, b, i)
    ensures Miter(a, j, e, thickness, precision, num) == Miter(b, j, e, thickness, precision, num)
  {
    var p := JointPoint(a[j], e);
    ConnectedFromSameEnds(a, b, j, p, 0);
    var c := Connections(a, j, p);
    assert c == Connections(b, j, p);
    if c != [] {
      SameNeighbourMiter(a[j], a[c[0]], b[c[0]], e, thickness, precision, num);
    }
  }

  /** The neighbour contributes only its geometry and its effective thickness. */
  lemma SameNeighbourMiter(line: Segment, x: Segment, y: Segment, e: bool, thickness: real, precision: nat, num: Numerics)
    requires x.x1 == y.x1 && x.y1 == y.y1 && x.x2 == y.x2 && x.y2 == y.y2
    requires EffectiveThickness(x.thickness, thickness) == EffectiveThickness(y.thickness, thickness)
    ensures EndMiter(line, Some(x), e, thickness, precision, num) == EndMiter(line, Some(y), e, thickness, precision, num)
  {
    assert x.Start() == y.Start();
    assert AwayAngle(x, true, num) == AwayAngle(y, true, num);
    assert AwayAngle(x, false, num) == AwayAngle(y, false, num);
    assert JointDiff(line, x, e, num) == JointDiff(line, y, e, num);
    assert MiterAngle(line, x, e, thickness, num) == MiterAngle(line, y, e, thickness, num);
  }

  /**
   * `line.thickness || thickness` treats a thickness of 0 as unset: giving
   * segment `i` a thickness of 0 or none at all yields the same result at
   * every end of every segment, `i` itself and its neighbours alike.
   */
  lemma ZeroThicknessMiter(lines: seq<Segment>, i: nat, j: nat, e: bool, thickness: real, precision: nat, num: Numerics)
    requires i < |lines| && j < |lines|
    ensures Miter(lines[i := lines[i].(thickness := Some(0.0))], j, e, thickness, precision, num)
         == Miter(lines[i := lines[i].(thickness := None)], j, e, thickness, precision, num)
  {
    var a := lines[i := lines[i].(thickness := Some(0.0))];
    var b := lines[i := lines[i].(thickness := None)];
    var p := JointPoint(a[j], e);
    assert p == JointPoint(b[j], e);
    ConnectedFromSameEnds(a, b, j, p, 0);
    var c := Connections(a, j, p);
    assert c == Connections(b, j, p);
    if c == [] {
      SameEndMiter(a[j], b[j], None, e, thickness, precision, num);
    } else {
      SameNeighbourMiter(a[j], a[c[0]], b[c[0]], e, thickness, precision, num);
      SameEndMiter(a[j], b[j], Some(b[c[0]]), e, thickness, precision, num);
    }
  }
}
