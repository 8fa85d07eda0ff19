/**
 * The segment store's edits as copies of the list (`filter` / `map` /
 * append), the bounded undo history, and the shapes a drawing gesture
 * commits.
 */
module Store {
  import opened Wrappers
  import opened Geometry
  import opened Miter
  import opened Units

  // ---------------------------------------------------------------- history

  /** The most snapshots the history holds. */
  const HistoryLimit: nat := 50

  /** `h.slice(-n)`: the last `n` entries, or all of them when there are fewer. */
  function LastN<T>(h: seq<T>, n: nat): (r: seq<T>)
    ensures |r| == if |h| <= n then |h| else n
    ensures r == h[|h| - |r|..]
  {
    if |h| <= n then h else h[|h| - n..]
  }

  /** `saveHistory`: keep the last 49 entries and append the snapshot `s`. */
  function Saved<T>(h: seq<T>, s: T): seq<T> {
    LastN(h, HistoryLimit - 1) + [s]
  }

  /**
   * Saving never lets the history exceed 50 entries, the newest snapshot is
   * last, the older entries are the most recent 49 of before, and the result
   * is exactly the last 50 entries of the unbounded history.
   */
  lemma SavedWindow<T>(h: seq<T>, s: T)
    ensures var r := Saved(h, s);
      1 <= |r| <= HistoryLimit && r[|r| - 1] == s
      && r[..|r| - 1] == LastN(h, HistoryLimit - 1)
      && r == LastN(h + [s], HistoryLimit)
  {
    var r := Saved(h, s);
    if |h| > HistoryLimit - 1 {
      assert (h + [s])[|h| + 1 - HistoryLimit..] == h[|h| - (HistoryLimit - 1)..] + [s];
    }
    assert r[..|r| - 1] == LastN(h, HistoryLimit - 1);
  }

  /** Taking the last `n` of a list of which only the last `n` matter. */
  lemma LastNAppend<T>(x: seq<T>, y: seq<T>, n: nat)
    ensures LastN(LastN(x, n) + y, n) == LastN(x + y, n)
  {
    if |x| > n {
      var z := x + y;
      var lx := x[|x| - n..];
      assert lx + y == z[|x| - n..];
      assert (lx + y)[|y|..] == z[|z| - n..];
    }
  }

  /** Saving a run of snapshots one after another. */
  function SaveAll<T>(h: seq<T>, snaps: seq<T>): seq<T>
    decreases |snaps|
  {
    if snaps == [] then h else SaveAll(Saved(h, snaps[0]), snaps[1..])
  }

  /**
   * However many saves happen, the history is the last 50 snapshots of the
   * whole sequence of saves: older ones are dropped oldest first.
   */
  lemma {:induction false} SaveAllWindow<T>(h: seq<T>, snaps: seq<T>)
    requires |h| <= HistoryLimit
    decreases |snaps|
    ensures SaveAll(h, snaps) == LastN(h + snaps, HistoryLimit)
    ensures |SaveAll(h, snaps)| <= HistoryLimit
  {
    if snaps == [] {
      assert h + snaps == h;
    } else {
      var s0 := snaps[0];
      var rest := snaps[1..];
      var h' := Saved(h, s0);
      assert SaveAll(h, snaps) == SaveAll(h', rest) by {
        assert snaps != [];
      }
      assert h' == LastN(h + [s0], HistoryLimit) && |h'| <= HistoryLimit by {
        SavedWindow(h, s0);
      }
      assert SaveAll(h', rest) == LastN(h' + rest, HistoryLimit) && |SaveAll(h', rest)| <= HistoryLimit by {
        SaveAllWindow(h', rest);
      }
      assert LastN(h' + rest, HistoryLimit) == LastN(h + snaps, HistoryLimit) by {
        LastNAppend(h + [s0], rest, HistoryLimit);
        assert h + [s0] + rest == h + snaps;
      }
    }
  }

  /** The document state the history acts on: the segment list and its snapshots. */
  datatype Doc = Doc(lines: seq<Segment>, history: seq<seq<Segment>>)

  /** `saveHistory` on a document: snapshot the current list. */
  function Save(d: Doc): Doc {
    d.(history := Saved(d.history, d.lines))
  }

  /** `undo`: nothing on an empty history; otherwise restore and drop the newest snapshot. */
  function Undo(d: Doc): Doc {
    if d.history == [] then d
    else Doc(d.history[|d.history| - 1], d.history[..|d.history| - 1])
  }

  /** `handleClear`: save, then empty the list. */
  function Clear(d: Doc): Doc {
    Save(d).(lines := [])
  }

  /**
   * Undo with an empty history changes nothing; otherwise it restores the
   * newest snapshot and removes only that entry, so the history shrinks by one.
   */
  lemma UndoPopsNewest(d: Doc)
    ensures d.history == [] ==> Undo(d) == d
    ensures d.history != [] ==>
      Undo(d).lines == d.history[|d.history| - 1]
      && Undo(d).history + [d.history[|d.history| - 1]] == d.history
  {
  }

  /**
   * An undo right after a save restores the list as it was; when the history
   * was below its bound the whole document is as it was.
   */
  lemma UndoAfterSave(d: Doc)
    ensures Undo(Save(d)).lines == d.lines
    ensures |d.history| < HistoryLimit ==> Undo(Save(d)) == d
  {
    SavedWindow(d.history, d.lines);
  }

  /** An undo after a clear brings the cleared segments back. */
  lemma UndoAfterClear(d: Doc)
    ensures Clear(d).lines == []
    ensures Undo(Clear(d)).lines == d.lines
  {
    SavedWindow(d.history, d.lines);
  }

  /** Saving keeps the history within its bound, whatever state it starts from. */
  lemma SaveBounded(d: Doc)
    ensures |Save(d).history| <= HistoryLimit
    ensures |Clear(d).history| <= HistoryLimit
  {
    SavedWindow(d.history, d.lines);
  }

  /** A saved mutation: snapshot the list, then replace it by `next`. */
  function Edit(d: Doc, next: seq<Segment>): Doc {
    Save(d).(lines := next)
  }

  /** A run of saved mutations, one after another. */
  function EditAll(d: Doc, nexts: seq<seq<Segment>>): Doc
    decreases |nexts|
  {
    if nexts == [] then d else EditAll(Edit(d, nexts[0]), nexts[1..])
  }

  /** `n` undos in a row. */
  function UndoN(d: Doc, n: nat): Doc
    decreases n
  {
    if n == 0 then d else UndoN(Undo(d), n - 1)
  }

  /**
   * After a run of saved mutations the list is the last one's result and the
   * history has seen every list before a mutation, in order.
   */
  lemma {:induction false} EditAllShape(d: Doc, nexts: seq<seq<Segment>>)
    decreases |nexts|
    ensures var all := [d.lines] + nexts;
      EditAll(d, nexts) == Doc(all[|nexts|], SaveAll(d.history, all[..|nexts|]))
  {
    if nexts != [] {
      var all := [d.lines] + nexts;
      var d' := Edit(d, nexts[0]);
      EditAllShape(d', nexts[1..]);
      var all' := [d'.lines] + nexts[1..];
      assert all' == nexts;
      assert all[|nexts|] == all'[|nexts[1..]|];
      assert all[..|nexts|][0] == d.lines;
      assert all[..|nexts|][1..] == all'[..|nexts[1..]|];
    }
  }

  /** `k` undos pop the newest `k` snapshots and restore the oldest of them. */
  lemma {:induction false} UndoNShape(lines: seq<Segment>, h: seq<seq<Segment>>, k: nat)
    requires 1 <= k <= |h|
    decreases k
    ensures UndoN(Doc(lines, h), k) == Doc(h[|h| - k], h[..|h| - k])
  {
    var h' := h[..|h| - 1];
    if k > 1 {
      UndoNShape(h[|h| - 1], h', k - 1);
      assert h'[..|h'| - (k - 1)] == h[..|h| - k];
    }
  }

  /**
   * After more than 50 saved mutations of any starting list, 50 undos give
   * back the list as it was 50 mutations ago, with an empty history: older
   * lists, the starting one included, were evicted, and a further undo does
   * nothing. With 51 mutations that is the list after the first one.
   */
  lemma UndoDepth(start: seq<Segment>, nexts: seq<seq<Segment>>)
    requires |nexts| > HistoryLimit
    ensures var e := UndoN(EditAll(Doc(start, []), nexts), HistoryLimit);
      e == Doc(nexts[|nexts| - HistoryLimit - 1], []) && Undo(e) == e
  {
    var h := nexts[|nexts| - HistoryLimit - 1..|nexts| - 1];
    EditsWindow(start, nexts);
    assert EditAll(Doc(start, []), nexts) == Doc(nexts[|nexts| - 1], h);
    assert UndoN(Doc(nexts[|nexts| - 1], h), HistoryLimit) == Doc(h[0], []) by {
      UndoNShape(nexts[|nexts| - 1], h, HistoryLimit);
      assert h[..0] == [];
    }
  }

  /**
   * After more than 50 saved mutations of a document with an empty history,
   * the history holds the 50 lists that preceded the last mutation.
   */
  lemma EditsWindow(start: seq<Segment>, nexts: seq<seq<Segment>>)
    requires |nexts| > HistoryLimit
    ensures EditAll(Doc(start, []), nexts).lines == nexts[|nexts| - 1]
    ensures EditAll(Doc(start, []), nexts).history == nexts[|nexts| - HistoryLimit - 1..|nexts| - 1]
  {
    EditAllShape(Doc(start, []), nexts);
    SaveAllPrefix(start, nexts);
  }

  /** Saving every list but the last of `[x] + xs` from an empty history. */
  lemma SaveAllPrefix<T>(x: T, xs: seq<T>)
    requires |xs| > HistoryLimit
    ensures SaveAll([], ([x] + xs)[..|xs|]) == xs[|xs| - HistoryLimit - 1..|xs| - 1]
  {
    var snaps := ([x] + xs)[..|xs|];
    assert SaveAll([], snaps) == LastN(snaps, HistoryLimit) by {
      SaveAllWindow([], snaps);
      assert [] + snaps == snaps;
    }
    PrefixWindow(x, xs, HistoryLimit);
  }

  /** The last `m` of `[x] + xs` without its last entry are `xs`'s `m` before its last. */
  lemma PrefixWindow<T>(x: T, xs: seq<T>, m: nat)
    requires m < |xs|
    ensures ([x] + xs)[..|xs|][|xs| - m..] == xs[|xs| - m - 1..|xs| - 1]
  {
    var all := [x] + xs;
    var w := all[..|xs|][|xs| - m..];
    forall k | 0 <= k < m
      ensures w[k] == xs[|xs| - m - 1 + k]
    {
      assert w[k] == all[|xs| - m + k];
    }
  }

  // ---------------------------------------------------------------- deletion

  /** `lines.filter((_, i) => i !== drop)` from index `k` on. */
  function KeepFrom(lines: seq<Segment>, drop: int, k: nat): seq<Segment>
    requires k <= |lines|
    decreases |lines| - k
  {
    if k == |lines| then []
    else (if k != drop then [lines[k]] else []) + KeepFrom(lines, drop, k + 1)
  }

  /** Deleting the segment at `drop` (the keyboard path and the table's delete button). */
  function RemoveAt(lines: seq<Segment>, drop: int): seq<Segment> {
    KeepFrom(lines, drop, 0)
  }

  lemma {:induction false} KeepFromSlices(lines: seq<Segment>, drop: int, k: nat)
    requires k <= |lines|
    decreases |lines| - k
    ensures KeepFrom(lines, drop, k) == if k <= drop < |lines| then lines[k..drop] + lines[drop + 1..] else lines[k..]
  {
    if k < |lines| {
      KeepFromSlices(lines, drop, k + 1);
      if k == drop {
        assert lines[k..drop] == [];
      } else if k < drop < |lines| {
        assert lines[k..drop] == [lines[k]] + lines[k + 1..drop];
      } else {
        assert lines[k..] == [lines[k]] + lines[k + 1..];
      }
    }
  }

  /**
   * Deletion removes exactly the element at the index and keeps all others
   * in order; an index outside the list changes nothing.
   */
  lemma RemoveAtExact(lines: seq<Segment>, drop: int)
    ensures var r := RemoveAt(lines, drop);
      (0 <= drop < |lines| ==>
         r == lines[..drop] + lines[drop + 1..]
         && |r| == |lines| - 1
         && forall k :: 0 <= k < |r| ==> r[k] == if k < drop then lines[k] else lines[k + 1])
      && (!(0 <= drop < |lines|) ==> r == lines)
  {
    KeepFromSlices(lines, drop, 0);
    assert lines[0..] == lines;
  }

  // ---------------------------------------------------------------- field edits

  /** `updateLineThickness`: the map that sets one segment's thickness. */
  function SetThickness(lines: seq<Segment>, idx: int, t: real): (r: seq<Segment>)
    ensures |r| == |lines|
  {
    seq(|lines|, k requires 0 <= k < |lines| => if k == idx then lines[k].(thickness := Some(t)) else lines[k])
  }

  /**
   * A thickness update changes only the thickness field of one index, to the
   * value entered.
   */
  lemma ThicknessOnly(lines: seq<Segment>, idx: int, t: real)
    ensures var r := SetThickness(lines, idx, t);
      (forall k :: 0 <= k < |lines| && k != idx ==> r[k] == lines[k])
      && (0 <= idx < |lines| ==> r[idx].thickness == Some(t) && r[idx].(thickness := lines[idx].thickness) == lines[idx])
  {
  }

  /** A thickness update leaves every joint as it was: connectivity reads only endpoints. */
  lemma ThicknessKeepsJoints(lines: seq<Segment>, idx: int, t: real, self: int, p: Point)
    ensures Connections(SetThickness(lines, idx, t), self, p) == Connections(lines, self, p)
  {
    ConnectedFromSameEnds(SetThickness(lines, idx, t), lines, self, p, 0);
  }

  /** The endpoint a point drag moves. */
  datatype PointKey = P1 | P2

  /** The point-drag map: one endpoint of one segment follows the snapped cursor. */
  function MoveEndpoint(lines: seq<Segment>, idx: int, key: PointKey, p: Point): (r: seq<Segment>)
    ensures |r| == |lines|
  {
    seq(|lines|, k requires 0 <= k < |lines| =>
      if k != idx then lines[k]
      else if key == P1 then lines[k].(x1 := p.x, y1 := p.y)
      else lines[k].(x2 := p.x, y2 := p.y))
  }

  /**
   * A point drag puts the chosen endpoint at the cursor and changes nothing
   * else: not the other endpoint, not the segment's other fields, not the
   * other segments.
   */
  lemma MoveEndpointExact(lines: seq<Segment>, idx: int, key: PointKey, p: Point)
    ensures var r := MoveEndpoint(lines, idx, key, p);
      (forall k :: 0 <= k < |lines| && k != idx ==> r[k] == lines[k])
      && (0 <= idx < |lines| ==>
            (key == P1 ==> r[idx].Start() == p && r[idx].End() == lines[idx].End())
            && (key == P2 ==> r[idx].End() == p && r[idx].Start() == lines[idx].Start())
            && r[idx].thickness == lines[idx].thickness && r[idx].side == lines[idx].side
            && r[idx].leftOverride == lines[idx].leftOverride && r[idx].rightOverride == lines[idx].rightOverride)
  {
  }

  /** Each move places the endpoint afresh: only the latest cursor position counts. */
  lemma MoveEndpointLatest(lines: seq<Segment>, idx: int, key: PointKey, p: Point, q: Point)
    ensures MoveEndpoint(MoveEndpoint(lines, idx, key, p), idx, key, q) == MoveEndpoint(lines, idx, key, q)
  {
  }

  /** `dragOffset`: each coordinate of the grabbed segment relative to the cursor at the grab. */
  datatype DragOffset = DragOffset(dx1: real, dy1: real, dx2: real, dy2: real)

  function OffsetOf(l: Segment, grab: Point): DragOffset {
    DragOffset(l.x1 - grab.x, l.y1 - grab.y, l.x2 - grab.x, l.y2 - grab.y)
  }

  /** The whole-segment drag map: the selected segment placed at cursor plus offset. */
  function DragSegment(lines: seq<Segment>, idx: int, raw: Point, off: DragOffset): (r: seq<Segment>)
    ensures |r| == |lines|
  {
    seq(|lines|, k requires 0 <= k < |lines| =>
      if k == idx then lines[k].(x1 := raw.x + off.dx1, y1 := raw.y + off.dy1, x2 := raw.x + off.dx2, y2 := raw.y + off.dy2)
      else lines[k])
  }

  /** `l` moved rigidly by (dx, dy). */
  function Translate(l: Segment, dx: real, dy: real): Segment {
    l.(x1 := l.x1 + dx, y1 := l.y1 + dy, x2 := l.x2 + dx, y2 := l.y2 + dy)
  }

  /**
   * Dragging a segment grabbed at `grab` to `raw` translates it by the
   * cursor's displacement, so its direction and length are kept, and changes
   * no other segment.
   */
  lemma DragTranslates(lines: seq<Segment>, idx: nat, grab: Point, raw: Point)
    requires idx < |lines|
    ensures var r := DragSegment(lines, idx, raw, OffsetOf(lines[idx], grab));
      r[idx] == Translate(lines[idx], raw.x - grab.x, raw.y - grab.y)
      && r[idx].x2 - r[idx].x1 == lines[idx].x2 - lines[idx].x1
      && r[idx].y2 - r[idx].y1 == lines[idx].y2 - lines[idx].y1
      && forall k :: 0 <= k < |lines| && k != idx ==> r[k] == lines[k]
  {
  }

  /**
   * Successive drag events all measure from the grab: a drag to `p` and then
   * to `q` is the same as a drag straight to `q`.
   */
  lemma DragLatest(lines: seq<Segment>, idx: int, off: DragOffset, p: Point, q: Point)
    ensures DragSegment(DragSegment(lines, idx, p, off), idx, q, off) == DragSegment(lines, idx, q, off)
  {
  }

  // ---------------------------------------------------------------- hit tests

  /** `lines.findIndex` with the test "an endpoint within `limit` of `p`", from index `k` on. */
  function FirstNear(lines: seq<Segment>, p: Point, limit: real, k: nat): (r: Option<nat>)
    requires k <= |lines|
    decreases |lines| - k
    ensures r.None? <==> forall j :: k <= j < |lines| ==> !Touching(lines[j], p, limit)
    ensures r.Some? ==>
              k <= r.value < |lines| && Touching(lines[r.value], p, limit)
              && forall j :: k <= j < r.value ==> !Touching(lines[j], p, limit)
  {
    if k == |lines| then None
    else if Touching(lines[k], p, limit) then Some(k)
    else FirstNear(lines, p, limit, k + 1)
  }

  predicate Touching(l: Segment, p: Point, limit: real) {
    Within(l.Start(), p, limit) || Within(l.End(), p, limit)
  }

  /**
   * The side a drawing gesture inherits: that of the first segment with an
   * endpoint within `SnapDist / zoom` of the click (unset meaning right), or
   * none when there is no such segment.
   */
  function InheritedSide(lines: seq<Segment>, pos: Point, zoom: real): (r: Option<Side>)
    requires zoom > 0.0
    ensures r.None? <==> forall j :: 0 <= j < |lines| ==> !Touching(lines[j], pos, SnapDist / zoom)
    ensures r.Some? ==>
              exists j :: 0 <= j < |lines| && Touching(lines[j], pos, SnapDist / zoom)
                          && r.value == lines[j].side.GetOr(Right)
                          && forall i :: 0 <= i < j ==> !Touching(lines[i], pos, SnapDist / zoom)
  {
    var found := FirstNear(lines, pos, SnapDist / zoom, 0);
    if found.None? then None else Some(lines[found.value].side.GetOr(Right))
  }

  /** Radius of the endpoint pick in point-selection mode. */
  const PointPickRadius: real := 15.0

  /** The endpoint a point selection picks: the start when it is within the radius. */
  function PickedKey(l: Segment, raw: Point): (key: PointKey)
    ensures key == P2 ==> !Within(raw, l.Start(), PointPickRadius)
    ensures Within(raw, l.Start(), PointPickRadius) || Within(raw, l.End(), PointPickRadius) ==>
      Within(raw, if key == P1 then l.Start() else l.End(), PointPickRadius)
  {
    if Within(raw, l.Start(), PointPickRadius) then P1 else P2
  }

  // ---------------------------------------------------------------- length edit

  /** `updateLineLength`'s guard: a missing or non-positive length is ignored. */
  predicate LengthAccepted(newLen: Option<real>) {
    newLen.Some? && newLen.value > 0.0
  }

  /** The typed length is accepted exactly when it parses and is positive. */
  lemma LengthTextAccepted(text: string, unit: Unit, sub: SubUnit)
    ensures LengthAccepted(ParseInputToPx(text, unit, sub)) <==>
      ParseFloat(text).Some? && ParseFloat(text).value > 0.0
  {
  }

  /** `l` re-extended from its start to length `len` along its own direction. */
  function WithLength(l: Segment, len: real, num: Numerics): (r: Segment)
    ensures r.Start() == l.Start()
    ensures r.(x2 := l.x2, y2 := l.y2) == l
  {
    var angle := num.atan2Deg(l.y2 - l.y1, l.x2 - l.x1);
    l.(x2 := l.x1 + len * num.cosDeg(angle), y2 := l.y1 + len * num.sinDeg(angle))
  }

  // ---------------------------------------------------------------- drawing

  /** What the current tool draws. */
  datatype Kind = LineKind | RectKind | PolygonKind

  /** `activeLine`: the gesture in progress, from its anchor to the cursor. */
  datatype Draft = Draft(x1: real, y1: real, x2: real, y2: real, kind: Kind) {
    function Anchor(): Point { Point(x1, y1) }
    function Cursor(): Point { Point(x2, y2) }
  }

  /** A gesture shorter than this is discarded. */
  const MinCommitLength: real := 5.0

  /** `Math.hypot(x2 - x1, y2 - y1) > 5`, exactly. */
  predicate Committable(d: Draft) {
    DistSq(d.Anchor(), d.Cursor()) > MinCommitLength * MinCommitLength
  }

  /** A committed line: the global thickness and the current tool side. */
  function LineSegment(d: Draft, thickness: real, side: Side): Segment {
    Segment(d.x1, d.y1, d.x2, d.y2, Some(thickness), Some(side), None, None)
  }

  function Plain(a: Point, b: Point, thickness: real): Segment {
    Segment(a.x, a.y, b.x, b.y, Some(thickness), None, None, None)
  }

  /** The rectangle with opposite corners at the draft's ends: four sides, clockwise on screen. */
  function RectSegments(d: Draft, thickness: real): seq<Segment> {
    var a := Point(d.x1, d.y1);
    var b := Point(d.x2, d.y1);
    var c := Point(d.x2, d.y2);
    var e := Point(d.x1, d.y2);
    [Plain(a, b, thickness), Plain(b, c, thickness), Plain(c, e, thickness), Plain(e, a, thickness)]
  }

  /**
   * The regular polygon's vertices: `sides` points on the circle whose
   * diameter is the draft, the i-th at `i * 360 / sides` degrees.
   */
  function PolygonVertices(d: Draft, sides: nat, num: Numerics): (r: seq<Point>)
    ensures |r| == sides
  {
    var radius := num.hypot(d.x2 - d.x1, d.y2 - d.y1) / 2.0;
    var cx := (d.x1 + d.x2) / 2.0;
    var cy := (d.y1 + d.y2) / 2.0;
    seq(sides, i requires 0 <= i < sides =>
      Point(cx + radius * num.cosDeg(i as real * (360.0 / sides as real)),
            cy + radius * num.sinDeg(i as real * (360.0 / sides as real))))
  }

  /** Consecutive vertices joined, the last back to the first. */
  function Ring(pts: seq<Point>, thickness: real): (r: seq<Segment>)
    ensures |r| == |pts|
  {
    seq(|pts|, i requires 0 <= i < |pts| => Plain(pts[i], pts[(i + 1) % |pts|], thickness))
  }

  /** The segments a gesture commits. */
  function NewSegments(d: Draft, thickness: real, side: Side, sides: nat, num: Numerics): seq<Segment> {
    match d.kind
    case LineKind => [LineSegment(d, thickness, side)]
    case RectKind => RectSegments(d, thickness)
    case PolygonKind => Ring(PolygonVertices(d, sides, num), thickness)
  }

  /** Committing a gesture: appended when long enough, otherwise the store is untouched. */
  function Commit(lines: seq<Segment>, d: Draft, thickness: real, side: Side, sides: nat, num: Numerics): seq<Segment> {
    if Committable(d) then lines + NewSegments(d, thickness, side, sides, num) else lines
  }

  /**
   * A gesture of length at most 5 leaves the store untouched; a longer one
   * keeps every existing segment in place and appends one segment for a
   * line, four for a rectangle and `sides` for a polygon.
   */
  lemma CommitExact(lines: seq<Segment>, d: Draft, thickness: real, side: Side, sides: nat, num: Numerics)
    ensures var r := Commit(lines, d, thickness, side, sides, num);
      (!Committable(d) ==> r == lines)
      && (Committable(d) ==>
            r[..|lines|] == lines
            && |r| - |lines| == match d.kind case LineKind => 1 case RectKind => 4 case PolygonKind => sides)
  {
    if Committable(d) {
      var r := Commit(lines, d, thickness, side, sides, num);
      assert r[..|lines|] == lines;
    }
  }

  /** Each segment ends where the next one starts, and the last ends where the first starts. */
  predicate ClosedLoop(segs: seq<Segment>) {
    |segs| > 0
    && (forall k :: 0 <= k < |segs| - 1 ==> segs[k].End() == segs[k + 1].Start())
    && segs[|segs| - 1].End() == segs[0].Start()
  }

  /**
   * A committed rectangle is a closed loop of four sides through the corners
   * (x1, y1), (x2, y1), (x2, y2), (x1, y2).
   */
  lemma RectClosed(d: Draft, thickness: real)
    ensures var r := RectSegments(d, thickness);
      ClosedLoop(r) && |r| == 4
      && r[0].Start() == Point(d.x1, d.y1) && r[1].Start() == Point(d.x2, d.y1)
      && r[2].Start() == Point(d.x2, d.y2) && r[3].Start() == Point(d.x1, d.y2)
  {
  }

  /** A polygon ring starts its i-th side at the i-th vertex and closes up. */
  lemma RingClosed(pts: seq<Point>, thickness: real)
    requires |pts| > 0
    ensures var r := Ring(pts, thickness);
      ClosedLoop(r) && forall k :: 0 <= k < |r| ==> r[k].Start() == pts[k]
  {
    var r := Ring(pts, thickness);
    var n := |pts|;
    forall k | 0 <= k < n - 1
      ensures r[k] == Plain(pts[k], pts[k + 1], thickness)
    {
      RingSide(pts, thickness, k);
    }
    RingSide(pts, thickness, n - 1);
    CyclicSides(r, pts, thickness);
  }

  /** The k-th side of a ring runs from the k-th vertex to the next one, cyclically. */
  lemma RingSide(pts: seq<Point>, thickness: real, k: nat)
    requires k < |pts|
    ensures Ring(pts, thickness)[k] == Plain(pts[k], if k + 1 < |pts| then pts[k + 1] else pts[0], thickness)
  {
    var n := |pts|;
    if k + 1 < n {
      assert (k + 1) % n == k + 1;
    } else {
      assert (k + 1) % n == 0;
    }
  }

  /** Sides from each vertex to the next, the last to the first, close up. */
  lemma CyclicSides(r: seq<Segment>, pts: seq<Point>, thickness: real)
    requires |r| == |pts| > 0
    requires forall k :: 0 <= k < |pts| - 1 ==> r[k] == Plain(pts[k], pts[k + 1], thickness)
    requires r[|pts| - 1] == Plain(pts[|pts| - 1], pts[0], thickness)
    ensures ClosedLoop(r) && forall k :: 0 <= k < |r| ==> r[k].Start() == pts[k]
  {
    var n := |pts|;
    forall k | 0 <= k < n
      ensures r[k].Start() == pts[k]
    {
      if k < n - 1 {
        assert r[k] == Plain(pts[k], pts[k + 1], thickness);
      }
    }
    forall k | 0 <= k < n - 1
      ensures r[k].End() == r[k + 1].Start()
    {
      assert r[k] == Plain(pts[k], pts[k + 1], thickness);
    }
  }

  /**
   * The length guard tests only the diagonal: a flat rectangle gesture is
   * committed with two zero-length sides.
   */
  lemma FlatRectangle()
    ensures var d := Draft(0.0, 0.0, 10.0, 0.0, RectKind);
      Committable(d)
      && RectSegments(d, 1.0)[1].Start() == RectSegments(d, 1.0)[1].End()
      && RectSegments(d, 1.0)[3].Start() == RectSegments(d, 1.0)[3].End()
  {
  }

  /** Closing a chain: the committed line ends within 5 of where the chain began. */
  predicate ClosesChain(chainOrigin: Option<Point>, end: Point) {
    chainOrigin.Some? && Within(end, chainOrigin.value, MinCommitLength)
  }
}
