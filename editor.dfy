/**
 * The drawing editor's state and its event handlers: the history buttons
 * (`saveHistory`, `undo`, `handleClear`, `handleUndoClear`), the delete
 * paths, the table edits, and the drawing, selection and drag branches of
 * the mouse handlers. Each handler is specified by the store functions.
 */
module Editing {
  import opened Wrappers
  import opened Geometry
  import opened Snap
  import opened Store

  /** `selectedPoint`: which endpoint of which segment a point drag holds. */
  datatype PointRef = PointRef(idx: nat, key: PointKey)

  class Editor {
    var lines: seq<Segment>
    var history: seq<seq<Segment>>
    var selectedId: Option<int>
    var selectedPoint: Option<PointRef>
    var dragOffset: Option<DragOffset>
    var activeLine: Option<Draft>
    var chainOrigin: Option<Point>
    var toolSide: Side
    var undoClearActive: bool

    /** The history never holds more than 50 snapshots. */
    ghost predicate Valid()
      reads this
    {
      |history| <= HistoryLimit
    }

    /** The document part of the state. */
    function Current(): Doc
      reads this
    {
      Doc(lines, history)
    }

    /** The initial state: nothing drawn, nothing selected, the right tool side. */
    constructor()
      ensures Valid()
      ensures lines == [] && history == [] && selectedId.None? && selectedPoint.None?
      ensures dragOffset.None? && activeLine.None? && chainOrigin.None?
      ensures toolSide == Right && !undoClearActive
    {
      lines := [];
      history := [];
      selectedId := None;
      selectedPoint := None;
      dragOffset := None;
      activeLine := None;
      chainOrigin := None;
      toolSide := Right;
      undoClearActive := false;
    }

    /** `saveHistory`: snapshot the current list, keeping at most 50 snapshots. */
    method SaveHistory()
      requires Valid()
      modifies this
      ensures Valid()
      ensures Current() == Save(old(Current()))
      ensures selectedId == old(selectedId) && selectedPoint == old(selectedPoint) && dragOffset == old(dragOffset)
      ensures activeLine == old(activeLine) && chainOrigin == old(chainOrigin)
      ensures toolSide == old(toolSide) && undoClearActive == old(undoClearActive)
    {
      SavedWindow(history, lines);
      history := LastN(history, HistoryLimit - 1) + [lines];
    }

    /** `undo`: restore the newest snapshot and drop it; nothing when there is none. */
    method Undo()
      requires Valid()
      modifies this
      ensures Valid()
      ensures Current() == Store.Undo(old(Current()))
      ensures selectedId == old(selectedId) && selectedPoint == old(selectedPoint) && dragOffset == old(dragOffset)
      ensures activeLine == old(activeLine) && chainOrigin == old(chainOrigin)
      ensures toolSide == old(toolSide) && undoClearActive == old(undoClearActive)
    {
      if |history| == 0 {
        return;
      }
      var last := history[|history| - 1];
      lines := last;
      history := history[..|history| - 1];
    }

    /** `handleClear`: save, empty the list, drop the selection and the gesture. */
    method Clear()
      requires Valid()
      modifies this
      ensures Valid()
      ensures Current() == Store.Clear(old(Current()))
      ensures selectedId.None? && activeLine.None? && undoClearActive
      ensures selectedPoint == old(selectedPoint) && dragOffset == old(dragOffset)
      ensures chainOrigin == old(chainOrigin) && toolSide == old(toolSide)
    {
      SaveHistory();
      lines := [];
      selectedId := None;
      activeLine := None;
      undoClearActive := true;
    }

    /** `handleUndoClear`: undo, and hide the undo-clear button. */
    method UndoClear()
      requires Valid()
      modifies this
      ensures Valid()
      ensures Current() == Store.Undo(old(Current()))
      ensures !undoClearActive
      ensures selectedId == old(selectedId) && activeLine == old(activeLine) && chainOrigin == old(chainOrigin)
      ensures selectedPoint == old(selectedPoint) && dragOffset == old(dragOffset) && toolSide == old(toolSide)
    {
      Undo();
      undoClearActive := false;
    }

    /** `cancelDrawing`: end the gesture and the chain. */
    method CancelDrawing()
      modifies this
      ensures activeLine.None? && chainOrigin.None?
      ensures lines == old(lines) && history == old(history) && selectedId == old(selectedId)
      ensures selectedPoint == old(selectedPoint) && dragOffset == old(dragOffset)
      ensures toolSide == old(toolSide) && undoClearActive == old(undoClearActive)
    {
      activeLine := None;
      chainOrigin := None;
    }

    /**
     * Backspace or Delete outside a text field: delete the selected segment
     * (saving first), or else cancel the gesture in progress.
     */
    method DeleteKey()
      requires Valid()
      modifies this
      ensures Valid()
      ensures old(selectedId).Some? ==>
        Current() == Save(old(Current())).(lines := RemoveAt(old(lines), old(selectedId).value))
        && selectedId.None? && activeLine.None? && chainOrigin == old(chainOrigin)
      ensures old(selectedId).None? && old(activeLine).Some? ==>
        Current() == old(Current()) && selectedId.None? && activeLine.None? && chainOrigin.None?
      ensures old(selectedId).None? && old(activeLine).None? ==>
        Current() == old(Current()) && selectedId.None? && activeLine == old(activeLine) && chainOrigin == old(chainOrigin)
      ensures selectedPoint == old(selectedPoint) && dragOffset == old(dragOffset)
      ensures toolSide == old(toolSide) && undoClearActive == old(undoClearActive)
    {
      if selectedId.Some? {
        var drop := selectedId.value;
        SaveHistory();
        lines := RemoveAt(lines, drop);
        selectedId := None;
        activeLine := None;
      } else if activeLine.Some? {
        CancelDrawing();
      }
    }

    /** The delete button of row `i` in the cut list. */
    method DeleteRow(i: int)
      requires Valid()
      modifies this
      ensures Valid()
      ensures Current() == Save(old(Current())).(lines := RemoveAt(old(lines), i))
      ensures selectedId.None? && activeLine.None? && chainOrigin == old(chainOrigin) && toolSide == old(toolSide)
      ensures selectedPoint == old(selectedPoint) && dragOffset == old(dragOffset) && undoClearActive == old(undoClearActive)
    {
      SaveHistory();
      lines := RemoveAt(lines, i);
      selectedId := None;
      activeLine := None;
    }

    /** `updateLineThickness`: save, then set one segment's thickness. */
    method UpdateThickness(idx: int, t: real)
      requires Valid()
      modifies this
      ensures Valid()
      ensures Current() == Save(old(Current())).(lines := SetThickness(old(lines), idx, t))
      ensures selectedId == old(selectedId) && activeLine == old(activeLine) && chainOrigin == old(chainOrigin)
      ensures selectedPoint == old(selectedPoint) && dragOffset == old(dragOffset)
      ensures toolSide == old(toolSide) && undoClearActive == old(undoClearActive)
    {
      SaveHistory();
      lines := SetThickness(lines, idx, t);
    }

    /**
     * `updateLineLength`: a missing or non-positive length is ignored without
     * saving; otherwise save and re-extend the segment from its start.
     */
    method UpdateLength(idx: nat, newLen: Option<real>, num: Numerics)
      requires Valid() && idx < |lines|
      modifies this
      ensures Valid()
      ensures !LengthAccepted(newLen) ==> Current() == old(Current())
      ensures LengthAccepted(newLen) ==>
        Current() == Save(old(Current())).(lines := old(lines)[idx := WithLength(old(lines)[idx], newLen.value, num)])
      ensures selectedId == old(selectedId) && activeLine == old(activeLine) && chainOrigin == old(chainOrigin)
      ensures selectedPoint == old(selectedPoint) && dragOffset == old(dragOffset)
      ensures toolSide == old(toolSide) && undoClearActive == old(undoClearActive)
    {
      if newLen.None? || newLen.value <= 0.0 {
        return;
      }
      SaveHistory();
      var l := lines[idx];
      lines := lines[idx := WithLength(l, newLen.value, num)];
    }

    /**
     * A press in a drawing mode. The position is snapped when snapping is on.
     * With a gesture in progress: a gesture longer than 5 is committed after
     * a save, using the global thickness and the tool side this press sees; a
     * committed line continues the chain from its end unless it ends within 5
     * of the chain's origin; anything else ends the gesture. Without one, a
     * gesture of the current kind starts at the position, and a line also
     * starts a chain there. Finally, when snapping is on and the position is
     * near a segment's endpoint, the tool side becomes that segment's side.
     */
    method PressDraw(raw: Point, kind: Kind, snapEnabled: bool, zoom: real, thickness: real, sides: nat, num: Numerics)
      returns (pos: Point)
      requires Valid() && zoom > 0.0
      modifies this
      ensures Valid()
      ensures SnapResult(raw, old(lines), snapEnabled, zoom, pos)
      ensures old(activeLine).None? ==>
        Current() == old(Current())
        && activeLine == Some(Draft(pos.x, pos.y, pos.x, pos.y, kind))
        && chainOrigin == (if kind == LineKind then Some(pos) else old(chainOrigin))
      ensures old(activeLine).Some? ==>
        var d := old(activeLine).value;
        lines == Commit(old(lines), d, thickness, old(toolSide), sides, num)
        && history == (if Committable(d) then Saved(old(history), old(lines)) else old(history))
        && (if Committable(d) && d.kind == LineKind && !ClosesChain(old(chainOrigin), d.Cursor())
            then activeLine == Some(Draft(d.x2, d.y2, d.x2, d.y2, LineKind)) && chainOrigin == old(chainOrigin)
            else activeLine.None? && chainOrigin.None?)
      ensures toolSide == (if snapEnabled then InheritedSide(old(lines), pos, zoom).GetOr(old(toolSide)) else old(toolSide))
      ensures !undoClearActive && selectedId == old(selectedId)
      ensures selectedPoint == old(selectedPoint) && dragOffset == old(dragOffset)
    {
      pos := GetSnappedPos(raw, lines, snapEnabled, zoom);
      var inherited: Option<Side> := None;
      if snapEnabled {
        inherited := InheritedSide(lines, pos, zoom);
      }
      var side := toolSide;
      undoClearActive := false;
      if activeLine.Some? {
        CommitGesture(thickness, side, sides, num);
      } else {
        activeLine := Some(Draft(pos.x, pos.y, pos.x, pos.y, kind));
        if kind == LineKind {
          chainOrigin := Some(pos);
        }
      }
      toolSide := inherited.GetOr(side);
    }

    /**
     * The press that ends a gesture: a gesture longer than 5 is committed
     * after a save; a committed line then continues the chain from its end
     * unless it closes the chain, and every other case ends the gesture.
     */
    method CommitGesture(thickness: real, side: Side, sides: nat, num: Numerics)
      requires Valid() && activeLine.Some?
      modifies this
      ensures Valid()
      ensures var d := old(activeLine).value;
        lines == Commit(old(lines), d, thickness, side, sides, num)
        && history == (if Committable(d) then Saved(old(history), old(lines)) else old(history))
        && (if Committable(d) && d.kind == LineKind && !ClosesChain(old(chainOrigin), d.Cursor())
            then activeLine == Some(Draft(d.x2, d.y2, d.x2, d.y2, LineKind)) && chainOrigin == old(chainOrigin)
            else activeLine.None? && chainOrigin.None?)
      ensures toolSide == old(toolSide) && undoClearActive == old(undoClearActive) && selectedId == old(selectedId)
      ensures selectedPoint == old(selectedPoint) && dragOffset == old(dragOffset)
    {
      var d := activeLine.value;
      if Committable(d) {
        SaveHistory();
        lines := lines + NewSegments(d, thickness, side, sides, num);
        if d.kind == LineKind {
          if ClosesChain(chainOrigin, d.Cursor()) {
            CancelDrawing();
          } else {
            activeLine := Some(Draft(d.x2, d.y2, d.x2, d.y2, LineKind));
          }
          return;
        }
      }
      CancelDrawing();
    }

    /**
     * A press in point-selection mode: the first segment with an endpoint
     * within 15 of the cursor is held by its start when that is within 15,
     * otherwise by its end, after a save; with none, nothing changes.
     */
    method PressSelectPoint(raw: Point)
      requires Valid()
      modifies this
      ensures Valid()
      ensures var hit := FirstNear(old(lines), raw, PointPickRadius, 0);
        (hit.None? ==> Current() == old(Current()) && selectedPoint == old(selectedPoint) && undoClearActive == old(undoClearActive))
        && (hit.Some? ==>
              Current() == Save(old(Current())) && !undoClearActive
              && selectedPoint == Some(PointRef(hit.value, PickedKey(old(lines)[hit.value], raw))))
      ensures selectedId == old(selectedId) && activeLine == old(activeLine) && dragOffset == old(dragOffset)
      ensures chainOrigin == old(chainOrigin) && toolSide == old(toolSide)
    {
      var hit := FirstNear(lines, raw, PointPickRadius, 0);
      if hit.Some? {
        var i := hit.value;
        undoClearActive := false;
        var key := PickedKey(lines[i], raw);
        SaveHistory();
        selectedPoint := Some(PointRef(i, key));
      }
    }

    /**
     * A press in object-selection mode, given the segment the hit test found:
     * select it after a save and record its offset from the cursor; with no
     * hit, clear the selection.
     */
    method PressSelectObject(hit: Option<nat>, raw: Point)
      requires Valid() && (hit.Some? ==> hit.value < |lines|)
      modifies this
      ensures Valid()
      ensures hit.None? ==>
        Current() == old(Current()) && selectedId.None? && dragOffset == old(dragOffset)
        && undoClearActive == old(undoClearActive)
      ensures hit.Some? ==>
        Current() == Save(old(Current())) && !undoClearActive
        && selectedId == Some(hit.value as int) && dragOffset == Some(OffsetOf(old(lines)[hit.value], raw))
      ensures activeLine == old(activeLine) && selectedPoint == old(selectedPoint)
      ensures chainOrigin == old(chainOrigin) && toolSide == old(toolSide)
    {
      if hit.Some? {
        var i := hit.value;
        undoClearActive := false;
        SaveHistory();
        selectedId := Some(i as int);
        dragOffset := Some(OffsetOf(lines[i], raw));
      } else {
        selectedId := None;
      }
    }

    /**
     * The mouse-move handler outside panning: a held endpoint follows the
     * snapped cursor; otherwise a gesture's free end follows it; otherwise, in
     * object-selection mode with a grabbed segment, the segment is placed at
     * the raw cursor plus its offset. The history is never touched.
     */
    method Move(raw: Point, selectMode: bool, snapEnabled: bool, zoom: real) returns (snapped: Point)
      requires Valid() && zoom > 0.0
      modifies this
      ensures Valid()
      ensures SnapResult(raw, old(lines), snapEnabled, zoom, snapped)
      ensures history == old(history) && selectedId == old(selectedId) && selectedPoint == old(selectedPoint)
      ensures dragOffset == old(dragOffset) && chainOrigin == old(chainOrigin) && toolSide == old(toolSide)
      ensures undoClearActive == old(undoClearActive)
      ensures old(selectedPoint).Some? ==>
        lines == MoveEndpoint(old(lines), old(selectedPoint).value.idx, old(selectedPoint).value.key, snapped)
        && activeLine == old(activeLine)
      ensures old(selectedPoint).None? && old(activeLine).Some? ==>
        lines == old(lines) && activeLine == Some(old(activeLine).value.(x2 := snapped.x, y2 := snapped.y))
      ensures old(selectedPoint).None? && old(activeLine).None? ==>
        activeLine == old(activeLine)
        && lines == (if selectMode && selectedId.Some? && dragOffset.Some?
                     then DragSegment(old(lines), selectedId.value, raw, dragOffset.value)
                     else old(lines))
    {
      snapped := GetSnappedPos(raw, lines, snapEnabled, zoom);
      if selectedPoint.Some? {
        lines := MoveEndpoint(lines, selectedPoint.value.idx, selectedPoint.value.key, snapped);
        return;
      }
      if activeLine.Some? {
        activeLine := Some(activeLine.value.(x2 := snapped.x, y2 := snapped.y));
      } else if selectMode && selectedId.Some? && dragOffset.Some? {
        lines := DragSegment(lines, selectedId.value, raw, dragOffset.value);
      }
    }

    /** `handleMouseUp`: let go of any held segment or endpoint. */
    method Release()
      modifies this
      ensures dragOffset.None? && selectedPoint.None?
      ensures lines == old(lines) && history == old(history) && selectedId == old(selectedId)
      ensures activeLine == old(activeLine) && chainOrigin == old(chainOrigin) && toolSide == old(toolSide)
      ensures undoClearActive == old(undoClearActive)
    {
      dragOffset := None;
      selectedPoint := None;
    }
  }
}
