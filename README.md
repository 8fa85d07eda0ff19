# Miter Cruncher: a verified model of the frame editor's core

Miter Cruncher is a browser sketch pad for wooden frames. The user draws
boards as straight segments: single lines that chain end to end, rectangles,
or regular polygons. For every joint where two boards meet, the application
reports the angle a woodworker must set on a miter saw. The angle depends on
both boards' thicknesses and on the angle between them. Every board is also
drawn as a strip of material whose ends are cut along the joint's bisector.

This project models in Dafny the part of `src/App.jsx` that holds that logic:

- **Segment store** (`Geometry`, `Store`): the ordered list of segments
  `{x1, y1, x2, y2, thickness?, side?, miterOverrides?}` and every edit of it.
  The edits are: deleting by index, setting a thickness, re-extending to a
  typed length, dragging one endpoint, dragging a whole segment, and
  committing a drawn line, rectangle or polygon.
- **History** (`Store`, `Editing`): the bounded undo stack of snapshots,
  with save, undo, clear and undo-clear.
- **Snap resolver** (`Snap`, `getSnappedPos`): moves the cursor to the grid
  point or to an existing endpoint near it.
- **Connectivity and miter calculator** (`Miter`, `calculateAngles` /
  `getMiterData`): finds the neighbour at each end of a segment and computes
  the saw setting, the signed bisector angle and the readout direction.
- **Angle normalisation** (`Angles`): `normalizeAngle`, and the two `while`
  loops that fold an angle difference into [-180, 180].
- **Board outline** (`Board`, `getBoardPoints`): the four corners of a board
  in its local frame. From there they are either recentred for the cut-list
  thumbnail or placed in world space.
- **Unit conversions** (`Units`): conversions between logical units (20 per
  centimetre) and centimetres, millimetres or inches, plus the `parseFloat`
  behind the length input.
- **Editor state** (`Editing.Editor`): a class whose fields are the
  component's state (`lines`, `history`, `selectedId`, `selectedPoint`,
  `dragOffset`, `activeLine`, `chainOrigin`, `toolSide`,
  `isUndoClearActive`). Its methods are the event handlers that change that
  state. Each method is specified by the `Store` functions, and the class
  keeps the history at 50 entries or fewer.

How numbers are modelled:

- All numbers are exact reals.
- A distance test `Math.hypot(dx, dy) < c` is modelled exactly as
  `c > 0 && dx*dx + dy*dy < c*c` (`Geometry.Within`).
- `Math.round(x)` is `Floor(x + 1/2)`.
- `toFixed(p)` as a value rounds half away from zero at `p` decimals
  (`Geometry.ToFixedValue`).
- `t || fallback` on a thickness falls back when the thickness is missing
  or zero (`Geometry.EffectiveThickness`), so a thickness of 0 behaves as no
  thickness (`Miter.ZeroThicknessMiter`, `Board.ZeroThicknessBoard`).
- Transcendental values are fields of an opaque `Geometry.Numerics` record of
  total functions, with angles in degrees: `atan2`, the bisector-miter law,
  `y / tan`, `cos`, `sin`, and `hypot` used as a value. The model fixes only
  the control flow around these values.
- A history snapshot is the list itself: `JSON.stringify` followed by
  `JSON.parse` is taken as the identity on segment lists.

Behaviours of the code that a reader might not expect, each stated and
proved in the model:

- **The grid hit does not lower the snap bound.** So any endpoint within
  the pick radius replaces the grid point, even one farther away than it
  (`Snap.EndpointBeatsCloserGrid`).
- **The snap resolver is not idempotent** (`Snap.SnapNotIdempotent`).
- **An open end stores a saw setting of 0 and a bisector angle of 90.** Its
  label reads "90.0°" (`Miter.OpenEnd`), and the outline cuts it square
  (`Board.OpenEndSquare`).
- **The outline's square-cut guard tests the saw setting** `miter.angle`,
  not the bisector angle (`Board.Shift`).
- **Rectangles can have zero-length sides.** The minimum-length test looks
  only at the gesture's diagonal, so a flat rectangle commits two sides of
  length zero (`Store.FlatRectangle`).
- **History is saved when a selection starts, not when a drag ends.** The
  point and object selection presses save before any drag happens, and the
  drag events themselves never save (`Editing.Editor.PressSelectPoint`,
  `Editing.Editor.PressSelectObject`, `Editing.Editor.Move`).

## Model

| member | source | states |
|---|---|---|
| Geometry.ToFixedValue | src/App.jsx:259 | `parseFloat(x.toFixed(p))` keeps the sign of `x` and its magnitude, scaled by 10^p, is within one half of the scaled magnitude of `x`, halves going up |
| Geometry.ToFixedWhole | src/App.jsx:259 | the rounded saw setting is a whole number of units of 10^-p |
| Geometry.ToFixedError | src/App.jsx:259 | rounding moves the saw setting by at most half a unit of 10^-p |
| Geometry.ToFixedSymmetric | src/App.jsx:259 | a value and its negation round to opposite results: halves round away from zero on both sides |
| Geometry.JsRound | src/App.jsx:258 | `Math.round` lands within one half of its argument, halves rounding up |
| Units.ParseInputToPx | src/App.jsx:157-164 | the result is null exactly when `parseFloat` finds no number; otherwise it is a length that displays as the number typed, and it is positive exactly when that number is |
| Units.PxToDisplay | src/App.jsx:166-170 | converting the displayed value back to logical units returns the length it came from, for every unit |
| Units.DisplayToPx | src/App.jsx:157-164 | the conversion preserves the sign: the length is positive exactly when the typed number is |
| Units.DisplayRoundTrip | src/App.jsx:157-170 | `pxToDisplay` inverts the scaling of `parseInputToPx`: the value typed is the value displayed |
| Units.DisplayToVal | src/App.jsx:177-180 | `valToDisplay` of the millimetres obtained gives back the displayed thickness |
| Units.ThicknessRoundTrip | src/App.jsx:172-180 | `displayToVal` inverts `valToDisplay` in every unit |
| Units.ParseFloatNeedsDigit | src/App.jsx:158-159 | a text without any decimal digit is not a number, so the input is rejected |
| Units.ParseFloatDigits | src/App.jsx:158 | a non-empty run of digits parses to its decimal value |
| Angles.Trunc | src/App.jsx:215 | the integer part truncates towards zero, from either side |
| Angles.Rem360 | src/App.jsx:215 | JavaScript's `%` by 360: the result has the sign of the dividend, its magnitude is below 360, and it differs from the dividend by a whole number of turns |
| Angles.NormalizeAngle | src/App.jsx:214-219 | the result lies in (-180, 180] and differs from the input by a whole number of turns |
| Angles.WrapDown | src/App.jsx:238 | the first loop ends at or below 180; an input already at or below 180 is unchanged; a larger one ends above -180; the result differs by whole turns |
| Angles.WrapUp | src/App.jsx:238 | the second loop ends at or above -180, leaves such inputs unchanged, ends below 180 for smaller ones, and changes only by whole turns |
| Angles.WrapRange | src/App.jsx:237-238 | the pair of loops yields a value in [-180, 180] congruent to the input modulo 360, and leaves an input already in range unchanged |
| Angles.WrapDiff | src/App.jsx:238 | the two `while` loops compute `Wrap` of the initial difference |
| Snap.GridPoint | src/App.jsx:195-196 | both coordinates of the grid candidate are multiples of 20 and lie within 10 of the cursor's |
| Snap.Endpoints | src/App.jsx:198-203 | the endpoints are visited as start then end of each segment in store order |
| Snap.GetSnappedPos | src/App.jsx:191-205 | the result satisfies `SnapResult`: with snapping off the input comes back unchanged. With it on the result is the input, the grid point or an endpoint. With no endpoint inside `10 / zoom`, the result is the grid point if that is inside the radius and the input otherwise. With one inside, the result is the first closest endpoint, and it is inside the radius |
| Snap.SnapResultUnique | src/App.jsx:191-205 | at most one point satisfies `SnapResult`, so the snapped position is determined by the cursor, the segments, the switch and the zoom |
| Snap.EndpointBeatsCloserGrid | src/App.jsx:196-203 | an input whose grid point is within the radius and closer than an endpoint within the radius snaps to that endpoint |
| Snap.SnapNotIdempotent | src/App.jsx:191-205 | an input whose snapped point snaps again to a different point |
| Miter.ConnectedFrom | src/App.jsx:223 | the connections are the other segments with an endpoint closer than 2 to the joint: none is the segment itself, they are in increasing store order, and none is missed |
| Miter.FirstConnection | src/App.jsx:223-229 | there is no connection exactly when no other segment touches the joint; the one used is the lowest-indexed other segment that touches it |
| Miter.GetMiterData | src/App.jsx:222-269 | the step-by-step computation, with its loops and its reassignment on override, equals the `Miter` function |
| Miter.CalculateAngles | src/App.jsx:221-271 | the 'left' result is the start end's and the 'right' result is the end end's |
| Miter.OpenEnd | src/App.jsx:227 | an end no other segment touches gets the label "90.0°", a saw angle of 0 and a bisector angle of 90, whatever the thicknesses |
| Miter.LoneSegment | src/App.jsx:223-227 | a segment alone in the store is open at both ends |
| Miter.BisectSign | src/App.jsx:237-261 | at a connected end the difference lies in [-180, 180]; the bisector angle has the miter angle's magnitude and is positive exactly when the difference is, for a positive miter angle, and exactly when it is not, for a negative one |
| Miter.OverrideSetsSaw | src/App.jsx:245-259 | an override replaces the end's saw setting, rounded by the precision, and fixes the bisector magnitude at 90 - override whatever the thicknesses; without one the setting is the rounded deviation from square |
| Miter.ConnectedFromSameEnds | src/App.jsx:223 | connectivity reads only the endpoints |
| Miter.OverrideKeepsOtherEnd | src/App.jsx:245-246 | changing the override of one end of a segment leaves its other end's result unchanged |
| Miter.SameEndMiter | src/App.jsx:224-268 | an end's result reads only the segment's geometry, its effective thickness (the logical-or fallback) and that end's override |
| Miter.OverrideKeepsNeighbours | src/App.jsx:241-254 | changing a segment's overrides leaves every end of every other segment unchanged, the neighbour at the shared joint included |
| Miter.SameNeighbourMiter | src/App.jsx:233-242 | the neighbour contributes only its geometry and its effective thickness |
| Miter.ZeroThicknessMiter | src/App.jsx:241-242 | the logical-or fallback on thickness treats 0 as unset: giving a segment thickness 0 or none yields the same result at every end of every segment, its neighbours included |
| Board.StripThickness | src/App.jsx:276 | `tPx` equals the effective thickness |
| Board.SeqMin | src/App.jsx:299 | `Math.min` of the list is one of its elements and no element is smaller |
| Board.SeqMax | src/App.jsx:299 | `Math.max` of the list is one of its elements and no element is larger |
| Board.BoardPoints | src/App.jsx:273-303 | the outline has four corners |
| Board.StripExtent | src/App.jsx:276-296 | the first two corners lie on one edge and the last two on the other; the strip spans [0, tPx] on the right or unset side and [-tPx, 0] on the left, with tPx the effective thickness |
| Board.SquareEndNoShift | src/App.jsx:285-289 | an end whose saw setting is within 0.01 of 0 is not sheared at any height |
| Board.SquareEndsRectangle | src/App.jsx:285-296 | with both ends square the outline is the rectangle from 0 to the segment's length between the strip's edges |
| Board.OpenEndSquare | src/App.jsx:285-288 | an unconnected end, whose result stores a saw angle of 0, gets no shift at any height, so it is cut square in the outline |
| Board.ExtremaTranslate | src/App.jsx:299-300 | moving all corners by an offset moves their minimum and maximum x by it |
| Board.ProfileCentred | src/App.jsx:298-300 | profile mode moves every corner by one offset, puts the midpoint of the x-extent at 50 and the midpoint of the strip at y = 0 |
| Board.ZeroThicknessBoard | src/App.jsx:276 | a segment of thickness 0 is drawn exactly like one with no thickness: the same strip with the same end cuts |
| Board.ReferenceEdgeAtStart | src/App.jsx:281-302 | on the right or unset side with a square start cut, the first world corner is the segment's start point |
| Store.LastN | src/App.jsx:63 | `slice(-n)` for n ≥ 1 (the code uses 49) keeps the last n entries, or all of them when there are fewer |
| Store.SavedWindow | src/App.jsx:62-64 | after a save the history has 1 to 50 entries, the newest is the snapshot just taken, the older ones are the most recent 49 from before, and the whole is the last 50 of the unbounded history |
| Store.LastNAppend | src/App.jsx:63 | taking the last n before appending and again after is the same as taking them once after |
| Store.SaveAllWindow | src/App.jsx:62-64 | after any number of saves the history is the last 50 snapshots taken, oldest evicted first, and never exceeds 50 |
| Store.UndoPopsNewest | src/App.jsx:66-71 | undo does nothing on an empty history; otherwise it restores the newest snapshot and removes only that entry |
| Store.UndoAfterSave | src/App.jsx:62-71 | an undo right after a save restores the segment list, and the whole document when the history was below its bound |
| Store.UndoAfterClear | src/App.jsx:73-87 | clearing empties the list and the next undo brings it back |
| Store.SaveBounded | src/App.jsx:62-75 | a save or a clear leaves at most 50 snapshots, from any state |
| Store.EditAllShape | src/App.jsx:62-64 | after a run of saved mutations the list is the last result and the history is the save window over every list before a mutation |
| Store.UndoNShape | src/App.jsx:66-71 | k undos restore the k-th newest snapshot and drop the k newest entries |
| Store.UndoDepth | src/App.jsx:62-71 | after more than 50 saved mutations, 50 undos restore the list from 50 mutations back with an empty history, and a further undo changes nothing: the starting list was evicted |
| Store.KeepFromSlices | src/App.jsx:98 | the index filter from position k on equals the slice of the list without the dropped index |
| Store.RemoveAtExact | src/App.jsx:98 | deletion removes exactly the element at the index and keeps all others in order; an index outside the list changes nothing |
| Store.ThicknessOnly | src/App.jsx:450-453 | a thickness update changes only the thickness field of the one index, to the value entered |
| Store.ThicknessKeepsJoints | src/App.jsx:452 | a thickness update leaves every joint's connections as they were |
| Store.MoveEndpointExact | src/App.jsx:384-390 | a point drag puts the chosen endpoint at the cursor and changes no other endpoint, field or segment |
| Store.MoveEndpointLatest | src/App.jsx:386-389 | each move places the endpoint afresh: only the latest cursor position counts |
| Store.DragTranslates | src/App.jsx:394-396 | dragging a segment grabbed at one cursor position to another translates it by the cursor's displacement, keeping its direction and length, and changes no other segment |
| Store.DragLatest | src/App.jsx:394-396 | every drag event measures from the grab, so a drag through p to q equals a drag straight to q |
| Store.FirstNear | src/App.jsx:314-326 | `findIndex` over "an endpoint within the limit": none exactly when no segment qualifies, otherwise the first that does |
| Store.InheritedSide | src/App.jsx:311-321 | the side inherited is that of the first segment with an endpoint within `10 / zoom` of the press, unset meaning right; there is none exactly when no segment is that near |
| Store.PickedKey | src/App.jsx:331 | the end endpoint is picked only when the start is not within 15, and whenever either endpoint is within 15 the one picked is |
| Store.LengthTextAccepted | src/App.jsx:440 | a typed length is applied exactly when it parses as a number and that number is positive |
| Store.WithLength | src/App.jsx:443-445 | re-extending keeps the start point and every field other than the end point |
| Store.PolygonVertices | src/App.jsx:362-364 | a polygon has `sides` vertices |
| Store.Ring | src/App.jsx:365 | the polygon commits one side per vertex |
| Store.CommitExact | src/App.jsx:347-369 | a gesture no longer than 5 leaves the store untouched; a longer one keeps the existing segments and appends one segment for a line, four for a rectangle and `sides` for a polygon |
| Store.RectClosed | src/App.jsx:360-361 | a committed rectangle is a closed loop of four sides whose starts are the corners (x1, y1), (x2, y1), (x2, y2), (x1, y2) |
| Store.RingSide | src/App.jsx:365 | the k-th polygon side runs from the k-th vertex to the next one, cyclically |
| Store.CyclicSides | src/App.jsx:365 | sides from each vertex to the next, the last one to the first, close up |
| Store.RingClosed | src/App.jsx:362-366 | a committed polygon is a closed loop whose k-th side starts at the k-th vertex |
| Store.FlatRectangle | src/App.jsx:349-361 | a flat rectangle gesture passes the length test and commits two sides of length zero, the second and the fourth |
| Editing.Editor.constructor | src/App.jsx:24-45 | the initial state: no segments, empty history, nothing selected or in progress, right tool side |
| Editing.Editor.SaveHistory | src/App.jsx:62-64 | the document becomes `Save` of the old one; nothing else changes; the bound of 50 is kept |
| Editing.Editor.Undo | src/App.jsx:66-71 | the document becomes `Undo` of the old one; nothing else changes |
| Editing.Editor.Clear | src/App.jsx:73-82 | the document becomes `Clear` of the old one; selection and gesture are dropped and the undo-clear button shows |
| Editing.Editor.UndoClear | src/App.jsx:84-87 | an undo, and the undo-clear button is hidden |
| Editing.Editor.CancelDrawing | src/App.jsx:111 | the gesture and the chain end; nothing else changes |
| Editing.Editor.DeleteKey | src/App.jsx:95-104 | with a selection: save, delete that index, drop selection and gesture; otherwise a gesture in progress is cancelled; otherwise nothing changes |
| Editing.Editor.DeleteRow | src/App.jsx:757-764 | save, delete the row's index, and drop selection and gesture |
| Editing.Editor.UpdateThickness | src/App.jsx:450-453 | save, then set the one thickness |
| Editing.Editor.UpdateLength | src/App.jsx:439-447 | a missing or non-positive length changes nothing and saves nothing; otherwise save and re-extend the segment from its start |
| Editing.Editor.CommitGesture | src/App.jsx:347-369 | the gesture in progress is committed: the list grows by the shapes `Commit` adds and the history gains the old list only when the gesture is long enough; a committed line continues the chain from its end unless it returns to the chain origin, and every other case ends the gesture; the tool side and the selection are untouched |
| Editing.Editor.PressDraw | src/App.jsx:305-375 | the press position is the `SnapResult` of the raw cursor over the segments before the press. A gesture in progress is committed by `Commit` with the old tool side, saving only when it commits, and then the chain continues, closes or ends. Otherwise a gesture, and for a line a chain, starts at the position. The tool side becomes the inherited one |
| Editing.Editor.PressSelectPoint | src/App.jsx:325-335 | the first segment with an endpoint within 15 is held by the picked endpoint after a save; with none, nothing changes |
| Editing.Editor.PressSelectObject | src/App.jsx:337-344 | a hit is selected after a save and its offset from the cursor recorded; no hit clears the selection |
| Editing.Editor.Move | src/App.jsx:378-397 | the returned position is the `SnapResult` of the raw cursor over the segments before the move; a held endpoint goes to it; otherwise a gesture's free end follows it; otherwise a grabbed segment follows the raw cursor by its offset; the history is untouched |
| Editing.Editor.Release | src/App.jsx:399 | the held segment and endpoint are released; nothing else changes |

## Left out

- Transcendental values are opaque functions (`Geometry.Numerics`), not
  computed. Left out with them are the values of `atan2`, `sin`, `cos`,
  `tan` and `hypot`, the miter law itself, the world rotation, and the
  positions of polygon vertices and re-extended endpoints. Dafny has no
  trigonometry on exact reals.
- Floating-point effects: every number is an exact real, so rounding
  errors, `NaN` and `Infinity` are not modelled. Examples are
  `Number('1e999')` (Infinity) in the thickness input, and a zero tangent
  in the outline's shear.
- The side count is a natural number in the model (`sides: nat`). The
  side-count input accepts any number of at least 3, and a fractional one
  such as 3.5 makes the polygon loop read a vertex that the vertex array
  does not have; that case is not modelled.
- Radians are replaced by degrees throughout, because the conversion by
  pi/180 only rescales the opaque values.
- `Units.ParseFloat` covers decimal literals with sign, fraction and
  exponent. It does not cover `parseFloat`'s `Infinity` spelling or
  Unicode white space beyond space, tab, newline and carriage return.
- Label strings: the `toFixed` text of a readout is kept as its value and
  digit count (`Miter.Label`). `formatLen` and the other display strings
  are string formatting of floats.
- Rendering and UI chrome are not modelled: SVG drawing, rulers, the
  cursor, hover point, side-count popup, saw and gauge previews,
  `handleAngleSelection`, warnings, modals and the resize observer.
- `handleClear` also resets the saw and gauge readouts and the active
  readout key. Those readouts belong to the rendering, not the document.
- `getMousePos` (the SVG screen-to-logical mapping) is left out; the
  handlers take logical positions.
- Panning and zooming are left out. The zoom value is a parameter, always
  positive as the zoom buttons keep it in [0.2, 4].
- Keyboard plumbing is left out: listener registration, the typing guard
  and the key test. `Editing.Editor.DeleteKey` is the Backspace/Delete
  branch.
- `distToSegment`, the object hit test, is left out. It sits outside the
  modelled core, so `Editing.Editor.PressSelectObject` receives its result.
- React's deferred state updates are modelled only where they change the
  outcome: a press commits with the tool side it sees, and the inherited
  side takes effect afterwards.
- The `activeLine` record's `thickness` and `side` fields are left out, as
  nothing reads them when committing. A commit uses the global thickness
  and the tool side.
- The cut-list table's inside and outside lengths are display values, not
  modelled.
- `src/components/FeedbackModal.jsx`, `src/components/KeepMeInformedModal.jsx`,
  `api/feedback.js` and `api/subscribe.js` are form UI and HTTP handlers
  around a database this model does not contain.
- Snap.GetSnappedPos: idempotence is not claimed, because the code does not
  have it (`Snap.SnapNotIdempotent`).
