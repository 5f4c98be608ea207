# Canvas polyline drawing: snapping geometry and session state

This project models the core of a small canvas drawing app (`src/App.js`).
The user moves the pointer and clicks to lay down line segments. Escape
commits the open segments as one polyline. While the pointer moves it may
snap onto a nearby segment that was drawn earlier.

The model has three modules:

- `Geometry` (`geometry.dfy`) covers `sqr`, `dist2` and `distToSegment`
  over exact reals. It computes the closest point of a segment, with the
  projection parameter clamped to [0, 1]. A zero-length segment yields a
  bare number instead of a `{distance, x, y}` record. This is kept as the
  `Number` case of `Measure`.
- `Snapping` (`snapping.dfy`) covers what a mouse move computes. It builds
  the candidate segments (every segment of every committed polyline, then
  every open segment except the most recent one) and measures each against
  the raw pointer. It keeps those closer than 30 units and picks the one
  that comes first after sorting by distance in descending order.
  `SnapTarget` is the specification of where the pointer ends up.
- `Session` (`session.dfy`) holds the class `DrawingSession`. Its four
  fields are `currentMousePosition`, `linePoints`, `positions` and
  `polylines`. Its three handlers are `HandleClick`, `HandleMouseMove` and
  `HandleKeyDown`, and each is one atomic transition on that state.
  `HandleMouseMove` builds the candidate list with a loop, as the source's
  `forEach`/`push` does. Its postcondition ties the new pointer to
  `SnapTarget`. `Valid()` is the session invariant. It requires at most
  one anchor and exactly two points in every stored segment. The open
  segments, and the segments of each polyline, must chain, each starting
  where the previous one ends. While there are open segments, the anchor
  must be the end of the most recent one. Every handler preserves it.

The pointer starts as the empty object `{}`. That is `None` of
`Option<Point>`. A click before any mouse move stores that empty pointer
as an anchor, and a segment can then hold an absent endpoint. Measuring
such a segment produces NaN in the source, and NaN never passes the
`< 30` filter. The model makes that measurement `None`, which never
qualifies either.

The model follows the code as written. One of its choices runs against the
code's own comments, which speak of the "nearest" (src/App.js:137) and the
"closest" (src/App.js:153) candidate:

- The snap winner is the qualifying candidate with the *largest* distance,
  because the sort is descending (`b.distance - a.distance`).
  `Snapping.SnapFarthest` states this.

The model also keeps these behaviours of the code as written:

- A second click re-anchors at the new endpoint
  (`setLinePoints([currentMousePosition])`), so consecutive open segments
  chain. `Valid()` states the chaining as an invariant that every handler
  preserves.
- The most recent open segment is never a snap candidate
  (`positions.slice(0, -1)`).
- Escape appends `positions` as a new polyline even when it is empty.
- A click before any mouse move anchors the empty pointer.

## Model

| member | source | states |
|---|---|---|
| `Geometry.Sqr` | src/App.js:9-11 | the square is non-negative and is zero exactly when its argument is zero |
| `Geometry.Dist2` | src/App.js:13-15 | the squared distance is non-negative and is zero exactly when the two points coincide |
| `Geometry.Dist2Symmetric` | src/App.js:13-15 | the squared distance does not depend on the order of the two points |
| `Geometry.DistToSegment` | src/App.js:17-33 | a bare number comes back exactly for a zero-length segment, and it is the squared distance to that point; otherwise the record's point lies on the closed segment and its distance field is the (squared) distance from p to that point |
| `Geometry.ClampedEnds` | src/App.js:23-27 | the projected point is v when the raw parameter is at most 0, w when it is at least 1, and the foot of the perpendicular in between |
| `Geometry.ClosestOnSegment` | src/App.js:23-32 | no point of the closed segment is nearer to p than the returned point |
| `Geometry.ZeroDistanceIffOnSegment` | src/App.js:23-32 | the returned distance is zero exactly when p itself lies on the segment |
| `Geometry.ProjectionExample` | src/App.js:17-33 | the point (5, 5) measured against the segment from (0, 0) to (10, 0) yields the record with point (5, 0) and squared distance 25 |
| `Snapping.QualifyingLine` | src/App.js:141-150 | a candidate passes the `< 30` filter only if both endpoints are present and distinct; its snap point then lies on that segment, within 30 of the raw position |
| `Snapping.DegenerateNeverQualifies` | src/App.js:141-150 | a segment whose two endpoint values are equal never passes the filter: two equal present points form a zero-length segment that spreads no distance field, and two absent points give a NaN distance |
| `Snapping.Flatten` | src/App.js:131 | a line is in the flattened list exactly when it belongs to one of the polylines |
| `Snapping.PastPositionsMembers` | src/App.js:130-133 | the candidates are exactly the segments of the committed polylines and the open segments other than the last |
| `Snapping.SnapIgnoresLastOpen` | src/App.js:130-133 | replacing the most recent open segment never changes where the pointer snaps |
| `Snapping.ShortDistances` | src/App.js:148-150 | the filter keeps exactly the candidates whose distance is below 30, and never more than it was given |
| `Snapping.FarthestIndex` | src/App.js:153-158 | the first candidate after the descending sort has the largest distance of all, and every candidate before it in the original order is strictly nearer |
| `Snapping.SnapUnqualified` | src/App.js:160-162 | when no candidate is within 30, the pointer takes the raw position |
| `Snapping.SnapFarthest` | src/App.js:153-159 | when some candidate is within 30, the pointer goes to the projection of a qualifying candidate whose distance is the largest among all qualifying ones |
| `Snapping.SnapWithinReach` | src/App.js:148-159 | wherever the pointer ends up, it is within 30 of the raw position |
| `Session.DrawingSession.constructor` | src/App.js:37-46 | a new session has no pointer, no anchor, no open segments and no polylines, and is valid |
| `Session.DrawingSession.HandleClick` | src/App.js:107-122 | with one anchor, the segment [anchor, pointer] is appended to the open segments and the pointer becomes the sole anchor; otherwise the pointer is appended to the anchor and no segment is added; the pointer and polylines never change, and validity is kept, so the new segment starts where the previous open segment ended |
| `Session.DrawingSession.HandleKeyDown` | src/App.js:57-66 | key code 27 appends the open segments (even none) as one new trailing polyline and empties the open segments and the anchor; any other key changes nothing; the pointer never changes |
| `Session.DrawingSession.HandleMouseMove` | src/App.js:124-164 | the pointer becomes `SnapTarget` of the raw position against the current polylines and open segments; anchor, open segments and polylines are unchanged |

## Left out

- Geometry.DistToSegment: the record's `distance` field holds the squared distance, because `Math.sqrt` is not modelled. The square root is monotone on non-negative numbers, so the `< 30` filter becomes `< 900` and the descending sort keeps the same order.
- IEEE-754 floating point: coordinates are exact reals. Rounding, infinities and NaN are not modelled. The one place NaN matters, a segment with an absent endpoint, is modelled as a measurement that never qualifies.
- Snapping.FarthestIndex: the in-place `sort` is modelled only through its first element, which is all the handler reads. Among equal distances the earliest candidate of the filtered list is taken, which is the element a stable sort puts first.
- Snapping.ShortDistances, Snapping.Flatten: the contracts state membership, not order. That the filtered list keeps the candidates' original order is not proved, so the tie-break among equal distances is not carried up to `SnapTarget`; `SnapFarthest` promises only some candidate of maximal distance.
- The animation-frame draw loop (src/App.js:70-105): clearing the canvas, stroking every committed and open segment and the preview line. These are foreign canvas calls. The same goes for the preview's truthiness test, which treats a 0 coordinate as absent.
- React wiring: `useState`, `useCallback`, `useEventListener`, batched or asynchronous state updates, JSX, the canvas element, the window size and the `console.log` debug button (src/App.js:166-184). Each handler is modelled as one atomic transition on a snapshot of the state.
- Event objects: a mouse move is given as its `clientX`/`clientY` values, and a key press as its `keyCode`.
