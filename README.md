# Rounded rectangle on a 2D canvas

`strokeRoundedRect(ctx, x, y, w, h, r)` (src/canvas.ts) outlines a rectangle whose corners are rounded, in the way `strokeRect` outlines a plain one. The rectangle has top-left corner (x, y), width w, height h and corner radius r. The routine calls `beginPath()` and then `moveTo()` to the start of the top edge. It then makes four `lineTo()`/`arc()` pairs: each draws one edge and the quarter arc that rounds the next corner. Last, it calls `stroke()`.

The project has three modules:

- `Geometry` (geometry.dfy): points with exact real coordinates. Angles are integer quarter turns, so k stands for k·π/2 and its cosine and sine are exactly -1, 0 or 1.
- `Canvas` (canvas.dfy): the part of `CanvasRenderingContext2D` the routine uses. The semantics follow the "Building paths" section of the WHATWG HTML Living Standard. `Surface` is a class with three fields:
  - `calls`: the log of calls made on the context;
  - `path`: the current default path, a list of subpaths made of lines and arcs;
  - `strokes`: the paths rendered so far.

  It has one method per canvas call. Each method's contract states the new path as a function of the old one (`PathAfterMoveTo`, `PathAfterLineTo`, `PathAfterArc`).
- `RoundedRect` (rounded_rect.dfy): the routine as a method on a `Surface`, plus the properties of the contour it strokes.

The default arc direction is the standard's (`anticlockwise` = false). In that direction the angle increases, which is clockwise on a screen whose y axis points down (under the identity transform). Every arc of the routine therefore sweeps one quarter turn. The arc from -π/2 to 0 is one example; the four arcs together turn once round a circle.

The routine does not check r. The standard's `arc()` throws an `IndexSizeError` for a negative radius, so with r < 0 the first `arc()` throws and the exception leaves the routine. At that point the context has received four calls, its path holds the top edge only, and nothing is stroked. The model returns this as `Outcome.ThrewIndexSizeError`. An r that is not negative but is larger than min(w, h)/2 raises no error: the contour is still built and stroked. Only the lemmas that need 0 ≤ 2r ≤ min(w, h) take it as a hypothesis.

## Model

| member | source | states |
|---|---|---|
| RoundedRect.StrokeRoundedRect | src/canvas.ts:2-19 | The calls appended to the context are exactly `Issued(x, y, w, h, r)`. With r ≥ 0 the routine returns; the current path is then the single `Contour`, which ends where it starts, and that path is appended to the strokes. With r < 0 the first arc() throws IndexSizeError; the path is then only the top edge from (x + r, y) to (x + w - r, y) and nothing is stroked. Nothing read from the context affects the result, so two calls with the same arguments append the same calls and stroke the same contour. |
| RoundedRect.Calls | src/canvas.ts:7-18 | A complete run issues exactly 11 calls. Every arc() has radius r and sweeps exactly one quarter turn. |
| RoundedRect.CallOrder | src/canvas.ts:7-18 | Whatever the arguments, the calls are beginPath, moveTo, lineTo, arc, lineTo, arc, lineTo, arc, lineTo, arc, stroke, in that order. |
| RoundedRect.Issued | src/canvas.ts:7-18 | The calls actually issued are a prefix of `Calls`: all 11 when r ≥ 0, and the first 4 (up to the throwing arc()) when r < 0. stroke() is among them exactly when r ≥ 0. |
| RoundedRect.Example | src/canvas.ts:7-18 | strokeRoundedRect(ctx, 10, 20, 100, 50, 8) issues: moveTo (18, 20); lineTo (102, 20); arc at (102, 28) from -π/2 to 0; lineTo (110, 62); arc at (102, 62) from 0 to π/2; lineTo (18, 70); arc at (18, 62) from π/2 to π; lineTo (10, 28); arc at (18, 28) from -π to -π/2. All arcs have radius 8. The first call is beginPath and the last is stroke. |
| RoundedRect.ContourShape | src/canvas.ts:9-16 | The contour has 12 pieces, repeating (edge, connecting line added by arc(), arc). Every arc has radius r and sweeps one quarter turn. The arcs start at -π/2, 0, π/2 and π in turn, so together they cover the four quarters of the circle in order. |
| RoundedRect.ContourReturnsToStart | src/canvas.ts:8-16 | The contour starts at (x + r, y). Every piece starts where the one before it ends. The last arc ends at the starting point again. |
| RoundedRect.NoImplicitLines | src/canvas.ts:9-16 | Each lineTo() target is the start point of the arc that follows it. So the straight line arc() adds before each arc has length zero. |
| RoundedRect.EdgesOnSides | src/canvas.ts:9-15 | The top and bottom edges are horizontal and lie on y and y + h. The right and left edges are vertical and lie on x + w and x. The edges run clockwise. Each one starts r after a corner and ends r before the next one: the top edge runs from x + r to x + w - r, the right edge from y + r to y + h - r, and so on. So the lengths are w - 2r and h - 2r. |
| RoundedRect.SharpCorners | src/canvas.ts:1-16 | With r = 0, the four edges join the corners (x, y), (x + w, y), (x + w, y + h) and (x, y + h) in that order, the same corners strokeRect joins. Every arc starts and ends at the corner it would have rounded. |
| RoundedRect.StartPointsInside | src/canvas.ts:8-16 | When 0 ≤ r, 2r ≤ w and 2r ≤ h, every piece starts inside [x, x + w] × [y, y + h]. This covers the moveTo() point, the lineTo() targets and the arc start points. |
| RoundedRect.EndPointsInside | src/canvas.ts:8-16 | Under the same bounds, every piece ends inside the rectangle. This covers the lineTo() targets and the arc end points. |
| RoundedRect.ArcsInside | src/canvas.ts:10-16 | Under the same bounds, each arc's circle fits inside the rectangle: every point at distance r from an arc's centre is inside it. |
| RoundedRect.CircleCase | src/canvas.ts:8-16 | When w = h = 2r, every edge has length zero and all four arcs are centred on (x + r, y + r), so the contour is the circle of radius r. |
| RoundedRect.EdgesDisjoint | src/canvas.ts:9-15 | When 0 < r, 2r ≤ w and 2r ≤ h, no point lies on two of the four edges, so the straight parts of the contour neither cross nor touch. |
| RoundedRect.Corner | src/canvas.ts:9-10 | On a one-subpath path ending at `from`, a lineTo() followed by a quarter arc() appends: the edge, the connecting line to the arc's start, and the arc. The subpath then ends at the arc's end point. |
| RoundedRect.HalfOutlineAt | src/canvas.ts:7-12 | From the empty path, moveTo() and the first two lineTo()/arc() pairs give one subpath. It holds the top edge, the top-right corner, the right edge and the bottom-right corner, and ends at the bottom-right arc's end point. |
| RoundedRect.OutlinePathAt | src/canvas.ts:7-16 | From the empty path, the nine path-building calls give a path of exactly one subpath: the contour's pieces, starting at the moveTo() point. |
| Canvas.Sweep | src/canvas.ts:10-16 | The arc() sweep in the default direction is between 0 and 4 quarter turns. It is a whole turn exactly when end - start ≥ 2π. Otherwise it goes from the start angle to the end angle, modulo a full turn. |
| Canvas.PathAfterMoveTo | src/canvas.ts:8 | moveTo(p) keeps every existing subpath and adds a new last one whose only point is p. |
| Canvas.PathAfterLineTo | src/canvas.ts:9 | With no subpath, lineTo(p) gives the one subpath that moveTo(p) would. Otherwise every earlier subpath and the last subpath's first point and pieces are kept, and one line from the old last point to p is appended. The last subpath then ends at p. |
| Canvas.PathAfterArc | src/canvas.ts:10 | For a radius that is not negative: with no subpath, arc() gives one subpath that starts at the arc's start point and holds the arc. Otherwise every earlier subpath and the last subpath's first point and pieces are kept. Then a connecting line from the old last point to the arc's start point is appended, followed by the arc. The last subpath then ends at the arc's end point. |
| Canvas.MoveToKeepsContinuity | src/canvas.ts:8 | moveTo() keeps every subpath continuous: each piece starts where the previous one ends. |
| Canvas.LineToKeepsContinuity | src/canvas.ts:9 | lineTo() keeps every subpath continuous. |
| Canvas.ArcKeepsContinuity | src/canvas.ts:10 | arc() keeps every subpath continuous, because of the connecting line it adds before the arc. |
| Canvas.Surface.BeginPath | src/canvas.ts:7 | Logs beginPath and empties the current path. The strokes are unchanged. |
| Canvas.Surface.MoveTo | src/canvas.ts:8 | Logs moveTo(x, y) and sets the path to `PathAfterMoveTo` of the old path. |
| Canvas.Surface.LineTo | src/canvas.ts:9 | Logs lineTo(x, y) and sets the path to `PathAfterLineTo` of the old path. |
| Canvas.Surface.Arc | src/canvas.ts:10 | Logs the call. It succeeds exactly when the radius is not negative, and then sets the path to `PathAfterArc` of the old path. When it throws (IndexSizeError), the path is left as it was. |
| Canvas.Surface.Stroke | src/canvas.ts:18 | Logs stroke and records the current path as rendered. The path itself is left unchanged. |
| Geometry.OnCircleDistance | src/canvas.ts:10-16 | The point at a quarter-turn angle on a circle is at distance r from the centre. It lies straight left, right, above or below the centre. |

## Left out

- src/router.ts (a route table handed to the router library) and src/shims.d.ts (type declarations) are not part of this model. They hold configuration and declarations, not behaviour.
- Rendering: stroke() records which path it renders. Pixels, stroke colour, line width and line joins are not modelled, since the routine neither sets nor reads them.
- IEEE-754 arithmetic and the floating-point value of `Math.PI` are not modelled. Coordinates are exact reals, and each angle is an exact integer number of quarter turns. The rounding of `x + w - r` and friends, and the rounding inside arc() of angles built from an inexact π, are therefore not captured.
- Canvas.Surface.Arc: does not model the standard's early return when an argument is infinite or NaN, because the model has no such values. Points of an arc other than its start and end are described only through the circle it lies on (`RoundedRect.ArcsInside`), not as a parametrised curve.
- Canvas.Surface.Arc: does not model the `anticlockwise` argument or the clamping of a sweep to the reverse direction, because the routine always uses the default direction.
- A null or otherwise invalid context is not modelled. What such a context does on each call belongs to the host, not to the routine.
- Self-intersection of the contour when r lies outside [0, min(w, h)/2] is not modelled. The model builds and strokes the same pieces for any r ≥ 0, as the routine does.
- The current transformation matrix is not modelled. The model assumes the identity transform, so the path holds user coordinates as given. "Clockwise on screen" holds only for a transform that does not reflect.
- Subpaths carry no closed flag. Only closePath() sets it, and the routine never calls closePath(), so its subpath stays open. It only comes back to its start point geometrically. When the outline is stroked, that point therefore gets line caps where strokeRect's outline would get a join.
- Non-self-intersection of the whole contour for 0 ≤ r ≤ min(w, h)/2 is not proved. `RoundedRect.EdgesDisjoint` covers the four edges when r > 0, and `RoundedRect.ArcsInside` covers the arcs' circles. How an arc meets the edges is not proved, because arcs are described only through their circles.
