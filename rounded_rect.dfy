/** strokeRoundedRect (src/canvas.ts): outlines the rectangle with top-left
    corner (x, y), width w and height h, whose corners are rounded with radius
    r, in the way strokeRect outlines a plain rectangle. It begins a new path,
    moves to the start of the top edge, draws each edge followed by the
    quarter arc that rounds the next corner (clockwise on screen under the
    identity transform: top, right,
    bottom, left), and strokes the path.

    Arc angles are in quarter turns: -pi/2, 0, pi/2, pi and -pi are -1, 0, 1, 2
    and -2. The routine does not check r; arc() throws an IndexSizeError for a
    negative radius, which ends the routine after its first arc() call.
 */
module RoundedRect {
  import opened Geometry
  import opened Canvas

  /** How a call of the routine ends: it returns, or the exception thrown by
      arc() for a negative radius propagates out of it. */
  datatype Outcome = Returned | ThrewIndexSizeError

  /** The name under which a call appears on the context. */
  function Name(c: Cmd): string {
    match c
    case BeginPath => "beginPath"
    case MoveTo(_) => "moveTo"
    case LineTo(_) => "lineTo"
    case Arc(_, _, _, _) => "arc"
    case Stroke => "stroke"
  }

  function Names(cs: seq<Cmd>): seq<string> {
    seq(|cs|, i requires 0 <= i < |cs| => Name(cs[i]))
  }

  /** Every call the routine makes when it runs to completion, from the
      coordinates it computes: x and y, the far sides right and bottom, the
      x of the left and right arc centres (xl, xr) and the y of the top and
      bottom arc centres (yt, yb). */
  function CallsAt(x: real, y: real, xl: real, xr: real, yt: real, yb: real,
                   right: real, bottom: real, r: real): seq<Cmd> {
    [ BeginPath,
      MoveTo(Point(xl, y)),
      LineTo(Point(xr, y)),
      Arc(Point(xr, yt), r, -1, 0),
      LineTo(Point(right, yb)),
      Arc(Point(xr, yb), r, 0, 1),
      LineTo(Point(xl, bottom)),
      Arc(Point(xl, yb), r, 1, 2),
      LineTo(Point(x, yt)),
      Arc(Point(xl, yt), r, -2, -1),
      Stroke ]
  }

  /** Every call the routine makes when it runs to completion; every arc has
      radius r and sweeps one quarter turn. */
  function Calls(x: real, y: real, w: real, h: real, r: real): (cs: seq<Cmd>)
    ensures |cs| == 11
    ensures forall i :: 0 <= i < |cs| && cs[i].Arc? ==>
              cs[i].radius == r && Sweep(cs[i].startAngle, cs[i].endAngle) == 1
  {
    CallsAt(x, y, x + r, x + w - r, y + r, y + h - r, x + w, y + h, r)
  }

  /** The names and order of the calls are the same whatever the arguments. */
  lemma CallOrder(x: real, y: real, w: real, h: real, r: real)
    ensures Names(Calls(x, y, w, h, r))
            == ["beginPath", "moveTo", "lineTo", "arc", "lineTo", "arc",
                "lineTo", "arc", "lineTo", "arc", "stroke"]
  {
  }

  /** The calls the routine actually makes: all eleven, or, when r is
      negative, the four up to and including the first arc(), which throws. */
  function Issued(x: real, y: real, w: real, h: real, r: real): (cs: seq<Cmd>)
    ensures |cs| == if r < 0.0 then 4 else 11
    ensures cs == Calls(x, y, w, h, r)[..|cs|]
    ensures Stroke in cs <==> r >= 0.0
  {
    var all := Calls(x, y, w, h, r);
    assert all[10] == Stroke;
    if r < 0.0 then
      assert forall i :: 0 <= i < 4 ==> all[i] != Stroke;
      all[..4]
    else all
  }

  /** What lineTo(to) followed by a quarter arc() adds to a subpath whose last
      point is `from`: the edge, the connecting line arc() adds, the arc. */
  function EdgeThenCorner(from: Point, to: Point, center: Point, r: real, s: int): seq<Piece> {
    [Line(from, to), Connector(to, OnCircle(center, r, s)), Curve(center, r, s, 1)]
  }

  /** The pieces of the contour, written out from the coordinates the routine
      computes: x and y, the far sides right and bottom, the arc centres' x
      (xl, xr) and y (yt, yb). Top edge and top-right corner, right edge and
      bottom-right corner, bottom edge and bottom-left corner, left edge and
      top-left corner. */
  function PiecesAt(x: real, y: real, xl: real, xr: real, yt: real, yb: real,
                    right: real, bottom: real, r: real): seq<Piece> {
    var tr, br, bl, tl := Point(xr, yt), Point(xr, yb), Point(xl, yb), Point(xl, yt);
    [ Line(Point(xl, y), Point(xr, y)),
      Connector(Point(xr, y), OnCircle(tr, r, -1)),
      Curve(tr, r, -1, 1),
      Line(OnCircle(tr, r, 0), Point(right, yb)),
      Connector(Point(right, yb), OnCircle(br, r, 0)),
      Curve(br, r, 0, 1),
      Line(OnCircle(br, r, 1), Point(xl, bottom)),
      Connector(Point(xl, bottom), OnCircle(bl, r, 1)),
      Curve(bl, r, 1, 1),
      Line(OnCircle(bl, r, 2), Point(x, yt)),
      Connector(Point(x, yt), OnCircle(tl, r, -2)),
      Curve(tl, r, -2, 1) ]
  }

  /** The pieces of the contour the routine strokes. */
  function ContourPieces(x: real, y: real, w: real, h: real, r: real): seq<Piece> {
    PiecesAt(x, y, x + r, x + w - r, y + r, y + h - r, x + w, y + h, r)
  }

  /** The contour the routine strokes: one subpath starting at (x + r, y). */
  function Contour(x: real, y: real, w: real, h: real, r: real): Subpath {
    Subpath(Point(x + r, y), ContourPieces(x, y, w, h, r))
  }

  /** The pieces alternate: each edge drawn by lineTo() is followed by the
      line arc() adds to reach the start of its arc and by the arc itself, a
      quarter turn of radius r. The arcs start at -pi/2, 0, pi/2 and -pi, so
      they turn through the four quarters of a circle in order, clockwise. */
  lemma ContourShape(x: real, y: real, w: real, h: real, r: real)
    ensures var ps := ContourPieces(x, y, w, h, r);
      |ps| == 12
      && (forall i :: 0 <= i < |ps| ==>
            (ps[i].Line? <==> i % 3 == 0) && (ps[i].Connector? <==> i % 3 == 1)
            && (ps[i].Curve? <==> i % 3 == 2))
      && (forall i :: 0 <= i < |ps| && ps[i].Curve? ==>
            ps[i].radius == r && ps[i].sweep == 1 && ps[i].start % 4 == (i / 3 + 3) % 4)
  {
    var ps := ContourPieces(x, y, w, h, r);
    forall i | 0 <= i < |ps|
      ensures (ps[i].Line? <==> i % 3 == 0) && (ps[i].Connector? <==> i % 3 == 1)
              && (ps[i].Curve? <==> i % 3 == 2)
      ensures ps[i].Curve? ==> ps[i].radius == r && ps[i].sweep == 1 && ps[i].start % 4 == (i / 3 + 3) % 4
    {
      assert i in {0, 1, 2, 3, 4, 5, 6, 7, 8, 9, 10, 11};
    }
  }

  /** The contour is one unbroken outline that comes back to where it began:
      every piece starts where the one before it ends, and the last arc ends
      at the starting point. (The subpath is still open in the standard's
      sense, since the routine never calls closePath().) */
  lemma ContourReturnsToStart(x: real, y: real, w: real, h: real, r: real)
    ensures Continuous(Contour(x, y, w, h, r))
    ensures LastPoint(Contour(x, y, w, h, r)) == Contour(x, y, w, h, r).first == Point(x + r, y)
  {
    var c := Contour(x, y, w, h, r);
    forall i | 0 <= i < |c.pieces|
      ensures StartOf(c.pieces[i]) == PointBefore(c, i)
    {
      assert i in {0, 1, 2, 3, 4, 5, 6, 7, 8, 9, 10, 11};
    }
  }

  /** No stray segment: every lineTo() ends exactly where the next arc starts,
      so the line arc() adds before each arc has length zero. */
  lemma NoImplicitLines(x: real, y: real, w: real, h: real, r: real)
    ensures var ps := ContourPieces(x, y, w, h, r);
      forall i :: 0 <= i < |ps| && ps[i].Connector? ==> ps[i].a == ps[i].b
  {
    var ps := ContourPieces(x, y, w, h, r);
    forall i | 0 <= i < |ps| && ps[i].Connector? ensures ps[i].a == ps[i].b {
      assert i in {1, 4, 7, 10};
    }
  }

  /** The four edges lie on the four sides of the rectangle, the top and
      bottom ones horizontal, the right and left ones vertical, and they run
      clockwise, each shortened by r at both ends. */
  lemma EdgesOnSides(x: real, y: real, w: real, h: real, r: real)
    ensures var ps := ContourPieces(x, y, w, h, r);
      && ps[0].Line? && ps[0].a.y == y && ps[0].b.y == y
      && ps[0].a.x == x + r && ps[0].b.x == x + w - r && ps[0].b.x - ps[0].a.x == w - 2.0 * r
      && ps[3].Line? && ps[3].a.x == x + w && ps[3].b.x == x + w
      && ps[3].a.y == y + r && ps[3].b.y == y + h - r && ps[3].b.y - ps[3].a.y == h - 2.0 * r
      && ps[6].Line? && ps[6].a.y == y + h && ps[6].b.y == y + h
      && ps[6].a.x == x + w - r && ps[6].b.x == x + r && ps[6].a.x - ps[6].b.x == w - 2.0 * r
      && ps[9].Line? && ps[9].a.x == x && ps[9].b.x == x
      && ps[9].a.y == y + h - r && ps[9].b.y == y + r && ps[9].a.y - ps[9].b.y == h - 2.0 * r
  {
  }

  /** With r = 0 the contour runs through the corners strokeRect joins: the
      edges join the corners (x, y), (x + w, y), (x + w, y + h) and (x, y + h) in that
      order, and every arc shrinks to the corner it would have rounded. */
  lemma SharpCorners(x: real, y: real, w: real, h: real)
    ensures var ps := ContourPieces(x, y, w, h, 0.0);
      && ps[0] == Line(Point(x, y), Point(x + w, y))
      && ps[3] == Line(Point(x + w, y), Point(x + w, y + h))
      && ps[6] == Line(Point(x + w, y + h), Point(x, y + h))
      && ps[9] == Line(Point(x, y + h), Point(x, y))
      && forall i :: 0 <= i < |ps| && ps[i].Curve? ==>
           StartOf(ps[i]) == ps[i].center && EndOf(ps[i]) == ps[i].center
  {
    var ps := ContourPieces(x, y, w, h, 0.0);
    forall i | 0 <= i < |ps| && ps[i].Curve?
      ensures StartOf(ps[i]) == ps[i].center && EndOf(ps[i]) == ps[i].center
    {
      assert i in {2, 5, 8, 11};
    }
  }

  predicate InRect(p: Point, x: real, y: real, w: real, h: real) {
    x <= p.x <= x + w && y <= p.y <= y + h
  }

  /** When 0 <= r and 2r <= min(w, h), every piece of the contour starts
      inside the rectangle: the moveTo() point, the lineTo() targets and the
      start and end points of the arcs all do. */
  lemma StartPointsInside(x: real, y: real, w: real, h: real, r: real)
    requires 0.0 <= r && 2.0 * r <= w && 2.0 * r <= h
    ensures var ps := ContourPieces(x, y, w, h, r);
      forall i :: 0 <= i < |ps| ==> InRect(StartOf(ps[i]), x, y, w, h)
  {
    var ps := ContourPieces(x, y, w, h, r);
    forall i | 0 <= i < |ps| ensures InRect(StartOf(ps[i]), x, y, w, h) {
      assert i in {0, 1, 2, 3, 4, 5, 6, 7, 8, 9, 10, 11};
    }
  }

  /** Under the same bounds, every piece of the contour ends inside the
      rectangle. */
  lemma EndPointsInside(x: real, y: real, w: real, h: real, r: real)
    requires 0.0 <= r && 2.0 * r <= w && 2.0 * r <= h
    ensures var ps := ContourPieces(x, y, w, h, r);
      forall i :: 0 <= i < |ps| ==> InRect(EndOf(ps[i]), x, y, w, h)
  {
    var ps := ContourPieces(x, y, w, h, r);
    forall i | 0 <= i < |ps| ensures InRect(EndOf(ps[i]), x, y, w, h) {
      assert i in {0, 1, 2, 3, 4, 5, 6, 7, 8, 9, 10, 11};
    }
  }

  /** Under the same bounds, each arc is drawn on a circle that fits in the
      rectangle, so every point of every arc lies inside it too. */
  lemma ArcsInside(x: real, y: real, w: real, h: real, r: real, i: int, p: Point)
    requires 0.0 <= r && 2.0 * r <= w && 2.0 * r <= h
    requires 0 <= i < |ContourPieces(x, y, w, h, r)| && ContourPieces(x, y, w, h, r)[i].Curve?
    requires var c := ContourPieces(x, y, w, h, r)[i].center;
      Sq(p.x - c.x) + Sq(p.y - c.y) == Sq(r)
    ensures InRect(p, x, y, w, h)
  {
    var c := ContourPieces(x, y, w, h, r)[i].center;
    assert x + r <= c.x <= x + w - r && y + r <= c.y <= y + h - r by {
      assert i in {2, 5, 8, 11};
    }
    WithinRadius(c, r, p);
  }

  /** When w = h = 2r the edges have length zero and the four arcs share the
      centre (x + r, y + r): the contour is the circle of radius r. */
  lemma CircleCase(x: real, y: real, r: real)
    ensures var ps := ContourPieces(x, y, 2.0 * r, 2.0 * r, r);
      && (forall i :: 0 <= i < |ps| && ps[i].Line? ==> ps[i].a == ps[i].b)
      && (forall i :: 0 <= i < |ps| && ps[i].Curve? ==> ps[i].center == Point(x + r, y + r))
  {
    var ps := ContourPieces(x, y, 2.0 * r, 2.0 * r, r);
    forall i | 0 <= i < |ps|
      ensures ps[i].Line? ==> ps[i].a == ps[i].b
      ensures ps[i].Curve? ==> ps[i].center == Point(x + r, y + r)
    {
      assert i in {0, 1, 2, 3, 4, 5, 6, 7, 8, 9, 10, 11};
    }
  }

  function Min(a: real, b: real): real { if a <= b then a else b }
  function Max(a: real, b: real): real { if a <= b then b else a }

  /** p lies on the straight segment from a to b: within its bounding box
      and on the line through a and b. */
  predicate OnSegment(p: Point, a: Point, b: Point) {
    && Min(a.x, b.x) <= p.x <= Max(a.x, b.x)
    && Min(a.y, b.y) <= p.y <= Max(a.y, b.y)
    && (b.x - a.x) * (p.y - a.y) == (b.y - a.y) * (p.x - a.x)
  }

  /** With 0 < r, 2r <= w and 2r <= h, no two of the four edges share a
      point: the straight parts of the contour do not cross or touch. */
  lemma EdgesDisjoint(x: real, y: real, w: real, h: real, r: real, p: Point)
    requires 0.0 < r && 2.0 * r <= w && 2.0 * r <= h
    ensures var ps := ContourPieces(x, y, w, h, r);
      forall i, j :: 0 <= i < j < |ps| && ps[i].Line? && ps[j].Line? ==>
        !(OnSegment(p, ps[i].a, ps[i].b) && OnSegment(p, ps[j].a, ps[j].b))
  {
    var ps := ContourPieces(x, y, w, h, r);
    forall i, j | 0 <= i < j < |ps| && ps[i].Line? && ps[j].Line?
      ensures !(OnSegment(p, ps[i].a, ps[i].b) && OnSegment(p, ps[j].a, ps[j].b))
    {
      assert i in {0, 3, 6} && j in {3, 6, 9} by {
        assert i in {0, 1, 2, 3, 4, 5, 6, 7, 8, 9, 10, 11};
        assert j in {0, 1, 2, 3, 4, 5, 6, 7, 8, 9, 10, 11};
      }
    }
  }

  /** strokeRoundedRect(ctx, 10, 20, 100, 50, 8), call by call. */
  lemma Example()
    ensures Calls(10.0, 20.0, 100.0, 50.0, 8.0)
      == [ BeginPath,
           MoveTo(Point(18.0, 20.0)), LineTo(Point(102.0, 20.0)),
           Arc(Point(102.0, 28.0), 8.0, -1, 0), LineTo(Point(110.0, 62.0)),
           Arc(Point(102.0, 62.0), 8.0, 0, 1), LineTo(Point(18.0, 70.0)),
           Arc(Point(18.0, 62.0), 8.0, 1, 2), LineTo(Point(10.0, 28.0)),
           Arc(Point(18.0, 28.0), 8.0, -2, -1),
           Stroke ]
  {
  }

  /** lineTo(q) followed by a quarter arc() round centre c, on a path of one
      subpath ending at `from`, appends EdgeThenCorner; the subpath then ends
      at the end point of the arc. */
  lemma {:induction false} Corner(first: Point, ps: seq<Piece>, from: Point, q: Point, c: Point, r: real, s: int)
    requires r >= 0.0 && LastPoint(Subpath(first, ps)) == from
    ensures PathAfterArc(PathAfterLineTo([Subpath(first, ps)], q), c, r, s, s + 1)
            == [Subpath(first, ps + EdgeThenCorner(from, q, c, r, s))]
    ensures LastPoint(Subpath(first, ps + EdgeThenCorner(from, q, c, r, s))) == OnCircle(c, r, s + 1)
  {
    var sp := Subpath(first, ps);
    var sp1 := Subpath(first, ps + [Line(from, q)]);
    ExtendSingle(sp, [Line(from, q)]);
    assert Sweep(s, s + 1) == 1;
    ExtendSingle(sp1, [Connector(q, OnCircle(c, r, s)), Curve(c, r, s, 1)]);
    assert sp1.pieces + [Connector(q, OnCircle(c, r, s)), Curve(c, r, s, 1)]
        == ps + EdgeThenCorner(from, q, c, r, s);
  }

  /** The path after beginPath(), moveTo() and the first two lineTo()/arc()
      pairs: one subpath holding the top edge, the top-right corner, the
      right edge and the bottom-right corner. */
  lemma HalfOutlineAt(y: real, xl: real, xr: real, yt: real, yb: real, right: real, r: real)
    requires r >= 0.0
    ensures
      var p1 := PathAfterMoveTo([], Point(xl, y));
      var p3 := PathAfterArc(PathAfterLineTo(p1, Point(xr, y)), Point(xr, yt), r, -1, 0);
      PathAfterArc(PathAfterLineTo(p3, Point(right, yb)), Point(xr, yb), r, 0, 1)
        == [Subpath(Point(xl, y),
                    EdgeThenCorner(Point(xl, y), Point(xr, y), Point(xr, yt), r, -1)
                    + EdgeThenCorner(OnCircle(Point(xr, yt), r, 0), Point(right, yb), Point(xr, yb), r, 0))]
    ensures LastPoint(Subpath(Point(xl, y),
                    EdgeThenCorner(Point(xl, y), Point(xr, y), Point(xr, yt), r, -1)
                    + EdgeThenCorner(OnCircle(Point(xr, yt), r, 0), Point(right, yb), Point(xr, yb), r, 0)))
            == OnCircle(Point(xr, yb), r, 1)
  {
    var p0, tr, br := Point(xl, y), Point(xr, yt), Point(xr, yb);
    assert PathAfterMoveTo([], p0) == [Subpath(p0, [])];
    var e1 := EdgeThenCorner(p0, Point(xr, y), tr, r, -1);
    Corner(p0, [], p0, Point(xr, y), tr, r, -1);
    assert [] + e1 == e1;
    Corner(p0, e1, OnCircle(tr, r, 0), Point(right, yb), br, r, 0);
  }

  /** The path the context's semantics build for the nine path-building
      calls, from the empty path that beginPath() leaves, in terms of the
      coordinates the routine computes: one subpath, the contour's pieces. */
  lemma OutlinePathAt(x: real, y: real, xl: real, xr: real, yt: real, yb: real,
                      right: real, bottom: real, r: real)
    requires r >= 0.0
    ensures
      var p1 := PathAfterMoveTo([], Point(xl, y));
      var p3 := PathAfterArc(PathAfterLineTo(p1, Point(xr, y)), Point(xr, yt), r, -1, 0);
      var p5 := PathAfterArc(PathAfterLineTo(p3, Point(right, yb)), Point(xr, yb), r, 0, 1);
      var p7 := PathAfterArc(PathAfterLineTo(p5, Point(xl, bottom)), Point(xl, yb), r, 1, 2);
      PathAfterArc(PathAfterLineTo(p7, Point(x, yt)), Point(xl, yt), r, -2, -1)
        == [Subpath(Point(xl, y), PiecesAt(x, y, xl, xr, yt, yb, right, bottom, r))]
  {
    var p0, tr, br, bl, tl := Point(xl, y), Point(xr, yt), Point(xr, yb), Point(xl, yb), Point(xl, yt);
    var e12 := EdgeThenCorner(p0, Point(xr, y), tr, r, -1)
               + EdgeThenCorner(OnCircle(tr, r, 0), Point(right, yb), br, r, 0);
    HalfOutlineAt(y, xl, xr, yt, yb, right, r);
    var e3 := EdgeThenCorner(OnCircle(br, r, 1), Point(xl, bottom), bl, r, 1);
    Corner(p0, e12, OnCircle(br, r, 1), Point(xl, bottom), bl, r, 1);
    var e4 := EdgeThenCorner(OnCircle(bl, r, 2), Point(x, yt), tl, r, -2);
    Corner(p0, e12 + e3, OnCircle(bl, r, 2), Point(x, yt), tl, r, -2);
    assert e12 + e3 + e4 == PiecesAt(x, y, xl, xr, yt, yb, right, bottom, r);
  }

  /** What the calls of a complete run append to a call log, one by one. */
  lemma CallLog(log: seq<Cmd>, x: real, y: real, xl: real, xr: real, yt: real, yb: real,
                right: real, bottom: real, r: real)
    ensures log + [BeginPath] + [MoveTo(Point(xl, y))] + [LineTo(Point(xr, y))]
              + [Arc(Point(xr, yt), r, -1, 0)] + [LineTo(Point(right, yb))]
              + [Arc(Point(xr, yb), r, 0, 1)] + [LineTo(Point(xl, bottom))]
              + [Arc(Point(xl, yb), r, 1, 2)] + [LineTo(Point(x, yt))]
              + [Arc(Point(xl, yt), r, -2, -1)] + [Stroke]
            == log + CallsAt(x, y, xl, xr, yt, yb, right, bottom, r)
  {
  }

  /** What the calls of a run that stops at the first arc() append to a call log. */
  lemma CallLogThrown(log: seq<Cmd>, x: real, y: real, xl: real, xr: real, yt: real, yb: real,
                      right: real, bottom: real, r: real)
    ensures log + [BeginPath] + [MoveTo(Point(xl, y))] + [LineTo(Point(xr, y))]
              + [Arc(Point(xr, yt), r, -1, 0)]
            == log + CallsAt(x, y, xl, xr, yt, yb, right, bottom, r)[..4]
  {
  }

  /** The contour and the calls, from the coordinates the routine computes. */
  lemma FromCoordinates(x: real, y: real, w: real, h: real, r: real,
                        xl: real, xr: real, yt: real, yb: real, right: real, bottom: real)
    requires xl == x + r && xr == x + w - r && yt == y + r && yb == y + h - r
    requires right == x + w && bottom == y + h
    ensures Contour(x, y, w, h, r) == Subpath(Point(xl, y), PiecesAt(x, y, xl, xr, yt, yb, right, bottom, r))
    ensures r >= 0.0 ==> Issued(x, y, w, h, r) == CallsAt(x, y, xl, xr, yt, yb, right, bottom, r)
    ensures r < 0.0 ==> Issued(x, y, w, h, r) == CallsAt(x, y, xl, xr, yt, yb, right, bottom, r)[..4]
    ensures Point(x + r, y) == Point(xl, y) && Point(x + w - r, y) == Point(xr, y)
  {
  }

  /** strokeRoundedRect: begin a new path, build the outline, stroke it. The
      routine reads nothing from the context: what it appends to the call log
      and what it leaves as the current path and strokes depend only on the
      arguments, so two calls with the same arguments append the same calls and
      stroke the same contour. With a negative radius the first arc() throws;
      the path then holds the top edge only and nothing is stroked. */
  method StrokeRoundedRect(ctx: Surface, x: real, y: real, w: real, h: real, r: real)
    returns (outcome: Outcome)
    modifies ctx
    ensures ctx.calls == old(ctx.calls) + Issued(x, y, w, h, r)
    ensures outcome == if r < 0.0 then ThrewIndexSizeError else Returned
    ensures r >= 0.0 ==> ctx.path == [Contour(x, y, w, h, r)]
    ensures r >= 0.0 ==> ctx.strokes == old(ctx.strokes) + [[Contour(x, y, w, h, r)]]
    ensures r < 0.0 ==> ctx.path == [Subpath(Point(x + r, y), [Line(Point(x + r, y), Point(x + w - r, y))])]
    ensures r < 0.0 ==> ctx.strokes == old(ctx.strokes)
  {
    var xl, xr, yt, yb := x + r, x + w - r, y + r, y + h - r;
    var right, bottom := x + w, y + h;
    FromCoordinates(x, y, w, h, r, xl, xr, yt, yb, right, bottom);
    ctx.BeginPath();
    ctx.MoveTo(xl, y);
    ctx.LineTo(xr, y);
    var ok := ctx.Arc(xr, yt, r, -1, 0);
    if !ok {
      assert ctx.path == [Subpath(Point(xl, y), [Line(Point(xl, y), Point(xr, y))])] by {
        assert PathAfterMoveTo([], Point(xl, y)) == [Subpath(Point(xl, y), [])];
        ExtendSingle(Subpath(Point(xl, y), []), [Line(Point(xl, y), Point(xr, y))]);
        assert [] + [Line(Point(xl, y), Point(xr, y))] == [Line(Point(xl, y), Point(xr, y))];
      }
      CallLogThrown(old(ctx.calls), x, y, xl, xr, yt, yb, right, bottom, r);
      return ThrewIndexSizeError;
    }
    // the remaining arcs have the same radius, so none of them can throw
    ctx.LineTo(right, yb);
    ok := ctx.Arc(xr, yb, r, 0, 1);
    ctx.LineTo(xl, bottom);
    ok := ctx.Arc(xl, yb, r, 1, 2);
    ctx.LineTo(x, yt);
    ok := ctx.Arc(xl, yt, r, -2, -1);
    OutlinePathAt(x, y, xl, xr, yt, yb, right, bottom, r);
    ctx.Stroke();
    CallLog(old(ctx.calls), x, y, xl, xr, yt, yb, right, bottom, r);
    outcome := Returned;
  }
}
