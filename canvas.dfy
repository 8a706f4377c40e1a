/** The part of a 2D canvas context that the rounded-rectangle routine uses:
    the "building paths" methods of CanvasPath (moveTo, lineTo, arc), beginPath
    and stroke, with the semantics the WHATWG HTML Living Standard gives them
    (the "Building paths" section, and the path methods of
    CanvasRenderingContext2D).

    The context's current default path is a list of subpaths; a subpath is a
    first point followed by pieces (straight lines and arcs), each of which
    starts where the previous one ends. Rendering (pixels, colour, line width,
    joins) is not modelled: stroke() only records which path it rendered.
 */
module Canvas {
  import opened Geometry

  /** One call on the context, as the call log records it. Angles are in quarter turns (k stands for k * pi/2). */
  datatype Cmd =
    | BeginPath
    | MoveTo(p: Point)
    | LineTo(p: Point)
    | Arc(center: Point, radius: real, startAngle: int, endAngle: int)
    | Stroke

  /** A piece of a subpath. `Connector` is the straight line that arc() itself
      adds from the last point of the subpath to the start point of the arc;
      `Line` is a lineTo() segment; `Curve` is the arc, swept clockwise
      (increasing angle) from `start` through `sweep` quarter turns. */
  datatype Piece =
    | Line(a: Point, b: Point)
    | Connector(a: Point, b: Point)
    | Curve(center: Point, radius: real, start: int, sweep: int)

  datatype Subpath = Subpath(first: Point, pieces: seq<Piece>)

  function StartOf(q: Piece): Point {
    match q
    case Line(a, _) => a
    case Connector(a, _) => a
    case Curve(c, rad, s, _) => OnCircle(c, rad, s)
  }

  function EndOf(q: Piece): Point {
    match q
    case Line(_, b) => b
    case Connector(_, b) => b
    case Curve(c, rad, s, n) => OnCircle(c, rad, s + n)
  }

  /** The last point of a subpath, where the next piece starts. */
  function LastPoint(sp: Subpath): Point {
    if sp.pieces == [] then sp.first else EndOf(sp.pieces[|sp.pieces| - 1])
  }

  /** Quarter turns swept by arc(startAngle, endAngle) in the default
      (clockwise) direction: a difference of a full turn or more is the whole
      circumference; otherwise the sweep goes clockwise from the start angle to
      the end angle, the long way round when the end angle is smaller. */
  function Sweep(startAngle: int, endAngle: int): (n: int)
    ensures 0 <= n <= 4
    ensures endAngle - startAngle >= 4 <==> n == 4
    ensures n < 4 ==> (startAngle + n) % 4 == endAngle % 4
  {
    var d := endAngle - startAngle;
    if d >= 4 then 4
    else
      assert startAngle + d % 4 == endAngle - 4 * (d / 4);
      d % 4
  }

  /** Appends pieces to the last subpath of a non-empty path. */
  function Extend(path: seq<Subpath>, qs: seq<Piece>): (r: seq<Subpath>)
    requires path != []
    ensures |r| == |path| && r[..|r| - 1] == path[..|path| - 1]
    ensures r[|r| - 1].first == path[|path| - 1].first
    ensures r[|r| - 1].pieces == path[|path| - 1].pieces + qs
  {
    var last := path[|path| - 1];
    path[..|path| - 1] + [Subpath(last.first, last.pieces + qs)]
  }

  /** Extending a path of one subpath. */
  lemma ExtendSingle(sp: Subpath, qs: seq<Piece>)
    ensures Extend([sp], qs) == [Subpath(sp.first, sp.pieces + qs)]
  {
    assert [sp][..0] == [];
  }

  /** moveTo(p): a new subpath whose only point is p. */
  function PathAfterMoveTo(path: seq<Subpath>, p: Point): (r: seq<Subpath>)
    ensures |r| == |path| + 1 && forall j :: 0 <= j < |path| ==> r[j] == path[j]
    ensures r[|r| - 1] == Subpath(p, [])
  {
    path + [Subpath(p, [])]
  }

  /** lineTo(p): with no subpath, the same as moveTo(p); otherwise a straight
      line from the last point of the last subpath to p. */
  function PathAfterLineTo(path: seq<Subpath>, p: Point): (r: seq<Subpath>)
    ensures |r| == if path == [] then 1 else |path|
    ensures LastPoint(r[|r| - 1]) == p
    ensures path == [] ==> r == [Subpath(p, [])]
    ensures path != [] ==>
      && r[..|r| - 1] == path[..|path| - 1]
      && r[|r| - 1].first == path[|path| - 1].first
      && r[|r| - 1].pieces == path[|path| - 1].pieces + [Line(LastPoint(path[|path| - 1]), p)]
  {
    if path == [] then [Subpath(p, [])]
    else Extend(path, [Line(LastPoint(path[|path| - 1]), p)])
  }

  /** arc(center, radius, s, e) with a radius that is not negative (a negative
      one throws before the path is touched): a straight line from the last
      point to the start point of the arc when there is a subpath, then the
      arc; the last point becomes the arc's end point. */
  function PathAfterArc(path: seq<Subpath>, center: Point, radius: real, s: int, e: int): (r: seq<Subpath>)
    requires radius >= 0.0
    ensures |r| == if path == [] then 1 else |path|
    ensures LastPoint(r[|r| - 1]) == OnCircle(center, radius, s + Sweep(s, e))
    ensures path == [] ==>
      r == [Subpath(OnCircle(center, radius, s), [Curve(center, radius, s, Sweep(s, e))])]
    ensures path != [] ==>
      && r[..|r| - 1] == path[..|path| - 1]
      && r[|r| - 1].first == path[|path| - 1].first
      && r[|r| - 1].pieces == path[|path| - 1].pieces
           + [Connector(LastPoint(path[|path| - 1]), OnCircle(center, radius, s)),
              Curve(center, radius, s, Sweep(s, e))]
  {
    var curve := Curve(center, radius, s, Sweep(s, e));
    if path == [] then [Subpath(StartOf(curve), [curve])]
    else Extend(path, [Connector(LastPoint(path[|path| - 1]), StartOf(curve)), curve])
  }

  /** The point the i-th piece of a subpath should start from: the first
      point, or where the previous piece ends. */
  function PointBefore(sp: Subpath, i: int): Point
    requires 0 <= i <= |sp.pieces|
  {
    if i == 0 then sp.first else EndOf(sp.pieces[i - 1])
  }

  /** Every piece starts where the previous one (or the first point) ends. */
  predicate Continuous(sp: Subpath) {
    forall i :: 0 <= i < |sp.pieces| ==> StartOf(sp.pieces[i]) == PointBefore(sp, i)
  }

  predicate AllContinuous(path: seq<Subpath>) {
    forall j :: 0 <= j < |path| ==> Continuous(path[j])
  }

  /** Appending pieces that start at the last point of a continuous subpath,
      each starting where the one before it ends, keeps it continuous. */
  lemma AppendContinuous(sp: Subpath, qs: seq<Piece>)
    requires Continuous(sp)
    requires qs != [] && StartOf(qs[0]) == LastPoint(sp)
    requires forall i :: 0 < i < |qs| ==> StartOf(qs[i]) == EndOf(qs[i - 1])
    ensures Continuous(Subpath(sp.first, sp.pieces + qs))
  {
    var ext := Subpath(sp.first, sp.pieces + qs);
    var n := |sp.pieces|;
    forall i | 0 <= i < |ext.pieces|
      ensures StartOf(ext.pieces[i]) == PointBefore(ext, i)
    {
      if i < n {
        assert ext.pieces[i] == sp.pieces[i];
        assert i > 0 ==> ext.pieces[i - 1] == sp.pieces[i - 1];
        assert StartOf(sp.pieces[i]) == PointBefore(sp, i);
      } else if i == n {
        assert ext.pieces[i] == qs[0];
        assert i > 0 ==> ext.pieces[i - 1] == sp.pieces[i - 1];
      } else {
        assert ext.pieces[i] == qs[i - n] && ext.pieces[i - 1] == qs[i - n - 1];
      }
    }
  }

  /** The same for the last subpath of a path; the other subpaths are untouched. */
  lemma ExtendContinuous(path: seq<Subpath>, qs: seq<Piece>)
    requires path != [] && AllContinuous(path)
    requires qs != [] && StartOf(qs[0]) == LastPoint(path[|path| - 1])
    requires forall i :: 0 < i < |qs| ==> StartOf(qs[i]) == EndOf(qs[i - 1])
    ensures AllContinuous(Extend(path, qs))
  {
    var r := Extend(path, qs);
    AppendContinuous(path[|path| - 1], qs);
    forall j | 0 <= j < |r| ensures Continuous(r[j]) {
      if j < |r| - 1 {
        assert r[j] == r[..|r| - 1][j] == path[j];
      }
    }
  }

  /** moveTo, lineTo and arc never leave a gap between consecutive pieces of a
      subpath: every piece starts where the one before it ends. */
  lemma MoveToKeepsContinuity(path: seq<Subpath>, p: Point)
    requires AllContinuous(path)
    ensures AllContinuous(PathAfterMoveTo(path, p))
  {
    var r := PathAfterMoveTo(path, p);
    forall j | 0 <= j < |r| ensures Continuous(r[j]) {
      if j < |path| { assert r[j] == path[j]; }
    }
  }

  lemma LineToKeepsContinuity(path: seq<Subpath>, p: Point)
    requires AllContinuous(path)
    ensures AllContinuous(PathAfterLineTo(path, p))
  {
    if path != [] {
      ExtendContinuous(path, [Line(LastPoint(path[|path| - 1]), p)]);
    }
  }

  lemma ArcKeepsContinuity(path: seq<Subpath>, center: Point, radius: real, s: int, e: int)
    requires AllContinuous(path) && radius >= 0.0
    ensures AllContinuous(PathAfterArc(path, center, radius, s, e))
  {
    if path != [] {
      var curve := Curve(center, radius, s, Sweep(s, e));
      ExtendContinuous(path, [Connector(LastPoint(path[|path| - 1]), StartOf(curve)), curve]);
    }
  }

  /** A drawing context. `calls` is every call made on it, in order (a call
      that threw included); `path` is the current default path; `strokes`
      holds, for every stroke() so far, the path it rendered. */
  class Surface {
    var calls: seq<Cmd>
    var path: seq<Subpath>
    var strokes: seq<seq<Subpath>>

    constructor ()
      ensures calls == [] && path == [] && strokes == []
    {
      calls, path, strokes := [], [], [];
    }

    /** beginPath(): empties the current default path. */
    method BeginPath()
      modifies this
      ensures calls == old(calls) + [Cmd.BeginPath]
      ensures path == [] && strokes == old(strokes)
    {
      calls := calls + [Cmd.BeginPath];
      path := [];
    }

    method MoveTo(x: real, y: real)
      modifies this
      ensures calls == old(calls) + [Cmd.MoveTo(Point(x, y))]
      ensures path == PathAfterMoveTo(old(path), Point(x, y))
      ensures strokes == old(strokes)
    {
      calls := calls + [Cmd.MoveTo(Point(x, y))];
      path := path + [Subpath(Point(x, y), [])];
    }

    method LineTo(x: real, y: real)
      modifies this
      ensures calls == old(calls) + [Cmd.LineTo(Point(x, y))]
      ensures path == PathAfterLineTo(old(path), Point(x, y))
      ensures strokes == old(strokes)
    {
      calls := calls + [Cmd.LineTo(Point(x, y))];
      var p := Point(x, y);
      if path == [] {
        path := [Subpath(p, [])];
      } else {
        path := Extend(path, [Line(LastPoint(path[|path| - 1]), p)]);
      }
    }

    /** Returns false when the call throws an IndexSizeError (negative
        radius); the path is then left as it was. */
    method Arc(x: real, y: real, radius: real, startAngle: int, endAngle: int) returns (ok: bool)
      modifies this
      ensures calls == old(calls) + [Cmd.Arc(Point(x, y), radius, startAngle, endAngle)]
      ensures ok <==> radius >= 0.0
      ensures ok ==> path == PathAfterArc(old(path), Point(x, y), radius, startAngle, endAngle)
      ensures !ok ==> path == old(path)
      ensures strokes == old(strokes)
    {
      calls := calls + [Cmd.Arc(Point(x, y), radius, startAngle, endAngle)];
      if radius < 0.0 {
        return false;
      }
      var curve := Curve(Point(x, y), radius, startAngle, Sweep(startAngle, endAngle));
      if path == [] {
        path := [Subpath(StartOf(curve), [curve])];
      } else {
        path := Extend(path, [Connector(LastPoint(path[|path| - 1]), StartOf(curve)), curve]);
      }
      ok := true;
    }

    /** stroke(): renders the current default path and leaves it as it is. */
    method Stroke()
      modifies this
      ensures calls == old(calls) + [Cmd.Stroke]
      ensures path == old(path) && strokes == old(strokes) + [path]
    {
      calls := calls + [Cmd.Stroke];
      strokes := strokes + [path];
    }
  }
}
