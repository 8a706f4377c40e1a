/** Points of the drawing surface and the exact trigonometry of quarter turns.

    Coordinates are exact reals (surface units, origin top-left, y growing
    downward). Every angle the rounded-rectangle routine passes to arc() is a
    multiple of pi/2, so an angle is written as an integer number of quarter
    turns k, standing for k * pi/2 radians; cosine and sine are then exactly
    -1, 0 or 1.
 */
module Geometry {

  datatype Point = Point(x: real, y: real)

  /** cos(k * pi/2) */
  function Cos(k: int): real {
    var m := k % 4;
    if m == 0 then 1.0 else if m == 2 then -1.0 else 0.0
  }

  /** sin(k * pi/2); with y growing downward, a positive angle turns clockwise on screen
      under the identity transform */
  function Sin(k: int): real {
    var m := k % 4;
    if m == 1 then 1.0 else if m == 3 then -1.0 else 0.0
  }

  function Sq(v: real): real { v * v }

  /** The point at angle k * pi/2 on the circle of the given centre and radius. */
  function OnCircle(center: Point, radius: real, k: int): Point {
    Point(center.x + radius * Cos(k), center.y + radius * Sin(k))
  }

  /** A point at a quarter-turn angle lies on the circle, straight left, right,
      above or below the centre. */
  lemma OnCircleDistance(center: Point, radius: real, k: int)
    ensures var p := OnCircle(center, radius, k);
      Sq(p.x - center.x) + Sq(p.y - center.y) == Sq(radius)
      && (p.x == center.x || p.y == center.y)
  {
    var p := OnCircle(center, radius, k);
    var m := k % 4;
    if m == 0 || m == 2 {
      assert p.y - center.y == 0.0;
      assert Sq(p.x - center.x) == Sq(radius) by {
        assert p.x - center.x == radius || p.x - center.x == -radius;
      }
    } else {
      assert p.x - center.x == 0.0;
      assert Sq(p.y - center.y) == Sq(radius) by {
        assert p.y - center.y == radius || p.y - center.y == -radius;
      }
    }
  }

  /** A point no further than radius from the centre lies in the square of
      side 2 * radius around it. */
  lemma WithinRadius(center: Point, radius: real, p: Point)
    requires 0.0 <= radius && Sq(p.x - center.x) + Sq(p.y - center.y) <= Sq(radius)
    ensures center.x - radius <= p.x <= center.x + radius
    ensures center.y - radius <= p.y <= center.y + radius
  {
    var dx, dy := p.x - center.x, p.y - center.y;
    assert Sq(dy) >= 0.0 && Sq(dx) >= 0.0;
    SquareBound(dx, radius);
    SquareBound(dy, radius);
  }

  /** -b <= v <= b when v * v <= b * b and b is not negative. */
  lemma SquareBound(v: real, b: real)
    requires 0.0 <= b && Sq(v) <= Sq(b)
    ensures -b <= v <= b
  {
    assert Sq(-v) == Sq(v);
    if v > b {
      SquareGrows(v, b);
      assert false;
    } else if v < -b {
      SquareGrows(-v, b);
      assert false;
    }
  }

  /** b * b < a * a when 0 <= b < a. */
  lemma SquareGrows(a: real, b: real)
    requires 0.0 <= b < a
    ensures Sq(b) < Sq(a)
  {
    ScaleStrict(a, b, a);
    ScaleMonotone(a, b, b);
    assert Mul(a, b) == Mul(b, a);
  }

  /** Products behind a function symbol, so that the solver chains the
      inequalities below linearly. */
  function Mul(a: real, b: real): real { a * b }

  lemma ScaleStrict(a: real, b: real, c: real)
    requires a > b && c > 0.0
    ensures Mul(a, c) > Mul(b, c)
  {
  }

  lemma ScaleMonotone(a: real, b: real, c: real)
    requires a >= b && c >= 0.0
    ensures Mul(a, c) >= Mul(b, c)
  {
  }
}
