/**
 * Grid geometry: integer points and displacement vectors (Point2D, Vector2D)
 * and the four compass orientations with their unit vectors and turns
 * (EOrientation). The first coordinate is the row, the second the column,
 * so North moves one row up and East one column right.
 */
module Geometry {

  /** A displacement (Vector2D). */
  datatype Vector = Vector(dx: int, dy: int)

  /** A cell coordinate (Point2D): row `x`, column `y`. */
  datatype Point = Point(x: int, y: int)

  /** Point2D.__add__: a point displaced by a vector. */
  function Add(p: Point, v: Vector): Point
  {
    Point(p.x + v.dx, p.y + v.dy)
  }

  function Negate(v: Vector): Vector
  {
    Vector(-v.dx, -v.dy)
  }

  /** Displacing by `v` and then by its opposite returns to the starting
      point, and displacing two points by the same vector keeps them apart. */
  lemma AddCancels(p: Point, q: Point, v: Vector)
    ensures Add(Add(p, v), Negate(v)) == p
    ensures Add(p, v) == Add(q, v) <==> p == q
  {
  }

  /** EOrientation: each orientation is bound to a unit vector. */
  datatype Orientation = North | West | South | East

  /** The unit vector of an orientation: exactly one coordinate moves, by one. */
  function Unit(o: Orientation): (v: Vector)
    ensures (v.dx == 0) != (v.dy == 0)
    ensures -1 <= v.dx <= 1 && -1 <= v.dy <= 1
  {
    match o
    case North => Vector(-1, 0)
    case West => Vector(0, -1)
    case South => Vector(1, 0)
    case East => Vector(0, 1)
  }

  /** Different orientations move in different directions. */
  lemma UnitInjective(o: Orientation, p: Orientation)
    ensures Unit(o) == Unit(p) <==> o == p
  {
  }

  /** A quarter turn clockwise: in (row, column) coordinates the unit vector
      (dx, dy) becomes (dy, -dx). */
  function TurnRight(o: Orientation): (r: Orientation)
    ensures Unit(r) == Vector(Unit(o).dy, -Unit(o).dx)
  {
    match o
    case North => East
    case West => North
    case South => West
    case East => South
  }

  /** A quarter turn anticlockwise: (dx, dy) becomes (-dy, dx). */
  function TurnLeft(o: Orientation): (r: Orientation)
    ensures Unit(r) == Vector(-Unit(o).dy, Unit(o).dx)
  {
    match o
    case North => West
    case West => South
    case South => East
    case East => North
  }

  /** A half turn: the unit vector is reversed. */
  function TurnAround(o: Orientation): (r: Orientation)
    ensures Unit(r) == Negate(Unit(o))
  {
    match o
    case North => South
    case West => East
    case South => North
    case East => West
  }

  /** Four right turns bring an orientation back to itself. */
  lemma FourRightTurns(o: Orientation)
    ensures TurnRight(TurnRight(TurnRight(TurnRight(o)))) == o
  {
    match o
    case North =>
    case West =>
    case South =>
    case East =>
  }

  /** A left turn undoes a right turn and the other way round. */
  lemma LeftUndoesRight(o: Orientation)
    ensures TurnLeft(TurnRight(o)) == o
    ensures TurnRight(TurnLeft(o)) == o
  {
    match o
    case North =>
    case West =>
    case South =>
    case East =>
  }

  /** A half turn is two right turns (and two left turns), and undoes itself. */
  lemma AroundIsTwoTurns(o: Orientation)
    ensures TurnAround(o) == TurnRight(TurnRight(o))
    ensures TurnAround(o) == TurnLeft(TurnLeft(o))
    ensures TurnAround(TurnAround(o)) == o
  {
    match o
    case North =>
    case West =>
    case South =>
    case East =>
  }

  /** The four choices right, straight, left and back are the four
      orientations, each once. */
  lemma ChoicesAreAllOrientations(o: Orientation, d: Orientation)
    ensures d == TurnRight(o) || d == o || d == TurnLeft(o) || d == TurnAround(o)
    ensures TurnRight(o) != o && TurnLeft(o) != o && TurnAround(o) != o
    ensures TurnRight(o) != TurnLeft(o) && TurnRight(o) != TurnAround(o) && TurnLeft(o) != TurnAround(o)
  {
    match o
    case North =>
    case West =>
    case South =>
    case East =>
  }
}
