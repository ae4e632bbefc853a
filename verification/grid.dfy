/** The dungeon lattice of `RoomManager`: cardinal directions, integer grid
    cells, and the grid-to-world mapping `world = grid * roomSize`. */
module Grid {

  /** `RoomManager.Direction`, in declaration order. */
  datatype Direction = North | East | South | West

  /** A `Vector2Int` grid cell. */
  datatype Cell = Cell(x: int, y: int)

  /** A world position. Room positions are whole multiples of the (integer)
      room size, so integer coordinates suffice. */
  datatype Point = Point(x: int, y: int)

  const Origin: Cell := Cell(0, 0)

  /** The order in which `System.Enum.GetValues` enumerates the directions,
      which is the order in which generation tries them. */
  const Directions: seq<Direction> := [North, East, South, West]

  /** `GetOppositeDirection`. */
  function Opposite(d: Direction): (r: Direction)
    ensures r != d
  {
    match d
    case North => South
    case East => West
    case South => North
    case West => East
  }

  /** The cell one step from `c` in direction `d`: North is +y, East +x,
      South -y, West -x (`Vector2Int.up/right/down/left`). */
  function Step(c: Cell, d: Direction): (r: Cell)
    ensures r != c
    ensures (d == North || d == South) ==> r.x == c.x && (r.y - c.y) * (r.y - c.y) == 1
    ensures (d == East || d == West) ==> r.y == c.y && (r.x - c.x) * (r.x - c.x) == 1
  {
    match d
    case North => Cell(c.x, c.y + 1)
    case East => Cell(c.x + 1, c.y)
    case South => Cell(c.x, c.y - 1)
    case West => Cell(c.x - 1, c.y)
  }

  lemma OppositeIsInvolution(d: Direction)
    ensures Opposite(Opposite(d)) == d
    ensures Opposite(d) != d
  {
  }

  /** Stepping by `d` and then by `Opposite(d)` returns to the starting cell. */
  lemma StepBack(c: Cell, d: Direction)
    ensures Step(Step(c, d), Opposite(d)) == c
  {
  }

  /** Distinct directions lead to distinct cells. */
  lemma StepInjective(c: Cell, d: Direction, e: Direction)
    ensures Step(c, d) == Step(c, e) ==> d == e
  {
  }

  /** `GetWorldPosition`. */
  function WorldPosition(c: Cell, width: int, height: int): Point
  {
    Point(c.x * width, c.y * height)
  }

  /** `Mathf.RoundToInt(a / b)` for a positive divisor: round to nearest,
      halves to the even neighbour (`Math.Round`'s default). */
  function RoundDiv(a: int, b: int): (r: int)
    requires b > 0
    ensures a % b == 0 ==> r == a / b
    ensures 2 * (a - r * b) <= b && -b <= 2 * (a - r * b)
    ensures 2 * (a - r * b) == b || 2 * (a - r * b) == -b ==> r % 2 == 0
  {
    var q := a / b;
    var rem := a % b;
    if 2 * rem < b then q
    else if 2 * rem > b then q + 1
    else if q % 2 == 0 then q
    else q + 1
  }

  /** The grid cell of a world position (the rounding in `CreateRoom` and
      `GetNewGridPosition`). */
  function GridPosition(p: Point, width: int, height: int): Cell
    requires width > 0 && height > 0
  {
    Cell(RoundDiv(p.x, width), RoundDiv(p.y, height))
  }

  /** The grid-to-world mapping has the world-to-grid rounding as its inverse. */
  lemma GridOfWorld(c: Cell, width: int, height: int)
    requires width > 0 && height > 0
    ensures GridPosition(WorldPosition(c, width, height), width, height) == c
  {
    assert (c.x * width) % width == 0 && (c.x * width) / width == c.x by {
      DivExact(c.x, width);
    }
    assert (c.y * height) % height == 0 && (c.y * height) / height == c.y by {
      DivExact(c.y, height);
    }
  }

  lemma DivExact(k: int, b: int)
    requires b > 0
    ensures (k * b) % b == 0 && (k * b) / b == k
  {
    var q, r := (k * b) / b, (k * b) % b;
    assert k * b == q * b + r && 0 <= r < b;
    var m := k - q;
    assert m * b == r by { assert m * b == k * b - q * b; }
    if m > 0 {
      MulAtLeast(m, b);
    } else if m < 0 {
      MulAtLeast(-m, b);
    }
  }

  lemma MulAtLeast(m: int, b: int)
    requires m >= 1 && b > 0
    ensures m * b >= b
  {
    assert m * b == (m - 1) * b + b;
    assert (m - 1) * b >= 0;
  }

  /** Distinct cells have distinct world positions. */
  lemma WorldPositionInjective(c: Cell, e: Cell, width: int, height: int)
    requires width > 0 && height > 0
    requires WorldPosition(c, width, height) == WorldPosition(e, width, height)
    ensures c == e
  {
    GridOfWorld(c, width, height);
    GridOfWorld(e, width, height);
  }

  /** `GetNewGridPosition`: the neighbouring cell, in direction `d`, of the
      cell that world position `p` rounds to. It is a different cell, one
      unit away, and walking back through the opposite side lands on the
      rounded cell again. */
  function NewGridPosition(p: Point, d: Direction, width: int, height: int): (r: Cell)
    requires width > 0 && height > 0
    ensures r != GridPosition(p, width, height)
    ensures Step(r, Opposite(d)) == GridPosition(p, width, height)
  {
    StepBack(GridPosition(p, width, height), d);
    Step(GridPosition(p, width, height), d)
  }

  /** For a room placed at a grid cell, `GetNewGridPosition` is the step from
      that cell. */
  lemma NewGridPositionOfRoom(c: Cell, d: Direction, width: int, height: int)
    requires width > 0 && height > 0
    ensures NewGridPosition(WorldPosition(c, width, height), d, width, height) == Step(c, d)
  {
    GridOfWorld(c, width, height);
  }

  /** The square of `Vector2.Distance`; it orders positions the same way. */
  function SquaredDistance(p: Point, q: Point): (r: int)
    ensures r >= 0
    ensures r == 0 <==> p == q
  {
    var dx := p.x - q.x;
    var dy := p.y - q.y;
    SquaresZero(dx, dy);
    dx * dx + dy * dy
  }

  lemma SquaresZero(a: int, b: int)
    ensures a * a + b * b >= 0
    ensures a * a + b * b == 0 <==> a == 0 && b == 0
  {
    if a != 0 {
      assert a * a > 0 by { if a > 0 { assert a * a >= a; } else { assert a * a == (-a) * (-a); } }
    }
    if b != 0 {
      assert b * b > 0 by { if b > 0 { assert b * b >= b; } else { assert b * b == (-b) * (-b); } }
    }
  }
}
