/** The tick simulation of PacManGameSingleFile.java: Pac-Man moves one
    20-pixel tile per tick on a 25 by 25 board whose edges wrap around, and
    eats the pellet of the tile it lands on. There is no way to win or lose. */
module PacMan {
  import opened Grid

  const TILE_SIZE := 20
  const GRID_SIZE := 25
  /** Width and height of the board in pixels. */
  const SPAN := GRID_SIZE * TILE_SIZE

  /** The arrow keys `handleKeyPress` reacts to; every other key is `OtherKey`. */
  datatype Key = UpKey | DownKey | LeftKey | RightKey | OtherKey

  /** A pixel coordinate at the corner of a tile of the board. */
  predicate OnTile(c: int)
  {
    0 <= c <= (GRID_SIZE - 1) * TILE_SIZE && c % TILE_SIZE == 0
  }

  /** Standing still or one of the four unit vectors. */
  predicate UnitOrZero(dx: int, dy: int)
  {
    (dx == 0 && -1 <= dy <= 1) || (dy == 0 && -1 <= dx <= 1)
  }

  /** `handleKeyPress`: an arrow key sets one of the four unit vectors,
      whatever the current direction is (reversing is allowed); any other
      key keeps the direction. */
  function Heading(k: Key, dx: int, dy: int): (r: (int, int))
    ensures k == OtherKey ==> r == (dx, dy)
    ensures k != OtherKey ==> UnitOrZero(r.0, r.1) && r != (0, 0)
    ensures k == UpKey ==> r == (0, -1)
    ensures k == DownKey ==> r == (0, 1)
    ensures k == LeftKey ==> r == (-1, 0)
    ensures k == RightKey ==> r == (1, 0)
  {
    match k
    case UpKey => (0, -1)
    case DownKey => (0, 1)
    case LeftKey => (-1, 0)
    case RightKey => (1, 0)
    case OtherKey => (dx, dy)
  }

  /** One axis of `movePacMan`: move `d` tiles, then send a coordinate that
      left the board in to the opposite edge. From a tile corner with a unit
      or zero step this is movement on a ring of 25 tiles: the result is
      `(c + 20 * d) mod 500`, again a tile corner; with no step nothing moves. */
  function Step(c: int, d: int): (r: int)
    ensures OnTile(c) && -1 <= d <= 1 ==> OnTile(r) && r == (c + d * TILE_SIZE) % SPAN
    ensures 0 <= c < SPAN && d == 0 ==> r == c
  {
    var moved := c + d * TILE_SIZE;
    var low := if moved < 0 then (GRID_SIZE - 1) * TILE_SIZE else moved;
    if low >= GRID_SIZE * TILE_SIZE then 0 else low
  }

  /** Leaving through an edge comes back through the opposite one. */
  lemma WrapAround()
    ensures Step(0, -1) == (GRID_SIZE - 1) * TILE_SIZE
    ensures Step((GRID_SIZE - 1) * TILE_SIZE, 1) == 0
  {
  }

  /** The tile under a position, `(x / 20, y / 20)`: Java's division
      truncates, which is Dafny's division on these non-negative values. */
  function TileOf(x: int, y: int): (c: Point)
    ensures OnTile(x) && OnTile(y) ==>
              InBlock(c, GRID_SIZE, GRID_SIZE) && c.x * TILE_SIZE == x && c.y * TILE_SIZE == y
  {
    Point(x / TILE_SIZE, y / TILE_SIZE)
  }

  /** `checkPelletCollision` on the set of tiles that still hold a pellet:
      the tile's pellet goes, nothing else changes, so the count drops by
      one or stays; a tile already eaten leaves the set as it was. */
  function Eat(pellets: set<Point>, c: Point): (r: set<Point>)
    ensures r <= pellets && c !in r
    ensures forall p :: p in pellets && p != c ==> p in r
    ensures |pellets| - 1 <= |r| <= |pellets|
    ensures c !in pellets ==> r == pellets
  {
    if c in pellets then pellets - {c} else pellets
  }

  /** Eating is idempotent. */
  lemma EatTwice(pellets: set<Point>, c: Point)
    ensures Eat(Eat(pellets, c), c) == Eat(pellets, c)
  {
  }

  /** The pellet grid of `initGame`: a pellet on every tile. */
  method FullGrid() returns (grid: array2<bool>)
    ensures fresh(grid)
    ensures grid.Length0 == GRID_SIZE && grid.Length1 == GRID_SIZE
    ensures forall i, j :: 0 <= i < GRID_SIZE && 0 <= j < GRID_SIZE ==> grid[i, j]
  {
    grid := new bool[GRID_SIZE, GRID_SIZE];
    for i := 0 to GRID_SIZE
      invariant forall a, b :: 0 <= a < i && 0 <= b < GRID_SIZE ==> grid[a, b]
    {
      for j := 0 to GRID_SIZE
        invariant forall a, b :: 0 <= a < i && 0 <= b < GRID_SIZE ==> grid[a, b]
        invariant forall b :: 0 <= b < j ==> grid[i, b]
      {
        grid[i, j] := true;
      }
    }
  }

  class Game {
    var pacManX: int
    var pacManY: int
    var directionX: int
    var directionY: int
    var pellets: array2<bool>

    /** A 25 by 25 pellet grid, Pac-Man on a tile corner, a unit or zero heading. */
    ghost predicate Valid()
      reads this
    {
      pellets.Length0 == GRID_SIZE && pellets.Length1 == GRID_SIZE &&
      OnTile(pacManX) && OnTile(pacManY) && UnitOrZero(directionX, directionY)
    }

    /** The tiles that still hold a pellet. */
    ghost function Remaining(): set<Point>
      reads this`pellets, pellets
      requires pellets.Length0 == GRID_SIZE && pellets.Length1 == GRID_SIZE
    {
      set i, j | 0 <= i < GRID_SIZE && 0 <= j < GRID_SIZE && pellets[i, j] :: Point(i, j)
    }

    /** The panel's constructor running `initGame`: Pac-Man in the middle
        tile, standing still, and a pellet on every one of the 625 tiles. */
    constructor ()
      ensures Valid() && fresh(pellets)
      ensures pacManX == 240 && pacManY == 240 && directionX == 0 && directionY == 0
      ensures forall i, j :: 0 <= i < GRID_SIZE && 0 <= j < GRID_SIZE ==> pellets[i, j]
      ensures forall p :: p in Remaining() <==> InBlock(p, GRID_SIZE, GRID_SIZE)
      ensures |Remaining()| == 625
    {
      pacManX := GRID_SIZE / 2 * TILE_SIZE;
      pacManY := GRID_SIZE / 2 * TILE_SIZE;
      directionX := 0;
      directionY := 0;
      var grid := FullGrid();
      pellets := grid;
      new;
      forall p | InBlock(p, GRID_SIZE, GRID_SIZE)
        ensures p in Remaining()
      {
        assert pellets[p.x, p.y];
      }
      BlockCard(Remaining(), GRID_SIZE, GRID_SIZE);
    }

    /** `handleKeyPress`. */
    method HandleKeyPress(key: Key)
      modifies this`directionX, this`directionY
      requires Valid()
      ensures Valid()
      ensures (directionX, directionY) == Heading(key, old(directionX), old(directionY))
    {
      match key
      case UpKey =>
        directionX := 0;
        directionY := -1;
      case DownKey =>
        directionX := 0;
        directionY := 1;
      case LeftKey =>
        directionX := -1;
        directionY := 0;
      case RightKey =>
        directionX := 1;
        directionY := 0;
      case OtherKey =>
    }

    /** `movePacMan`. */
    method MovePacMan()
      modifies this`pacManX, this`pacManY
      requires Valid()
      ensures Valid()
      ensures pacManX == Step(old(pacManX), directionX) && pacManY == Step(old(pacManY), directionY)
    {
      pacManX := pacManX + directionX * TILE_SIZE;
      pacManY := pacManY + directionY * TILE_SIZE;
      if pacManX < 0 {
        pacManX := (GRID_SIZE - 1) * TILE_SIZE;
      }
      if pacManX >= GRID_SIZE * TILE_SIZE {
        pacManX := 0;
      }
      if pacManY < 0 {
        pacManY := (GRID_SIZE - 1) * TILE_SIZE;
      }
      if pacManY >= GRID_SIZE * TILE_SIZE {
        pacManY := 0;
      }
    }

    /** `checkPelletCollision`: the index is in bounds, the pellet under
        Pac-Man is cleared and no other cell changes; on an eaten tile the
        array is left as it was. */
    method CheckPelletCollision()
      modifies pellets
      requires Valid()
      ensures Valid()
      ensures var c := TileOf(pacManX, pacManY);
              !pellets[c.x, c.y] &&
              (forall i, j :: 0 <= i < GRID_SIZE && 0 <= j < GRID_SIZE && (i != c.x || j != c.y) ==>
                 pellets[i, j] == old(pellets[i, j])) &&
              (!old(pellets[c.x, c.y]) ==> unchanged(pellets))
      ensures Remaining() == Eat(old(Remaining()), TileOf(pacManX, pacManY))
    {
      var gridX := pacManX / TILE_SIZE;
      var gridY := pacManY / TILE_SIZE;
      if pellets[gridX, gridY] {
        pellets[gridX, gridY] := false;
      }
    }

    /** `actionPerformed`: move, then eat. The pellet count never goes up
        and drops by at most one per tick. */
    method Tick()
      modifies this`pacManX, this`pacManY, pellets
      requires Valid()
      ensures Valid()
      ensures pacManX == Step(old(pacManX), directionX) && pacManY == Step(old(pacManY), directionY)
      ensures Remaining() == Eat(old(Remaining()), TileOf(pacManX, pacManY))
      ensures |old(Remaining())| - 1 <= |Remaining()| <= |old(Remaining())|
    {
      MovePacMan();
      CheckPelletCollision();
    }
  }
}
