/**
 * The playing field shared by both engines: a 400 x 400 canvas cut into
 * 20 x 20 tiles, cells addressed by the pixel coordinates of their top-left
 * corner, the four directions of travel, and the two collision tests.
 */
module Board {
  import opened Wrappers

  /** Edge of one tile, in pixels. */
  const TileSize: int := 20
  /** Edge of the square canvas, in pixels. */
  const CanvasSize: int := 400
  /** Tiles along one edge of the board. */
  const GridSize: int := 20
  /** Tiles on the whole board. */
  const CellCount: int := 400

  datatype Cell = Cell(x: int, y: int)

  datatype Direction = Up | Down | Left | Right

  /** The 180-degree reversal of a direction. */
  function Opposite(d: Direction): (r: Direction)
    ensures r != d
    ensures (d == Up <==> r == Down) && (d == Left <==> r == Right)
  {
    match d
    case Up => Down
    case Down => Up
    case Left => Right
    case Right => Left
  }

  lemma OppositeInvolution(d: Direction)
    ensures Opposite(Opposite(d)) == d
  {
  }

  /** The cell one tile away from `c` in direction `d`; y grows downwards. */
  function Move(c: Cell, d: Direction): Cell
  {
    match d
    case Up => c.(y := c.y - TileSize)
    case Down => c.(y := c.y + TileSize)
    case Left => c.(x := c.x - TileSize)
    case Right => c.(x := c.x + TileSize)
  }

  /** Both coordinates are multiples of the tile size. */
  predicate Aligned(c: Cell)
  {
    c.x % TileSize == 0 && c.y % TileSize == 0
  }

  /** A cell the food generator can produce: tile-aligned and inside the canvas. */
  predicate OnGrid(c: Cell)
  {
    0 <= c.x < CanvasSize && 0 <= c.y < CanvasSize && Aligned(c)
  }

  /** No cell occurs twice. */
  predicate Distinct(s: seq<Cell>)
  {
    forall i, j :: 0 <= i < j < |s| ==> s[i] != s[j]
  }

  /** `checkWallCollision`: the head lies outside the canvas. */
  function CheckWallCollision(head: Cell): bool
  {
    head.x < 0 || head.y < 0 || head.x >= CanvasSize || head.y >= CanvasSize
  }

  /** `checkSelfCollision`: some segment other than the one at index 0 is at `head`. */
  function CheckSelfCollision(snake: seq<Cell>, head: Cell): bool
  {
    exists i :: 1 <= i < |snake| && snake[i] == head
  }

  /** The direction an arrow key asks for; every other key asks for none. */
  function ArrowDirection(key: string): (r: Option<Direction>)
    ensures r == Some(Up) <==> key == "ArrowUp"
    ensures r == Some(Down) <==> key == "ArrowDown"
    ensures r == Some(Left) <==> key == "ArrowLeft"
    ensures r == Some(Right) <==> key == "ArrowRight"
  {
    if key == "ArrowUp" then Some(Up)
    else if key == "ArrowDown" then Some(Down)
    else if key == "ArrowLeft" then Some(Left)
    else if key == "ArrowRight" then Some(Right)
    else None
  }

  /** The three-segment snake both engines start from, head first, facing right. */
  const StartSnake: seq<Cell> := [Cell(200, 200), Cell(180, 200), Cell(160, 200)]

  lemma StartSnakeValid()
    ensures |StartSnake| == 3 && Distinct(StartSnake)
    ensures forall i :: 0 <= i < |StartSnake| ==> OnGrid(StartSnake[i])
    ensures StartSnake[1] == Move(StartSnake[0], Left)
  {
  }

  /** Moving one tile and then one tile back returns to the start. */
  lemma MoveThenBack(c: Cell, d: Direction)
    ensures Move(Move(c, d), Opposite(d)) == c
    ensures Move(c, d) != c
  {
  }

  /**
   * From a grid cell, one step lands on a grid cell exactly when the wall test
   * passes: the wall test is the whole of what keeps the snake on the board.
   */
  lemma MoveStaysOnGridUnlessWall(c: Cell, d: Direction)
    requires OnGrid(c)
    ensures Aligned(Move(c, d))
    ensures OnGrid(Move(c, d)) <==> !CheckWallCollision(Move(c, d))
  {
  }

  /**
   * The self-collision test run on the snake after the new head is put in
   * front (index 0) compares the head with every pre-move segment, the tail
   * included.
   */
  lemma SelfCollisionAfterUnshift(snake: seq<Cell>, head: Cell)
    ensures CheckSelfCollision([head] + snake, head) <==> head in snake
  {
    var grown := [head] + snake;
    if head in snake {
      var k :| 0 <= k < |snake| && snake[k] == head;
      assert grown[k + 1] == head;
    }
  }

  /** The self-collision test on the current snake asks whether its head recurs in its body. */
  lemma SelfCollisionOnBody(snake: seq<Cell>)
    requires |snake| > 0
    ensures CheckSelfCollision(snake, snake[0]) <==> snake[0] in snake[1..]
  {
  }

  // ---------------------------------------------------------------------------
  // Counting argument: a snake shorter than the board leaves a free grid cell,
  // so the rejection loop of the food generator has something to find.

  /** Row-major number of an aligned cell. */
  function CellIndex(c: Cell): int
  {
    (c.x / TileSize) * GridSize + c.y / TileSize
  }

  /** The grid cell with row-major number `i`. */
  function CellAt(i: int): Cell
  {
    Cell((i / GridSize) * TileSize, (i % GridSize) * TileSize)
  }

  lemma CellAtOnGrid(i: int)
    requires 0 <= i < CellCount
    ensures OnGrid(CellAt(i)) && CellIndex(CellAt(i)) == i
  {
  }

  /** Row-major numbers of the cells of `s`. */
  function Indices(s: seq<Cell>): set<int>
  {
    if s == [] then {} else {CellIndex(s[0])} + Indices(s[1..])
  }

  lemma {:induction false} IndicesBound(s: seq<Cell>)
    ensures |Indices(s)| <= |s|
    ensures forall c :: c in s ==> CellIndex(c) in Indices(s)
  {
    if s != [] {
      IndicesBound(s[1..]);
      assert forall c :: c in s ==> c == s[0] || c in s[1..];
    }
  }

  /** The numbers below `n`. */
  function Below(n: nat): set<int>
  {
    if n == 0 then {} else Below(n - 1) + {n - 1}
  }

  lemma {:induction false} BelowCard(n: nat)
    ensures |Below(n)| == n
    ensures forall i :: i in Below(n) <==> 0 <= i < n
  {
    if n > 0 {
      BelowCard(n - 1);
    }
  }

  lemma SubsetCard(a: set<int>, b: set<int>)
    requires a <= b
    ensures |a| <= |b|
  {
    assert b == a + (b - a);
  }

  /** Pigeonhole: fewer segments than tiles leaves at least one tile free. */
  lemma FreeCellExists(s: seq<Cell>)
    requires |s| < CellCount
    ensures exists c :: OnGrid(c) && c !in s
  {
    IndicesBound(s);
    BelowCard(CellCount);
    if forall i :: 0 <= i < CellCount ==> CellAt(i) in s {
      forall i | i in Below(CellCount)
        ensures i in Indices(s)
      {
        CellAtOnGrid(i);
      }
      SubsetCard(Below(CellCount), Indices(s));
      assert false;
    }
    var i :| 0 <= i < CellCount && CellAt(i) !in s;
    CellAtOnGrid(i);
  }

  /**
   * `randomFoodPosition`: any grid cell no segment of `snake` occupies. The
   * source draws cells at random until one is free, so every free cell can
   * come out and no other can.
   */
  method RandomFoodPosition(snake: seq<Cell>) returns (position: Cell)
    requires |snake| < CellCount
    ensures OnGrid(position) && position !in snake
  {
    FreeCellExists(snake);
    position :| OnGrid(position) && position !in snake;
  }
}
