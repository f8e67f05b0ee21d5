/**
 * The earlier engine (game.js): always running from page load, no pause and
 * no start key. Each tick first tests the CURRENT head against the walls and
 * the body, and only then moves; arrow keys change the direction at once,
 * each checked against the direction as it is at that moment.
 *
 * `State` is the value of the globals, `Tick` and `Press` what a tick and a
 * key press do to it, `Inv` what every reachable state satisfies; `Game`
 * holds the globals as fields.
 */
module SnakePrototype {
  import opened Wrappers
  import opened Board

  /** The globals of game.js. `speed` is declared but no live code reads or changes it. */
  datatype State = State(
    snake: seq<Cell>,
    food: Cell,
    direction: Direction,
    score: int,
    speed: int,
    gameOver: bool)

  /** The collision tests of `update`, applied to the current head before any move. */
  predicate Collides(s: State)
    requires |s.snake| > 0
  {
    CheckWallCollision(s.snake[0]) || CheckSelfCollision(s.snake, s.snake[0])
  }

  /** Where a tick that does not collide puts the head. */
  function NextHead(s: State): Cell
    requires |s.snake| > 0
  {
    Move(s.snake[0], s.direction)
  }

  /** The next tick moves the head onto the food. */
  predicate Eats(s: State)
    requires |s.snake| > 0
  {
    !s.gameOver && !Collides(s) && NextHead(s) == s.food
  }

  /** `randomFoodPosition` after a meal can return `f`. */
  predicate FoodChoiceOk(s: State, f: Cell)
    requires |s.snake| > 0
  {
    Eats(s) ==> OnGrid(f) && f !in [NextHead(s)] + s.snake
  }

  /**
   * What every reachable state satisfies. The head is tile-aligned but may
   * stand one tile outside the board or on a body segment: that is detected
   * only by the following tick. The body behind it is made of distinct grid
   * cells, the food is on a free grid cell, and `speed` keeps its initial value.
   */
  predicate Inv(s: State)
  {
    && |s.snake| >= 1
    && Aligned(s.snake[0])
    && (forall i :: 1 <= i < |s.snake| ==> OnGrid(s.snake[i]))
    && Distinct(s.snake[1..])
    && OnGrid(s.food) && s.food !in s.snake
    && s.score >= 0
    && s.speed == 200
  }

  /** The values the script starts with (and `resetGame` restores, `speed` apart). */
  function Initial(food: Cell): State
  {
    State(StartSnake, food, Right, 0, 200, false)
  }

  /** `resetGame`: the starting snake facing right, fresh food, score 0; `speed` is untouched. */
  function Reset(s: State, newFood: Cell): State
  {
    s.(snake := StartSnake, direction := Right, food := newFood, score := 0, gameOver := false)
  }

  /**
   * One timer tick (`update`). `newFood` is the cell `randomFoodPosition`
   * returns when the snake eats; it is not used otherwise.
   */
  function Tick(s: State, newFood: Cell): State
    requires |s.snake| > 0
  {
    if s.gameOver then
      s
    else if CheckWallCollision(s.snake[0]) || CheckSelfCollision(s.snake, s.snake[0]) then
      s.(gameOver := true)
    else
      var head := Move(s.snake[0], s.direction);
      var grown := [head] + s.snake;
      if head == s.food then
        s.(snake := grown, score := s.score + 1, food := newFood)
      else
        s.(snake := grown[..|grown| - 1])
  }

  /**
   * The keydown listener: R (either case) resets after a game over, then an
   * arrow key turns the snake unless it asks for the reverse of the current
   * direction. `newFood` is the food a reset places.
   */
  function Press(s: State, key: string, newFood: Cell): State
  {
    var s' := if (key == "r" || key == "R") && s.gameOver then Reset(s, newFood) else s;
    match ArrowDirection(key)
    case Some(d) => if s'.direction != Opposite(d) then s'.(direction := d) else s'
    case None => s'
  }

  // ---------------------------------------------------------------------------
  // Properties of the specification.

  lemma InitialValid(f: Cell)
    requires OnGrid(f) && f !in StartSnake
    ensures Inv(Initial(f))
  {
  }

  /** A tick does nothing once the game is over. */
  lemma TickIdleWhenOver(s: State, f: Cell)
    requires |s.snake| > 0 && s.gameOver
    ensures Tick(s, f) == s
  {
  }

  /**
   * On a valid state, the collision tests say: the current head is off the
   * board, or it coincides with a segment of the body behind it.
   */
  lemma CollidesMeans(s: State)
    requires Inv(s)
    ensures Collides(s) <==> !OnGrid(s.snake[0]) || s.snake[0] in s.snake[1..]
  {
  }

  /** A colliding tick ends the game and changes nothing else: snake, food and score stay. */
  lemma TickCollision(s: State, f: Cell)
    requires |s.snake| > 0 && !s.gameOver && Collides(s)
    ensures Tick(s, f) == s.(gameOver := true)
  {
  }

  /**
   * A tick that does not collide moves the head one tile in `direction`; the
   * old snake follows behind it, minus its tail unless food was eaten, in
   * which case score and length each rise by one.
   */
  lemma TickMove(s: State, f: Cell)
    requires |s.snake| > 0 && !s.gameOver && !Collides(s)
    ensures var t := Tick(s, f);
      && |t.snake| > 0 && t.snake[0] == Move(s.snake[0], s.direction)
      && !t.gameOver && t.direction == s.direction && t.speed == s.speed
      && (if Eats(s) then
            t.snake[1..] == s.snake && |t.snake| == |s.snake| + 1 && t.score == s.score + 1 && t.food == f
          else
            t.snake[1..] == s.snake[..|s.snake| - 1] && |t.snake| == |s.snake| && t.score == s.score
            && t.food == s.food)
  {
  }

  /** Every tick keeps the invariant, given a food cell the generator could return. */
  lemma TickKeepsInv(s: State, f: Cell)
    requires Inv(s) && FoodChoiceOk(s, f)
    ensures Inv(Tick(s, f))
  {
    if !s.gameOver && !Collides(s) {
      var head := s.snake[0];
      assert OnGrid(head);
      MoveStaysOnGridUnlessWall(head, s.direction);
      SelfCollisionOnBody(s.snake);
      assert Distinct(s.snake) by {
        forall i, j | 0 <= i < j < |s.snake| ensures s.snake[i] != s.snake[j] {
          if i == 0 { assert s.snake[j] == s.snake[1..][j - 1]; }
          else { assert s.snake[i] == s.snake[1..][i - 1] && s.snake[j] == s.snake[1..][j - 1]; }
        }
      }
    }
  }

  /**
   * Game over comes one tick late: a tick from a valid state can put the head
   * off the board without ending the game, and only the next tick notices,
   * leaving the snake where it is.
   */
  lemma LateWallDetection(s: State, f: Cell)
    requires Inv(s) && !s.gameOver && !Collides(s)
    requires CheckWallCollision(NextHead(s))
    ensures var t := Tick(s, f);
      && !t.gameOver && CheckWallCollision(t.snake[0])
      && Tick(t, f) == t.(gameOver := true)
  {
  }

  /**
   * A single arrow key sets the asked direction exactly when that is not the
   * reverse of the direction before that key, and otherwise leaves it; so it
   * never reverses the snake by itself.
   */
  lemma PressArrowNeverReverses(s: State, key: string, f: Cell)
    requires ArrowDirection(key).Some?
    ensures var t := Press(s, key, f);
      && t.direction != Opposite(s.direction)
      && (t.direction == s.direction || t.direction == ArrowDirection(key).value)
      && t == s.(direction := t.direction)
    ensures var d := ArrowDirection(key).value;
      Press(s, key, f).direction == if s.direction != Opposite(d) then d else s.direction
  {
  }

  /**
   * Because each arrow key is checked against the direction already changed
   * by the key before it, ArrowUp then ArrowLeft, pressed between two ticks
   * while moving right, make the snake go left: the next tick moves the head
   * back onto its neck, and the tick after that ends the game.
   */
  lemma TwoPressesReverseIntoNeck(s: State, f: Cell)
    requires Inv(s) && !s.gameOver && !Collides(s)
    requires |s.snake| >= 3 && s.direction == Right && s.snake[1] == Move(s.snake[0], Left)
    ensures var k := Press(Press(s, "ArrowUp", f), "ArrowLeft", f);
      && k.direction == Left == Opposite(s.direction)
      && var t := Tick(k, f);
      && t.snake[0] == s.snake[1]
      && !t.gameOver
      && Tick(t, f).gameOver
  {
    var k := Press(Press(s, "ArrowUp", f), "ArrowLeft", f);
    assert k == s.(direction := Left);
    assert NextHead(k) == s.snake[1];
    assert s.snake[1] != s.food;
    var t := Tick(k, f);
    assert t.snake == ([s.snake[1]] + s.snake)[..|s.snake|];
    assert t.snake[2] == t.snake[0];
  }

  /**
   * R (either case) acts only after a game over, and restores the starting
   * snake, RIGHT, score 0 and a running game with fresh food; `speed` stays.
   */
  lemma PressRestart(s: State, key: string, f: Cell)
    requires key == "r" || key == "R"
    ensures Press(s, key, f) == if s.gameOver then Reset(s, f) else s
    ensures s.gameOver ==> var t := Press(s, key, f);
      t.snake == [Cell(200, 200), Cell(180, 200), Cell(160, 200)] && t.direction == Right
      && t.score == 0 && !t.gameOver && t.food == f && t.speed == s.speed
  {
  }

  /** Any key other than R/r and the four arrows changes nothing. */
  lemma PressOtherKey(s: State, key: string, f: Cell)
    requires key != "r" && key != "R"
    requires ArrowDirection(key).None?
    ensures Press(s, key, f) == s
  {
  }

  /** Every key press keeps the invariant, given food the generator could return on a reset. */
  lemma PressKeepsInv(s: State, key: string, f: Cell)
    requires Inv(s)
    requires (key == "r" || key == "R") && s.gameOver ==> OnGrid(f) && f !in StartSnake
    ensures Inv(Press(s, key, f))
  {
  }

  // ---------------------------------------------------------------------------
  // The game globals, updated in place.

  class Game {
    var snake: seq<Cell>
    var food: Cell
    var direction: Direction
    var score: int
    var speed: int
    var gameOver: bool

    function Current(): State
      reads this
    {
      State(snake, food, direction, score, speed, gameOver)
    }

    predicate Valid()
      reads this
    {
      Inv(Current())
    }

    /** Loading the script: the globals in declaration order, food placed against the starting snake. */
    constructor ()
      ensures Valid() && Current() == Initial(food)
    {
      gameOver := false;
      speed := 200;
      snake := StartSnake;
      direction := Right;
      food := Cell(0, 0);
      score := 0;
      new;
      StartSnakeValid();
      food := RandomFoodPosition(snake);
      InitialValid(food);
    }

    /** `update`, one tick of the timer. */
    method Update()
      requires Valid()
      requires Eats(Current()) ==> |snake| + 1 < CellCount
      modifies this`snake, this`food, this`score, this`gameOver
      ensures Valid()
      ensures Current() == Tick(old(Current()), food)
    {
      ghost var s := Current();
      if gameOver {
        return;
      }
      var head := snake[0];
      if CheckWallCollision(head) || CheckSelfCollision(snake, head) {
        gameOver := true;
        return;
      }
      match direction {
        case Up => head := head.(y := head.y - TileSize);
        case Down => head := head.(y := head.y + TileSize);
        case Left => head := head.(x := head.x - TileSize);
        case Right => head := head.(x := head.x + TileSize);
      }
      snake := [head] + snake;
      if head == food {
        score := score + 1;
        food := RandomFoodPosition(snake);
      } else {
        snake := snake[..|snake| - 1];
      }
      assert Current() == Tick(s, food);
      TickKeepsInv(s, food);
    }

    /** `resetGame`; `speed` is not touched. */
    method ResetGame()
      modifies this`snake, this`direction, this`food, this`score, this`gameOver
      ensures Current() == Reset(old(Current()), food)
      ensures OnGrid(food) && food !in snake
    {
      snake := StartSnake;
      direction := Right;
      food := RandomFoodPosition(snake);
      score := 0;
      gameOver := false;
    }

    /** The keydown listener, for the event's `key` string. */
    method HandleKeyDown(key: string)
      requires Valid()
      modifies this`snake, this`direction, this`food, this`score, this`gameOver
      ensures Valid()
      ensures Current() == Press(old(Current()), key, food)
    {
      ghost var s := Current();
      if key == "r" || key == "R" {
        if gameOver {
          ResetGame();
        }
      }
      if key == "ArrowUp" {
        if direction != Down { direction := Up; }
      } else if key == "ArrowDown" {
        if direction != Up { direction := Down; }
      } else if key == "ArrowLeft" {
        if direction != Right { direction := Left; }
      } else if key == "ArrowRight" {
        if direction != Left { direction := Right; }
      }
      PressKeepsInv(s, key, food);
    }
  }
}
