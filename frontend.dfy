/**
 * The browser engine (frontend/game.js): a snake that starts on Enter,
 * pauses on Space, restarts on R after a game over, buffers arrow keys in a
 * pending direction that the next tick commits, checks the moved head against
 * the walls and against every pre-move segment, and speeds the tick up every
 * fifth meal.
 *
 * `State` is the value of the game's globals; `Tick` and `Press` say what one
 * timer tick and one key press do to it; `Inv` is what every reachable state
 * satisfies. `Game` holds the same globals as fields and updates them in place.
 */
module SnakeFrontend {
  import opened Wrappers
  import opened Board
  import opened Leaderboard

  /** Tick period the game starts with. */
  const InitialSpeed: int := 200
  /** Amount `increaseSpeed` takes off the period. */
  const SpeedStep: int := 20
  /** The period is shortened only while it is above this. */
  const SpeedFloor: int := 50
  /** The period is shortened each time the score reaches a multiple of this. */
  const MealsPerLevel: int := 5
  /** The shortest period the ramp reaches: 200 - 8 * 20. */
  const FastestSpeed: int := 40

  /** The game globals; `started` stands for `interval != null`. */
  datatype State = State(
    snake: seq<Cell>,
    food: Cell,
    direction: Direction,
    nextDirection: Direction,
    score: int,
    speed: int,
    gameOver: bool,
    paused: bool,
    started: bool)

  /** What `init` sets up; it leaves the timer, and so `started`, alone. */
  function Initial(food: Cell, started: bool): State
  {
    State(StartSnake, food, Right, Right, 0, InitialSpeed, false, false, started)
  }

  /** Ticks have an effect only in this case. */
  predicate Running(s: State)
  {
    s.started && !s.paused && !s.gameOver
  }

  /** Where the next tick puts the head: one tile in the pending direction. */
  function NextHead(s: State): Cell
    requires |s.snake| > 0
  {
    Move(s.snake[0], s.nextDirection)
  }

  /** The two collision tests of `update`, run after the new head is put in front. */
  predicate Collides(s: State)
    requires |s.snake| > 0
  {
    var head := NextHead(s);
    CheckWallCollision(head) || CheckSelfCollision([head] + s.snake, head)
  }

  /** The next tick moves the head onto the food. */
  predicate Eats(s: State)
    requires |s.snake| > 0
  {
    Running(s) && !Collides(s) && NextHead(s) == s.food
  }

  /** `randomFoodPosition` after a meal can return `f`: a grid cell the grown snake leaves free. */
  predicate FoodChoiceOk(s: State, f: Cell)
    requires |s.snake| > 0
  {
    Eats(s) ==> OnGrid(f) && f !in [NextHead(s)] + s.snake
  }

  /** `randomFoodPosition` on the starting snake can return `f`. */
  predicate StartFoodOk(f: Cell)
  {
    OnGrid(f) && f !in StartSnake
  }

  /** Steps of the ramp from the initial period down to the fastest one. */
  const SpeedLevels: int := (InitialSpeed - FastestSpeed) / SpeedStep

  /** The speed the ramp has reached after `score` meals. */
  function SpeedFor(score: int): int
  {
    if score / MealsPerLevel >= SpeedLevels then FastestSpeed else InitialSpeed - SpeedStep * (score / MealsPerLevel)
  }

  /**
   * What every reachable state satisfies: a non-empty snake of distinct grid
   * cells, food on a free grid cell, a pending direction that does not
   * reverse the committed one, and the period the ramp gives for the score.
   */
  predicate Inv(s: State)
  {
    && |s.snake| >= 1
    && (forall i :: 0 <= i < |s.snake| ==> OnGrid(s.snake[i]))
    && Distinct(s.snake)
    && OnGrid(s.food) && s.food !in s.snake
    && s.nextDirection != Opposite(s.direction)
    && s.score >= 0
    && s.speed == SpeedFor(s.score)
  }

  /**
   * One timer tick (`update`). `newFood` is the cell `randomFoodPosition`
   * returns when the snake eats; it is not used otherwise.
   */
  function Tick(s: State, newFood: Cell): State
    requires |s.snake| > 0
  {
    if !Running(s) then
      s
    else
      var head := Move(s.snake[0], s.nextDirection);
      var grown := [head] + s.snake;
      if CheckWallCollision(head) || CheckSelfCollision(grown, head) then
        s.(direction := s.nextDirection, gameOver := true)
      else if head == s.food then
        var score := s.score + 1;
        s.(snake := grown, direction := s.nextDirection, score := score, food := newFood,
           speed := if score % MealsPerLevel == 0 && s.speed > SpeedFloor then s.speed - SpeedStep else s.speed)
      else
        s.(snake := grown[..|grown| - 1], direction := s.nextDirection)
  }

  /**
   * One key press (`handleKeyDown`), `key` being the event's `key` string.
   * `newFood` is the cell `randomFoodPosition` returns on a restart.
   */
  function Press(s: State, key: string, newFood: Cell): State
  {
    if key == "Enter" && !s.started then
      s.(started := true)
    else if key == " " then
      if s.started then s.(paused := !s.paused) else s
    else if (key == "r" || key == "R") && s.gameOver then
      Initial(newFood, false)
    else if s.started && !s.paused && !s.gameOver then
      match ArrowDirection(key)
      case Some(d) => if s.direction != Opposite(d) then s.(nextDirection := d) else s
      case None => s
    else
      s
  }

  // ---------------------------------------------------------------------------
  // Properties of the specification.

  /** The ramp keeps the period a multiple of 20 between 40 and 200. */
  lemma SpeedForRange(score: int)
    requires score >= 0
    ensures FastestSpeed <= SpeedFor(score) <= InitialSpeed
    ensures SpeedFor(score) % SpeedStep == 0
  {
  }

  /** One more meal moves the ramp exactly as `handleFoodCollision` does. */
  lemma SpeedForNextMeal(score: int)
    requires score >= 0
    ensures SpeedFor(score + 1) ==
      if (score + 1) % MealsPerLevel == 0 && SpeedFor(score) > SpeedFloor
      then SpeedFor(score) - SpeedStep else SpeedFor(score)
  {
  }

  lemma InitialValid(f: Cell, started: bool)
    requires StartFoodOk(f)
    ensures Inv(Initial(f, started))
  {
  }

  /**
   * The two collision tests, on a valid state, say: the new head is off the
   * board, or it is one of the cells the snake occupied before the move,
   * tail included.
   */
  lemma CollidesMeans(s: State)
    requires Inv(s)
    ensures Collides(s) <==> !OnGrid(NextHead(s)) || NextHead(s) in s.snake
  {
    MoveStaysOnGridUnlessWall(s.snake[0], s.nextDirection);
    SelfCollisionAfterUnshift(s.snake, NextHead(s));
  }

  /** A tick changes nothing unless the game is started, not paused and not over. */
  lemma TickIdle(s: State, f: Cell)
    requires |s.snake| > 0 && !Running(s)
    ensures Tick(s, f) == s
  {
  }

  /**
   * A colliding tick ends the game, commits the pending direction, and puts
   * the snake back exactly as it was (the `unshift` is undone by `shift`);
   * score, food, period and flags stay.
   */
  lemma TickCollision(s: State, f: Cell)
    requires |s.snake| > 0 && Running(s) && Collides(s)
    ensures Tick(s, f) == s.(direction := s.nextDirection, gameOver := true)
  {
  }

  /**
   * A tick that does not collide commits the pending direction and moves the
   * head one tile in it. Without food the length stays and the tail goes;
   * with food the whole old snake stays behind the head, the score and
   * length each grow by one, and every fifth meal shortens the period by 20
   * while it is above 50.
   */
  lemma TickMove(s: State, f: Cell)
    requires |s.snake| > 0 && Running(s) && !Collides(s)
    ensures var t := Tick(s, f);
      && t.direction == s.nextDirection && t.nextDirection == s.nextDirection
      && |t.snake| > 0 && t.snake[0] == Move(s.snake[0], s.nextDirection)
      && !t.gameOver && t.paused == s.paused && t.started == s.started
      && (if Eats(s) then
            t.snake[1..] == s.snake && |t.snake| == |s.snake| + 1 && t.score == s.score + 1 && t.food == f
            && t.speed == (if t.score % MealsPerLevel == 0 && s.speed > SpeedFloor then s.speed - SpeedStep else s.speed)
          else
            t.snake[1..] == s.snake[..|s.snake| - 1] && |t.snake| == |s.snake| && t.score == s.score
            && t.food == s.food && t.speed == s.speed)
  {
  }

  /** The length of the snake changes only on a meal, and then by exactly one, with the score. */
  lemma TickLengthChangesOnlyOnMeal(s: State, f: Cell)
    requires |s.snake| > 0
    ensures var t := Tick(s, f);
      (|t.snake| != |s.snake| || t.score != s.score) <==> Eats(s)
    ensures Eats(s) ==> |Tick(s, f).snake| == |s.snake| + 1 && Tick(s, f).score == s.score + 1
  {
  }

  /**
   * The period drops, by exactly 20, only on the meal that brings the score to
   * a multiple of five while the period is above 50; the timer stays running.
   */
  lemma TickSpeed(s: State, f: Cell)
    requires |s.snake| > 0
    ensures var t := Tick(s, f);
      && (t.speed != s.speed <==> Eats(s) && (s.score + 1) % MealsPerLevel == 0 && s.speed > SpeedFloor)
      && (t.speed != s.speed ==> t.speed == s.speed - SpeedStep)
      && t.started == s.started
  {
  }

  /** Every tick keeps the invariant, given a food cell the generator could return. */
  lemma TickKeepsInv(s: State, f: Cell)
    requires Inv(s) && FoodChoiceOk(s, f)
    ensures Inv(Tick(s, f))
  {
  }

  /**
   * With the invariant, no tick reverses the direction of travel: the
   * committed direction only ever becomes a pending one that was checked
   * against it.
   */
  lemma TickNeverReverses(s: State, f: Cell)
    requires Inv(s)
    ensures Tick(s, f).direction != Opposite(s.direction)
  {
  }

  /** Enter starts the timer only when it is not running; otherwise it is ignored. */
  lemma PressEnter(s: State, f: Cell)
    ensures Press(s, "Enter", f) == if s.started then s else s.(started := true)
  {
  }

  /** Space toggles the pause only once the timer runs; otherwise it is ignored. */
  lemma PressSpace(s: State, f: Cell)
    ensures Press(s, " ", f) == if s.started then s.(paused := !s.paused) else s
  {
  }

  /**
   * R (either case) acts only after a game over, and then restores the
   * starting snake, RIGHT/RIGHT, score 0, period 200, not paused, not over,
   * timer stopped, with fresh food.
   */
  lemma PressRestart(s: State, key: string, f: Cell)
    requires key == "r" || key == "R"
    ensures Press(s, key, f) == if s.gameOver then Initial(f, false) else s
    ensures s.gameOver ==> var t := Press(s, key, f);
      t.snake == [Cell(200, 200), Cell(180, 200), Cell(160, 200)] && t.direction == Right
      && t.nextDirection == Right && t.score == 0 && t.speed == 200 && !t.paused && !t.gameOver
      && !t.started && t.food == f
  {
  }

  /**
   * An arrow key is ignored unless the game is running; when it runs, it sets
   * only the pending direction: to the key's direction exactly when that is
   * not the reverse of the committed one, and otherwise not at all.
   */
  lemma PressArrow(s: State, key: string, f: Cell)
    requires ArrowDirection(key).Some?
    ensures var t := Press(s, key, f);
      && (!Running(s) ==> t == s)
      && t == s.(nextDirection := t.nextDirection)
      && (t.nextDirection == s.nextDirection || t.nextDirection == ArrowDirection(key).value)
      && (t.nextDirection != s.nextDirection ==> t.nextDirection != Opposite(s.direction))
    ensures var d := ArrowDirection(key).value;
      Running(s) ==>
        Press(s, key, f).nextDirection == if s.direction != Opposite(d) then d else s.nextDirection
  {
  }

  /** Any key other than Enter, Space, R/r and the four arrows changes nothing. */
  lemma PressOtherKey(s: State, key: string, f: Cell)
    requires key != "Enter" && key != " " && key != "r" && key != "R"
    requires ArrowDirection(key).None?
    ensures Press(s, key, f) == s
  {
  }

  /** Every key press keeps the invariant, given food the generator could return on a restart. */
  lemma PressKeepsInv(s: State, key: string, f: Cell)
    requires Inv(s)
    requires (key == "r" || key == "R") && s.gameOver ==> StartFoodOk(f)
    ensures Inv(Press(s, key, f))
  {
  }

  // ---------------------------------------------------------------------------
  // The game globals, updated in place.

  class Game {
    var snake: seq<Cell>
    var food: Cell
    var direction: Direction
    var nextDirection: Direction
    var score: int
    var speed: int
    var gameOver: bool
    var paused: bool
    /** The tick timer is installed (`interval != null`). */
    var started: bool
    var leaderboard: seq<ScoreRecord>
    var leaderboardLoaded: bool

    function Current(): State
      reads this
    {
      State(snake, food, direction, nextDirection, score, speed, gameOver, paused, started)
    }

    predicate Valid()
      reads this
    {
      Inv(Current())
    }

    /** Loading the script: the globals' initial values, then `init()`. */
    constructor ()
      ensures Valid() && Current() == Initial(food, false)
      ensures leaderboard == [] && !leaderboardLoaded
    {
      snake := [];
      food := Cell(0, 0);
      direction := Right;
      nextDirection := Right;
      score := 0;
      speed := InitialSpeed;
      gameOver := false;
      paused := false;
      started := false;
      leaderboard := [];
      leaderboardLoaded := false;
      new;
      Init();
    }

    /** `init`: the starting snake and fresh food; the timer is left as it is. */
    method Init()
      modifies this`snake, this`direction, this`nextDirection, this`food, this`score,
        this`gameOver, this`paused, this`speed
      ensures Valid() && Current() == Initial(food, started)
    {
      snake := StartSnake;
      direction := Right;
      nextDirection := Right;
      StartSnakeValid();
      food := RandomFoodPosition(snake);
      score := 0;
      gameOver := false;
      paused := false;
      speed := InitialSpeed;
      InitialValid(food, started);
    }

    /** `startGame`: install the timer unless it is already installed. */
    method StartGame()
      modifies this`started
      ensures started
    {
      if !started {
        started := true;
      }
    }

    /** `moveSnake`: step `head` one tile in the committed direction and put it in front. */
    method MoveSnake(head: Cell) returns (moved: Cell)
      modifies this`snake
      ensures moved == Move(head, direction)
      ensures snake == [moved] + old(snake)
    {
      moved := Move(head, direction);
      snake := [moved] + snake;
    }

    /** `increaseSpeed`: shorten the period by 20 and reinstall the timer. */
    method IncreaseSpeed()
      modifies this`speed, this`started
      ensures speed == old(speed) - SpeedStep && started
    {
      speed := speed - SpeedStep;
      started := true;
    }

    /** `handleFoodCollision`: score the meal, place new food, and speed up every fifth meal. */
    method HandleFoodCollision()
      requires |snake| < CellCount
      modifies this`score, this`food, this`speed, this`started
      ensures score == old(score) + 1
      ensures OnGrid(food) && food !in snake
      ensures speed == if score % MealsPerLevel == 0 && old(speed) > SpeedFloor then old(speed) - SpeedStep else old(speed)
      ensures started == (old(started) || speed != old(speed))
    {
      score := score + 1;
      food := RandomFoodPosition(snake);
      if score % MealsPerLevel == 0 && speed > SpeedFloor {
        IncreaseSpeed();
      }
    }

    /** `update`, one tick of the timer. */
    method Update()
      requires Valid()
      requires Eats(Current()) ==> |snake| + 1 < CellCount
      modifies this`snake, this`direction, this`food, this`score, this`speed, this`gameOver, this`started
      ensures Valid()
      ensures Current() == Tick(old(Current()), food)
    {
      ghost var s := Current();
      if paused || gameOver || !started {
        return;
      }
      direction := nextDirection;
      var head := snake[0];
      head := MoveSnake(head);
      if CheckWallCollision(head) || CheckSelfCollision(snake, head) {
        gameOver := true;
        snake := snake[1..];
        assert Current() == Tick(s, food);
        TickKeepsInv(s, food);
        return;
      }
      if head == food {
        HandleFoodCollision();
      } else {
        snake := snake[..|snake| - 1];
      }
      assert Current() == Tick(s, food);
      TickKeepsInv(s, food);
    }

    /** `resetGame`: remove the timer and run `init` again. */
    method ResetGame()
      modifies this`snake, this`direction, this`nextDirection, this`food, this`score,
        this`gameOver, this`paused, this`speed, this`started
      ensures Valid() && Current() == Initial(food, false)
    {
      started := false;
      Init();
    }

    /** `handleKeyDown`, for the event's `key` string. */
    method HandleKeyDown(key: string)
      requires Valid()
      modifies this`snake, this`direction, this`nextDirection, this`food, this`score,
        this`gameOver, this`paused, this`speed, this`started
      ensures Valid()
      ensures Current() == Press(old(Current()), key, food)
    {
      ghost var s := Current();
      if key == "Enter" && !started {
        StartGame();
        return;
      }
      if key == " " {
        if started {
          paused := !paused;
        }
        return;
      }
      if (key == "r" || key == "R") && gameOver {
        ResetGame();
        return;
      }
      if started && !paused && !gameOver {
        if key == "ArrowUp" {
          if direction != Down { nextDirection := Up; }
        } else if key == "ArrowDown" {
          if direction != Up { nextDirection := Down; }
        } else if key == "ArrowLeft" {
          if direction != Right { nextDirection := Left; }
        } else if key == "ArrowRight" {
          if direction != Left { nextDirection := Right; }
        }
      }
      PressKeepsInv(s, key, food);
    }

    /**
     * The callback that `update` attaches to `fetchScores()` on a game over:
     * the leaderboard becomes the best five of the fetched records (an empty
     * list when the fetch failed).
     */
    method ScoresFetched(scores: seq<ScoreRecord>)
      modifies this`leaderboard, this`leaderboardLoaded
      ensures leaderboard == TopFive(scores) && leaderboardLoaded
    {
      leaderboard := TopFive(scores);
      leaderboardLoaded := true;
    }
  }
}
