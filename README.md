# Snake game engines, modelled in Dafny

This project models the two client-side engines of a browser Snake game.

- The browser engine, `frontend/game.js`. A snake of 20-pixel tiles moves on a
  400 x 400 canvas. The game starts on Enter, pauses on Space and restarts on R
  after a game over. Arrow keys go into a pending direction; the next tick
  commits it. Each tick moves first and then tests the new head against the
  walls and against every pre-move segment. Every fifth meal shortens the tick
  period by 20 ms, down to a floor of 40 ms. When the game ends, the
  leaderboard is the best five of the stored scores.
- The earlier prototype, `game.js`. It runs from page load and has no pause
  and no start key. Each tick tests the current head before moving. Arrow keys
  change the direction at once.

Modules:

- `Board` (`board.dfy`): cells, directions, `Move`, the two collision tests,
  the arrow-key mapping, the starting snake, and a counting lemma
  (`FreeCellExists`). The lemma shows that a snake shorter than the 400 tiles
  leaves a free tile, so the food generator's rejection loop has a tile to find.
- `Leaderboard` (`leaderboard.dfy`): descending stable sort of score records,
  and the cut to five.
- `SnakeFrontend` (`frontend.dfy`) and `SnakePrototype` (`prototype.dfy`): one
  module per engine. Each holds a value `State` of the engine's globals, pure
  transition functions `Tick` (one timer tick) and `Press` (one key press), and
  an invariant `Inv` with lemmas about them. Each also holds a `Game` class
  whose fields are the globals. Its methods update those fields in place, as
  the functions of the source do. `Update` and `HandleKeyDown` tie the new
  state to `Tick` or `Press` of the old one and keep `Inv`; the other methods
  state their own effect on the fields.
- `Wrappers` (`wrappers.dfy`): `Option`.

The random food choice is modelled as a choice of any free grid cell. These are
exactly the cells the source's rejection loop can return. `Tick` and `Press`
take the chosen cell as a parameter and use it only when food is placed. The
`Game` methods pass the cell `Board.RandomFoodPosition` chose; both engines' `randomFoodPosition` are the same loop, so one method models both.

The browser engine's timer (`interval`) becomes the flag `started`, and its
period is the integer `speed`. A timer tick is one call of `Game.Update`. The
invariant `SnakeFrontend.Inv` holds in every reachable state:

- the snake is non-empty and made of distinct grid cells;
- the food is on a free grid cell;
- the pending direction is never the reverse of the committed one;
- `speed` equals `SpeedFor(score)`, which is max(40, 200 - 20 * (score / 5)).

So the period is always a multiple of 20 between 40 and 200.

For the prototype, the model proves two behaviours the browser engine does not
have:

- Game over comes one tick late (`LateWallDetection`).
- Two arrow keys pressed between ticks can reverse the snake into its own neck
  (`TwoPressesReverseIntoNeck`). The browser engine rules this out
  (`SnakeFrontend.TickNeverReverses`).

Two facts about the code shape the model:

- In `frontend/game.js` the self-collision test runs after the new head is put
  in front, so it compares the head with every pre-move segment, the tail
  included. A move into the cell the tail is about to leave therefore ends the
  game (`Board.SelfCollisionAfterUnshift`, `SnakeFrontend.CollidesMeans`).
- In `game.js` the head may stand on a body segment, or one tile off the
  board, for one tick, until the next tick detects it. `SnakePrototype.Inv`
  states only what does hold: the head is tile-aligned, and the body behind
  it is distinct and on the grid.

## Model

| member | source | states |
|---|---|---|
| `Board.Opposite` | frontend/game.js:282-295 | the direction an arrow key is checked against is never the direction itself; the reverse of Up is Down and the reverse of Left is Right, and no other direction reverses to those |
| `Board.OppositeInvolution` | frontend/game.js:282-295 | reversing twice gives the direction back |
| `Board.ArrowDirection` | frontend/game.js:282-295 | exactly the four arrow key names map to a direction, each to its own one |
| `Board.StartSnakeValid` | frontend/game.js:28-32 | the starting snake has three distinct grid cells, and its neck is the tile to the left of its head |
| `Board.MoveThenBack` | frontend/game.js:95-101 | a move always changes the cell, and moving in the reverse direction undoes it |
| `Board.MoveStaysOnGridUnlessWall` | frontend/game.js:241-244 | from a grid cell, one move lands on a tile-aligned cell, and that cell is on the board exactly when the wall test is false |
| `Board.SelfCollisionAfterUnshift` | frontend/game.js:246-249 | the self test run on the snake with the new head in front is true exactly when the head is one of the pre-move cells, the tail included |
| `Board.SelfCollisionOnBody` | game.js:129-136 | the self test on the current head is true exactly when the head recurs in the body behind it |
| `Board.RandomFoodPosition` | frontend/game.js:223-239 | returns a grid cell (multiples of 20 in [0,400)) that no segment of the given snake occupies; `game.js` lines 100-116 are the same loop |
| `Board.FreeCellExists` | frontend/game.js:223-238 | a snake shorter than the 400 tiles leaves a free grid cell, so the rejection loop has a cell it can return |
| `Leaderboard.InsertSorted` | frontend/game.js:77-78 | inserting into a descending list keeps it descending, adds exactly the new record and loses none |
| `Leaderboard.SortSortsAndPermutes` | frontend/game.js:77-78 | the sort returns the same records (as a multiset), ordered by descending score |
| `Leaderboard.TopFive` | frontend/game.js:77-79 | the leaderboard has min(5, n) entries, in descending score order, all taken from the input, and no omitted record scores above any kept one |
| `Leaderboard.TopFiveExample` | frontend/game.js:77-79 | records scoring 3, 9, 1, 9, 5, 2 give the records scoring 9, 9, 5, 3, 2, the two nines in input order |
| `SnakeFrontend.SpeedForRange` | frontend/game.js:110-118 | the period the ramp reaches is a multiple of 20 between 40 and 200 |
| `SnakeFrontend.SpeedForNextMeal` | frontend/game.js:110-117 | one more meal changes the ramp's period exactly as the speed-up rule does: minus 20 when the score reaches a multiple of 5 and the period is above 50, else unchanged |
| `SnakeFrontend.InitialValid` | frontend/game.js:27-39 | the state `init` sets up satisfies the invariant |
| `SnakeFrontend.CollidesMeans` | frontend/game.js:70-73 | on a valid state a tick collides exactly when the moved head is off the board or on any pre-move cell, the tail included |
| `SnakeFrontend.TickIdle` | frontend/game.js:65-66 | a tick changes nothing unless the game is started, not paused and not over |
| `SnakeFrontend.TickCollision` | frontend/game.js:73-85 | a colliding tick sets game over, commits the pending direction, and leaves the snake exactly as before, with score, food and period unchanged |
| `SnakeFrontend.TickMove` | frontend/game.js:68-113 | a tick that does not collide commits the pending direction and moves the head one tile in it. The old snake follows, minus its tail unless food was eaten; on a meal, score and length each rise by 1, the new food is placed, and the period drops by 20 when the score reaches a multiple of 5 while it is above 50. The pending direction stays as it was |
| `SnakeFrontend.TickLengthChangesOnlyOnMeal` | frontend/game.js:88-92 | the length or the score changes in a tick exactly when the snake eats, and then both rise by exactly 1 |
| `SnakeFrontend.TickSpeed` | frontend/game.js:105-119 | the period changes, by exactly minus 20, only on the meal that brings the score to a multiple of 5 while the period is above 50; the timer stays started |
| `SnakeFrontend.TickKeepsInv` | frontend/game.js:65-119 | every tick keeps the invariant, given a food cell the generator can return |
| `SnakeFrontend.TickNeverReverses` | frontend/game.js:68 | on a valid state no tick sets the direction to the reverse of the previous one |
| `SnakeFrontend.PressEnter` | frontend/game.js:263-266 | Enter starts the game only when it is not started; otherwise nothing changes |
| `SnakeFrontend.PressSpace` | frontend/game.js:269-272 | Space toggles the pause only when the game is started; otherwise nothing changes |
| `SnakeFrontend.PressRestart` | frontend/game.js:275-278 | R or r acts only after a game over. It restores the snake (200,200),(180,200),(160,200), RIGHT/RIGHT, score 0, period 200, not paused, not over, not started, with new food |
| `SnakeFrontend.PressArrow` | frontend/game.js:281-296 | an arrow key does nothing unless the game runs. It changes only the pending direction. While the game runs, the pending direction becomes the key's direction exactly when that is not the reverse of the committed direction; otherwise the key is ignored |
| `SnakeFrontend.PressOtherKey` | frontend/game.js:261-297 | a key other than Enter, Space, R/r and the four arrows leaves the whole state unchanged |
| `SnakeFrontend.PressKeepsInv` | frontend/game.js:261-297 | every key press keeps the invariant |
| `SnakeFrontend.Game.constructor` | frontend/game.js:12-39 | loading the script gives the `init` state with the timer stopped and no leaderboard loaded |
| `SnakeFrontend.Game.Init` | frontend/game.js:27-42 | `init` sets the starting state, places free food and leaves the timer as it was |
| `SnakeFrontend.Game.StartGame` | frontend/game.js:56-60 | afterwards the timer is started; nothing else changes |
| `SnakeFrontend.Game.MoveSnake` | frontend/game.js:95-103 | the head moved one tile in the committed direction is put in front of the snake |
| `SnakeFrontend.Game.IncreaseSpeed` | frontend/game.js:115-119 | the period drops by 20 and the timer is running again |
| `SnakeFrontend.Game.HandleFoodCollision` | frontend/game.js:105-113 | the score rises by 1; the new food is free of the grown snake, new head included; the period drops by 20 exactly when the new score is a multiple of 5 and the period was above 50 |
| `SnakeFrontend.Game.Update` | frontend/game.js:65-93 | the fields after a tick are `Tick` of the fields before, and the invariant is kept |
| `SnakeFrontend.Game.ResetGame` | frontend/game.js:252-256 | the timer is stopped and the `init` state set up |
| `SnakeFrontend.Game.HandleKeyDown` | frontend/game.js:261-297 | the fields after a key are `Press` of the fields before, and the invariant is kept |
| `SnakeFrontend.Game.ScoresFetched` | frontend/game.js:76-81 | when the scores arrive, the leaderboard becomes their best five and is marked loaded |
| `SnakePrototype.InitialValid` | game.js:9-23 | the state the script starts in satisfies the invariant |
| `SnakePrototype.TickIdleWhenOver` | game.js:27 | a tick does nothing once the game is over |
| `SnakePrototype.CollidesMeans` | game.js:29-31 | on a valid state a tick collides exactly when the current, pre-move head is off the board or on a body cell at index > 0 |
| `SnakePrototype.TickCollision` | game.js:29-34 | a colliding tick sets game over and leaves snake, food, score and direction unchanged |
| `SnakePrototype.TickMove` | game.js:36-58 | otherwise the head moves one tile in `direction`; the length stays unless food is eaten, in which case score and length each rise by 1 |
| `SnakePrototype.TickKeepsInv` | game.js:26-59 | every tick keeps the invariant, given a food cell the generator can return |
| `SnakePrototype.LateWallDetection` | game.js:29-51 | a tick can move the head off the board without ending the game; the next tick ends it and leaves the snake as it is |
| `SnakePrototype.PressArrowNeverReverses` | game.js:179-192 | a single arrow key sets the asked direction exactly when that is not the reverse of the direction before that key, and otherwise leaves it. It changes nothing else |
| `SnakePrototype.TwoPressesReverseIntoNeck` | game.js:179-192 | ArrowUp then ArrowLeft, pressed between ticks while moving right, make the snake go left. The next tick moves its head onto its neck, and the tick after that ends the game |
| `SnakePrototype.PressRestart` | game.js:174-177 | R or r acts only after a game over. It restores the 3-cell snake, RIGHT, score 0, not over, with new food; `speed` stays |
| `SnakePrototype.PressOtherKey` | game.js:174-193 | a key other than R/r and the four arrows leaves the whole state unchanged |
| `SnakePrototype.PressKeepsInv` | game.js:174-193 | every key press keeps the invariant |
| `SnakePrototype.Game.constructor` | game.js:9-23 | the script starts with the 3-cell snake, RIGHT, score 0, speed 200, not over, and free food |
| `SnakePrototype.Game.Update` | game.js:26-59 | the fields after a tick are `Tick` of the fields before, and the invariant is kept |
| `SnakePrototype.Game.ResetGame` | game.js:139-149 | the fields become the reset state with free food; `speed` is untouched |
| `SnakePrototype.Game.HandleKeyDown` | game.js:174-193 | the fields after a key are `Press` of the fields before, and the invariant is kept |

## Left out

- Drawing: `draw`, `drawStartScreen`, `drawFood`, `drawSnake`, `drawPauseScreen` and `drawGameOverScreen` in `frontend/game.js`, `draw` in `game.js`, and the score display `updateScoreDisplay`. They only produce output.
- Timers: `setInterval` and `clearInterval` with a millisecond period. In the browser engine the timer is the flag `started` (`startGameLoop`, `gameLoop`) and the period is the integer `speed`. In the prototype the fixed 100 ms timer is implicit: every call of `Update` is one tick.
- Network: `submitScore`, `fetchScores` and their error logging. A fetch that fails yields an empty list, and the `.then` callback is `Game.ScoresFetched`. The model does not order that callback against later ticks or a restart, so it does not capture the race in which a late fetch fills the leaderboard of a new game.
- `backend/server.js` is not part of this model: HTTP routing, CORS, the listener, timestamps, and the append to an in-memory list.
- The commented-out speed ramp in `game.js` (lines 159-171) is not live code.
- The distribution of `Math.random`. Food placement is modelled as a choice of any free grid cell.
- The full board. The source's rejection loop never ends when no tile is free. `Board.RandomFoodPosition` therefore requires the snake to be shorter than 400 tiles. Each `Game.Update` requires that a meal leave a free tile: a snake of length 399 may not eat the last free tile in the model.
- An empty snake. Both `Tick`s require a non-empty snake. The source never has one. In `frontend/game.js` the bare `snake = []` of line 12 is overwritten by `Init`, which the constructor calls, and `init` runs at load. In `game.js` the snake starts as the three-cell literal of lines 13-17, `resetGame` sets that literal again (lines 139-144), and `update` follows each `unshift` with at most one `pop` (lines 51-58). Both `Inv`s carry `|snake| >= 1`.
- Score values. Stored scores are modelled as integers, while the server accepts any JavaScript number. The model's sort is stable by construction, but no lemma states stability in general; only the worked example shows it.
