# Snake game engine in Dafny

This project models the engine of a browser Snake game (`script.js`): a snake
steered on a 30 x 30 grid, eating food to grow and score, and ending on a wall
or on its own body. The page's global variables become one immutable record,
`Engine.Game`. It holds the head, velocity, body, food, score, high score and
the paused / over / started flags. The handlers become pure transitions on
that record:

- `ChangeDirection` is the arrow-key handler.
- `Tick` is the function the timer calls every 100 ms.
- `Start`, `Pause`, `Resume` and `Restart` are the screen commands.
- `SpaceKey` is the space-bar handler.
- `GameAction` is the button dispatch `handleGameAction`. On the page, each
  overlay screen wires its button straight to one command: start on the start
  screen, resume on the pause screen, restart on the game-over screen.
  `GameAction` picks that same command in every state where the overlay is
  shown (`Session.ButtonDispatch`).

Module `Board` holds the grid, the wall test and food placement. The random
draw becomes a parameter: `FoodFromDraws` takes the two floored draws, and
`Tick`, `Start` and `GameAction` take the resulting cell, which must lie on
the grid. Module `Session` applies sequences of input events. It proves an
invariant of every reachable state and shows that the high score is always the
larger of the stored value and the best score reached. It also works through
scenarios: the wall reached on the 26th tick, meals one cell ahead and on the
first tick, and the two collisions described below.

Details kept from the code:

- The meal test uses the head before the move.
- The body is empty until the first tick.
- The segment appended on a meal holds the new food with its coordinates
  swapped. The shift always overwrites it (`Session.MealSegmentIrrelevant`).
- The body is shifted from the tail towards the head (`Engine.ShiftInPlace`
  proves this loop equals the snapshot definition `Engine.Shift`).
- A wall hit sets the flag and draws nothing. A self-collision sets the flag
  and the cells are still drawn.
- The tick after the flag is set runs the game-over handler, which changes no
  game data (`Terminated`).
- Direction commands are blocked only by pause and game over, not before the
  start.

Behaviours of the code that a reader might not expect:

- The start command does not reset the snake, score or velocity. It only sets
  `started` and places food. The reset happens at page load and in `Restart`.
- Food one cell ahead is eaten on the second tick, not the first, because the
  test looks at the pre-move head (`Session.FoodAheadEatenOnSecondTick`).
- The body length is not always one more than the number of meals. A meal on
  the very first tick, while the body is still empty, leaves one segment for
  one meal (`Session.MealOnFirstTick`). In every reachable state the length
  lies between the score and the score plus one (`Session.Inv`).
- The reversal rule compares an arrow with the current velocity, not with the
  last move made. So two arrows between ticks can turn the snake straight back
  into itself (`Session.DoubleTurnIntoNeck`).
- A snake with zero velocity never hits a wall, but it can still collide with
  itself. Food placed twice on the head grows the body onto the head's own
  cell (`Session.StandstillCollision`).

## Model

| member | source | states |
|---|---|---|
| Board.FoodFromDraws | script.js:148-152 | each floored draw in [0, 30) gives a coordinate one higher, so the food lies on the grid |
| Board.FoodCoversGrid | script.js:148-152 | every cell of the grid is a possible food position |
| Engine.Initial | script.js:5-13 | at load the head is at (5, 5), velocity zero, body empty, no food, score zero, high score as stored, all flags clear |
| Engine.ChangeDirection | script.js:161-179 | ignored while paused or over or for a non-arrow key; Up is ignored when moving down, Down when moving up, Left when moving right, Right when moving left; in a game neither paused nor over, every other arrow is accepted and sets its unit vector ((0, -1) for Up, (0, 1) for Down, (-1, 0) for Left, (1, 0) for Right); only the velocity can change |
| Engine.Shift | script.js:206-210 | the new body has at least one segment, starts with the new head, and every later segment holds its predecessor's old cell |
| Engine.ShiftInPlace | script.js:206-210 | the tail-to-head copy loop followed by the write at index 0 gives exactly the shifted body |
| Engine.ScanForCollision | script.js:217-224 | the loop raises the flag iff some segment after the first shares the head's cell |
| Engine.Tick | script.js:183-227 | paused: nothing changes; over: nothing changes and the game-over handler runs; otherwise the head moves by the velocity, the score rises by one iff the pre-move head is on the food, a meal places the new food and sets the high score to the maximum, the body grows by one on a meal and is shifted, the game ends iff the head leaves the grid or lands on a later segment, and a wall hit draws nothing while any other tick draws the old food and the new body |
| Engine.Restart | script.js:110-120 | head back at (5, 5), velocity zero, body empty, score zero, all flags clear; food and high score kept |
| Engine.SpaceKey | script.js:132-142 | the space bar toggles pause iff the game is started and not over, and changes nothing else |
| Engine.GameAction | script.js:229-238 | the button starts a game not yet started, else resumes a paused one, else restarts a finished one, else does nothing |
| Session.InitialSatisfiesInv | script.js:5-13 | the load state satisfies the reachable-state invariant |
| Session.TickPreservesInv | script.js:183-227 | a tick keeps a valid velocity, 0 <= score <= high score, food on the grid, head on the grid while not over, head first in the body, and body length between score and score plus one |
| Session.ApplyPreservesInv | script.js:93-142 | every input event keeps the invariant |
| Session.RunPreservesInv | script.js:93-238 | every state reached by any sequence of events satisfies the invariant |
| Session.HighScoreNeverDecreases | script.js:193-200 | over any sequence of events, restarts included, the high score never goes down |
| Session.ApplyHighScore | script.js:193-200 | one event either keeps the high score or sets it to the score just reached, and never lowers it |
| Session.HighScoreIsBest | script.js:193-200 | from a reachable state, the high score after any run equals the larger of its starting value and the best score reached along the run |
| Session.ReversalRule | script.js:166-178 | in a running game an arrow is rejected exactly when its direction is opposite to the current velocity; otherwise it sets that direction |
| Session.SteeringBeforeStart | script.js:161-163 | arrows are accepted before the game is started |
| Session.DoubleTurnIntoNeck | script.js:166-178 | moving right with three or more segments, Up then Left before the next tick reverse the snake and that tick ends the game |
| Session.MealSegmentIrrelevant | script.js:193-210 | the body after a tick does not depend on the new food draw, so the swapped coordinates of the appended segment never matter |
| Session.StandingStillTick | script.js:203-215 | with zero velocity the head stays put and no wall hit occurs |
| Session.StartResetsNothing | script.js:93-98 | start sets the started flag and the food and leaves every other field as it was |
| Session.RestartIsReload | script.js:110-120 | restart gives the load state, apart from food and high score |
| Session.PauseRoundTrip | script.js:100-108 | resuming a game that was not paused before the pause restores it exactly |
| Session.SpaceKeyTwice | script.js:132-142 | in every state, two space-bar presses undo each other |
| Session.ButtonDispatch | script.js:229-238 | in a reachable state the button resumes a paused game, restarts a finished one and starts one not yet started |
| Session.RightwardTick | script.js:193-224 | one tick of a straight snake heading right, whatever the food, moves the head one column, keeps the body straight, and ends the game only at the wall |
| Session.RightwardRun | script.js:193-224 | a straight snake heading right moves one column per tick, for any sequence of food draws (one per tick), and the game ends exactly when the head passes column 30; with no food on its row the score does not change |
| Session.AliveAfterTwentyFiveTicks | script.js:203-215 | from (5, 5) heading right, for any first food and any 25 food draws, the snake is alive at (30, 5) after 25 ticks |
| Session.WallOnTwentySixthTick | script.js:203-215 | from (5, 5) heading right, for any first food and any 26 food draws, the 26th tick ends the game at (31, 5) |
| Session.FoodAheadEatenOnSecondTick | script.js:193-204 | food one cell ahead is eaten on the second tick, giving score 1, two segments and the new food |
| Session.MealOnFirstTick | script.js:193-210 | a meal on the first tick gives score 1 and a single segment |
| Session.StandstillCollision | script.js:217-224 | without moving, food placed twice on the head ends the game |

## Left out

- Rendering: the markup strings, the overlay screens and the score labels are not modelled. `Tick` returns the drawn cells as data instead.
- Timers: `setInterval` and `clearInterval` are not modelled. A tick is an external call. In `Session`, timer events reach `Tick` only once the game is started. The page also clears the interval in the game-over handler; the model lets ticks continue there, and each of them changes nothing (`Terminated`).
- Storage: the high score read from and written to local storage is a plain integer. The string value the page reads back is not modelled.
- Randomness: `Math.random` and `Math.floor` become the integer draws of `FoodFromDraws` and the grid-cell parameters of `Tick`, `Start` and `GameAction`.
- Event-listener registration: the key, click and load listeners are not modelled. `Session.Apply` dispatches events to the transitions directly.
- Overlay button: the page shows the button only on the start, pause and game-over screens. The button is hidden while a game runs, including the tick between a collision and the game-over handler. A `Session.Button` event is accepted in every state, so the model over-approximates the clicks the page allows. In the states where the button is shown, `GameAction` runs the command that screen's button runs.
- Engine.Start, Engine.Pause, Engine.Resume: these are plain record updates with no contract of their own. `Start` sets two fields, `started` and `food`; `Pause` and `Resume` set one, `paused`. Their behaviour is stated by `Session.StartResetsNothing`, `Session.PauseRoundTrip`, `Session.SpaceKeyTwice` and `Engine.SpaceKey`.
