# Grid arcade engines: falling blocks and snake

A Dafny model of the two game engines in a React arcade app. Each engine's
rules become one owned state record: a class with a tick method and an
input method.

- **Tetris** (`tetris.dfy`, module `Tetris`). This is `src/components/Tetris.jsx`.
  - The board is 20 rows by 10 columns. A cell is 0 when empty, otherwise it holds the piece's colour. The colours are the source's hex literals, read as numbers.
  - There are seven tetromino kinds with their canonical shapes.
  - The board operations are methods with the source's nested loops, each proved against a specification function: collision, merging a piece into a copy of the board, and line clearing (filter and count, then refill from the top).
  - Rotation and spawning are pure functions.
  - The game state is the value `Game`. `Drop`, `KeyPress` and `Restarted` specify the timer-driven drop step, the key handler and restart. Class `TetrisEngine` holds the mutable slots, and each method's `ensures` ties its new `State()` to these functions.
  - The lemmas prove the properties: row count and level law are kept, scoring uses the new level, four rotations give back the original shape, a rejected move changes nothing, and every spawn fits on an empty board.
- **Snake** (`snake.dfy`, module `Snake`). This is `src/components/SnakeGame.jsx`.
  - The state is a body with the head first, a unit direction, food, score, high score, and game-over and pause flags.
  - `GenerateFood` is the recursive random retry, run over a sequence of random draws the caller supplies.
  - `Step`, `KeyPress` and `Restarted` specify the tick, the key handler and restart. Class `SnakeEngine` implements them over its fields.
  - The lemmas prove the invariants: the body stays in bounds and self-avoiding, food stays off the body, length grows by one exactly when food is eaten, high-score rules, and direction turns are only quarter turns.

The piece's `x, y` and the separate `position` slot of the source are folded
into one `Piece` record. Randomness comes from the caller:
- For Tetris, a piece-kind index 0..6, in the key order of `TETROMINOES`.
- For Snake, the sequence of cells the random generator would draw.

## Model

| member | source | states |
|---|---|---|
| Tetris.EmptyBoard | src/components/Tetris.jsx:67-71 | exactly 20 rows of 10 cells, every cell 0 |
| Tetris.CheckCollision | src/components/Tetris.jsx:93-114 | the loop result is true iff some occupied shape cell lands at column < 0 or >= 10, at row >= 20, or on a non-zero cell at row >= 0; cells above row 0 are checked only laterally |
| Tetris.NoCollisionFits | src/components/Tetris.jsx:101-103 | a placement that does not collide keeps every occupied cell inside the columns and above the floor |
| Tetris.MergePiece | src/components/Tetris.jsx:116-130 | given a board and an in-bounds piece, returns a new 20x10 board with the piece colour at exactly the occupied shape cells at rows >= 0 and every other cell as in the input (the input is a value and stays unchanged) |
| Tetris.ClearLines | src/components/Tetris.jsx:132-145 | the count equals the number of full rows; the result is that many empty rows followed by the non-full rows in order, and is again 20x10 |
| Tetris.ClearLinesShape | src/components/Tetris.jsx:132-145 | after clearing: 20 rows, the top linesCleared rows empty, below them exactly the kept rows, none of them full |
| Tetris.ClearedIsValid | src/components/Tetris.jsx:140-142 | refilling from the top restores exactly 20 rows of 10 cells |
| Tetris.NonFullRowsAppend | src/components/Tetris.jsx:134-138 | the filter keeps relative order and the count adds up: both distribute over concatenation of row blocks |
| Tetris.NoFullRowsUnchanged | src/components/Tetris.jsx:134-144 | with no full row nothing is counted and the board comes back unchanged |
| Tetris.FullRowIsCounted | src/components/Tetris.jsx:135-136 | any full row makes the count positive |
| Tetris.Rotate | src/components/Tetris.jsx:147-150 | column i of the shape, reversed, becomes row i; a rectangular h x w shape becomes a rectangular w x h shape |
| Tetris.RotateCells | src/components/Tetris.jsx:147-150 | the column-reverse step is the clockwise quarter turn: cell (i, j) of the result is cell (h-1-j, i) of the shape |
| Tetris.RotateFourTimes | src/components/Tetris.jsx:147-150 | four quarter turns return the original shape |
| Tetris.RotatePiece | src/components/Tetris.jsx:147-152 | rotation keeps kind, colour and position, swaps the shape's height and width, and keeps a valid piece valid (rectangular, its colour, one of its kind's orientations) |
| Tetris.RotatePieceFourTimes | src/components/Tetris.jsx:147-152 | rotating a piece four times gives back the same piece |
| Tetris.RotateKeepsOrientation | src/components/Tetris.jsx:147-152 | a rotated piece stays one of the four orientations of its kind's canonical shape |
| Tetris.KindAtIsBijective | src/components/Tetris.jsx:73-81 | each of the seven kinds is the pick of exactly one index 0..6 |
| Tetris.ShapeOf | src/components/Tetris.jsx:8-37 | each canonical shape is rectangular, at most 2 rows by 4 columns |
| Tetris.ColorOf | src/components/Tetris.jsx:8-37 | every piece colour is non-zero, so a merged cell reads as occupied |
| Tetris.Spawn | src/components/Tetris.jsx:83-91 | a spawned piece is a valid piece of the given kind in its canonical orientation on row 0, centred with any odd column of slack on its left, inside the board and clear of an empty board |
| Tetris.SpawnPiece | src/components/Tetris.jsx:73-91 | spawning from a random index gives a valid piece of the kind at that index on row 0, inside the board and clear of an empty board |
| Tetris.SpawnColumns | src/components/Tetris.jsx:85-89 | I spawns at column 3, every other kind at column 4, on row 0 |
| Tetris.Restarted | src/components/Tetris.jsx:277-288 | restart state: empty board, score 0, lines 0, level 1, not paused, not over, two spawned pieces, the current one free of collision |
| Tetris.DropOutcome | src/components/Tetris.jsx:166-181 | an active drop step either moves the piece down one row (y + 1 only), or sets game over with the board and everything else unchanged when y <= 0, or lands |
| Tetris.DropKeepsWellFormed | src/components/Tetris.jsx:163-200 | the drop step keeps the board at 20x10, the level at floor(lines/10)+1, the current piece in bounds and the next piece fresh from spawn |
| Tetris.MergedIsValid | src/components/Tetris.jsx:175 | the merged board is again 20x10 with non-negative cells |
| Tetris.LandScoring | src/components/Tetris.jsx:182-193 | on landing with k full rows: lines += k, level = floor(lines/10)+1, score += k*100*level using the new level; nothing of the three changes when k = 0; the board becomes the merged board with full rows cleared, next becomes current, a fresh spawn becomes next, the flags stay |
| Tetris.ScoreUsesNewLevel | src/components/Tetris.jsx:185-191 | clearing one row at 9 lines moves to level 2 and adds 200 |
| Tetris.LandWithoutClear | src/components/Tetris.jsx:182-200 | a landing that fills no row keeps the merged board and only promotes next to current and spawns a new next |
| Tetris.OPieceLandsOnFloor | src/components/Tetris.jsx:166-200 | an O piece at column 4 resting on the floor of an empty board lands into rows 18-19, columns 4-5; lines, score and level unchanged; next promoted |
| Tetris.SoftFallKeepsPieceFree | src/components/Tetris.jsx:172-173 | a soft fall never makes the piece overlap the board |
| Tetris.KeyPressKeepsWellFormed | src/components/Tetris.jsx:208-255 | key handling keeps the state well formed |
| Tetris.KeyPressEffect | src/components/Tetris.jsx:208-250 | a key changes only the pause flag (space, when not over) or the current piece; a changed piece is an accepted non-colliding move by one cell (left, right, down: position only) or a rotation (up: shape only), never while over or paused |
| Tetris.KeyPressAccepts | src/components/Tetris.jsx:208-247 | while not over, space toggles pause; while also not paused, a left, right, down or up request whose target does not collide is applied, and nothing else changes |
| Tetris.RejectedMoveUnchanged | src/components/Tetris.jsx:223-247 | a move or rotation request that would collide leaves the whole state unchanged |
| Tetris.KeyPressKeepsPieceFree | src/components/Tetris.jsx:222-250 | input never makes a non-overlapping piece overlap the board |
| Tetris.TetrisEngine.constructor | src/components/Tetris.jsx:41-49 | the initial slots plus the two pieces of the spawn effect (lines 154-161) give the restart state |
| Tetris.TetrisEngine.Restart | src/components/Tetris.jsx:277-288 | restartGame sets the state to the restart state |
| Tetris.TetrisEngine.Tick | src/components/Tetris.jsx:163-200 | the drop method's new state is the drop step of the old state, kept well formed; nothing happens while over or paused |
| Tetris.TetrisEngine.Advance | src/components/Tetris.jsx:166-200 | an active drop step in source order (collision test one row lower, merge, the y <= 0 test, then landing) equals the drop step |
| Tetris.TetrisEngine.Settle | src/components/Tetris.jsx:182-200 | the landing half of the drop method: clear, score, promote; equals the landing specification |
| Tetris.TetrisEngine.HandleKey | src/components/Tetris.jsx:208-255 | the key method's new state is the key specification applied to the old state |
| Tetris.TetrisEngine.TryShift | src/components/Tetris.jsx:223-240 | one arrow move: the position shifts by (dx, dy) only when that placement does not collide, otherwise the state is unchanged |
| Tetris.TetrisEngine.PressPause | src/components/Tetris.jsx:349-352 | the PAUSE button flips only the pause flag, also when the game is over |
| Snake.GenerateFood | src/components/SnakeGame.jsx:22-32 | the result is the first draw not on the given body, hence in the grid and off the body; no result exactly when every supplied draw is on the body |
| Snake.FreeCellExists | src/components/SnakeGame.jsx:22-32 | with fewer than 400 body cells some grid cell is free, so the retry can end |
| Snake.FoodFoundOnlyBelowFullGrid | src/components/SnakeGame.jsx:22-32 | if the retry finds food for an in-grid self-avoiding body, that body has fewer than 400 cells |
| Snake.GridSize400 | src/components/SnakeGame.jsx:4 | the 20 x 20 grid has exactly 400 cells |
| Snake.Initial | src/components/SnakeGame.jsx:4-18 | the initial state (body [(10,10)], direction (1,0), food (5,5), score 0, stored high score) is well formed |
| Snake.StepKeepsWellFormed | src/components/SnakeGame.jsx:35-77 | the tick keeps the body non-empty, in bounds and self-avoiding, the direction a unit, the food in the grid and off the body, and score <= high score |
| Snake.GrowthLaw | src/components/SnakeGame.jsx:40-75 | a moving tick puts old head + direction first and the old body behind it; length grows by exactly 1 iff the head reached the food, otherwise it is unchanged; direction and pause stay; food stays unless eaten, then it is regenerated off the grown body |
| Snake.StepStops | src/components/SnakeGame.jsx:36-55 | no-op while over or paused; a new head outside 0..19 or on any pre-move body cell (tail included) only sets game over |
| Snake.StepScoring | src/components/SnakeGame.jsx:60-69 | the score rises by 1 exactly when food is eaten; the high score becomes the new score only when it exceeds the old high score |
| Snake.EatScenario | src/components/SnakeGame.jsx:38-75 | from [(10,10)] moving right onto food (11,10): score 1, body [(11,10),(10,10)], new food off both cells |
| Snake.AsWrittenFoodOnHead | src/components/SnakeGame.jsx:70 | as written, the regenerated food can be the cell the head just entered |
| Snake.AsWrittenRestartFoodOnHead | src/components/SnakeGame.jsx:128 | as written, a restart can put the food on the initial head |
| Snake.RestartKeepsWellFormed | src/components/SnakeGame.jsx:125-132 | restart: body [(10,10)], direction (1,0), score 0, not over, not paused, high score kept, food off the snake |
| Snake.TurnRule | src/components/SnakeGame.jsx:95-111 | Up/Down are taken only when dy = 0 and Left/Right only when dx = 0; the direction stays a unit vector, is never set to the reverse, changes only by a quarter turn, and pause does not block it |
| Snake.KeyPressKeepsWellFormed | src/components/SnakeGame.jsx:87-119 | key handling keeps the state well formed |
| Snake.KeyPressControl | src/components/SnakeGame.jsx:88-93 | while over only space or Enter acts, and it restarts; otherwise space only toggles pause |
| Snake.SnakeEngine.constructor | src/components/SnakeGame.jsx:10-18 | the initial slots, with the high score read from storage |
| Snake.SnakeEngine.Tick | src/components/SnakeGame.jsx:35-77 | the tick method's new state is the tick specification of the old state; random draws are needed only on a tick that eats; the value written to storage is present exactly when the high score rose |
| Snake.SnakeEngine.Restart | src/components/SnakeGame.jsx:125-132 | restartGame sets the restart state, keeping the high score |
| Snake.SnakeEngine.HandleKey | src/components/SnakeGame.jsx:87-119 | the key method's new state is the key specification of the old state |

## Left out

- React plumbing: `useState`, `useEffect`, `useCallback`, and the ref mirroring at Tetris.jsx:51-65. Each engine is one class whose methods run atomically, so stale closures and several key presses between renders are not modelled.
- The moment between mount and the spawn effect when the Tetris current piece is null (Tetris.jsx:42, 154-161, 220) is not modelled. The constructor spawns both pieces at once, and `prevNext || spawnPiece()` (line 196) always finds a next piece.
- Timers: `setTimeout`, `setInterval`, `GAME_SPEED`, `dropTime` and the floating-point delay `dropTime / level`. The host calls `Tick`.
- `Math.random`: the caller supplies a kind index, or a sequence of in-grid draws.
- Snake.GenerateFood: the source retries without bound and never ends when the whole grid is covered. The model tries only the supplied draws and returns None when all are on the body. `Step` and `SnakeEngine.Tick` require a draw off the grown body only on a tick that eats, and `Restart` one off the initial snake; the other ticks draw nothing, as in the source.
- `localStorage`: the stored high score is a constructor parameter, so a `NaN` from `parseInt` is not modelled. The write is the `saved` result of `SnakeEngine.Tick`.
- Rendering: all JSX, `getDisplayBoard`, `getSnakeColor`, `renderCell`, the mute toggle, the back buttons and `preventDefault`.
- The restart buttons of the game-over overlays call the same `Restart` methods. They are not modelled separately.
- The routing and page shells (Home.jsx, App.jsx, SnakePage.jsx) are not part of this model.
- A freshly promoted Tetris piece is not checked against the board; the source never checks it either. `WellFormed` therefore only requires the current piece to be in bounds. Overlap freedom is proved only where the source guarantees it (key input, soft fall), so a promoted piece that overlaps the stack at y = 0 still falls when the row below is free (Tetris.jsx:172-173), as in the source.

## Findings

| source | as written | input that shows it | evidently intended | confidence | as-written member | corrected member |
|---|---|---|---|---|---|---|
| src/components/SnakeGame.jsx:70 | `generateFood` closes over the pre-move `snake`, so the new food avoids only the body before the head was prepended | body [(10,10)], direction (1,0), food (11,10), next random draw (11,10): the food is placed on the new head | new food avoids the whole grown body, so food is never on the snake | high; not executed | Snake.AsWrittenFoodOnHead | Snake.StepKeepsWellFormed |
| src/components/SnakeGame.jsx:128 | `restartGame` places food with the `generateFood` of the finished game, which avoids the old body rather than the initial snake | game over with body [(0,0)], next random draw (10,10): the food is placed on the new head (10,10) | restart food avoids the initial snake [(10,10)] | high; not executed | Snake.AsWrittenRestartFoodOnHead | Snake.RestartKeepsWellFormed |

The as-written rules are `Snake.StepAsWritten` and `Snake.RestartAsWritten`.
The corrected rules are `Snake.Step` and `Snake.Restarted`, which
`SnakeEngine` implements.
