# Snake game: a Dafny model of its rules

This project models the core of a browser snake game (`game.js`). A snake
moves over a 60 × 40 grid, one cell per timer tick. It grows by one segment
when its head reaches the food. It dies when its head leaves the grid or
runs into its own body. Arrow keys steer it, but a key that asks for the
reverse of the current direction is ignored. Food is placed by rejection
sampling inside a one-cell inset of the grid. At game over the score is
pushed onto a top-ten leaderboard, which is kept sorted by descending score
with a stable sort.

The model has five modules:

- `Grid` (grid.dfy): cells, directions, the movement step, the collision
  test and the steering rule, all as values.
- `Food` (food.dfy): food placement. Each pass of the do-while of
  `createFood` becomes a `Draw`: the outcome of that pass's `Math.random`
  calls, already floored to integer offsets. The caller supplies the draws.
- `Leaderboard` (leaderboard.dfy): the push / stable sort / pop update as
  functions, plus lemmas that it keeps the table sorted and capped, keeps
  every entry except at most one lowest-scoring one, and keeps the order of
  equal scores.
- `SnakeGame` (game.dfy): one class `Game` whose fields are the globals of
  game.js:18-25. The timer handle becomes a `running` flag. A ghost field
  `stored` stands for the copy in local storage. Each function of the
  source that assigns globals is a method, except `showLeaderboard` (see
  "Left out"). The interval callback is `Tick`. `Valid()` is the invariant
  that the constructor establishes and that the page's entry points keep:
  `StartGame`, `Tick`, `PauseGame`, `ResumeGame`, `HandleKeyDown` and
  `SubmitName`. The inner steps `CreateFood`, `MoveSnake`,
  `AddScoreToLeaderboard` and `EndRound` are stated by their effect alone;
  `MoveSnake` on its own can leave a running game in a game-over state,
  which `Tick` then ends. `Valid()` says:
  - the snake is a non-empty chain of neighbouring cells;
  - the snake's length is the score plus two (or the page's one-cell snake
    before the first round);
  - a running round is never in a game-over state;
  - the leaderboard is sorted and has at most ten entries.
- `Scenarios` (scenarios.dfy): short rounds played only through the
  methods' contracts: three steps with a pause, eating, food placed under
  the new head, a turn-around, and a run into the wall.

The model keeps these behaviours of the code exactly:

- New food avoids only the snake as it was before the step, so it can land
  on the new head (`Scenarios.FoodUnderNewHead`).
- `startGame` does not reset the direction
  (`Scenarios.TurnAroundAndRestart`).
- The reversal check compares against the current direction, not the
  direction last moved. Two key presses between ticks can therefore turn the
  snake around (`Grid.TwoPressesReverse`). With three or more segments this
  is fatal (`Grid.ReversalIntoNeckIsFatal`). With two segments it is not:
  any two-segment snake whose head steps onto its tail cell, with no food
  there, just swaps its ends, because the tail is popped first
  (`Grid.ShortReversalSurvives`).
- The start cells are (30, 20) and (29, 20), because the divisions of
  game.js:15-16 and game.js:118 are exact (`Grid.GridIsExact`).

An idealised snake game would differ from this code in three places; the
model follows the code:

- One might expect a new round to face right again. `startGame` leaves the
  direction unchanged.
- One might expect food never to lie on the snake. The code can place it
  under the new head.
- One might expect the stored leaderboard to be loaded before it is
  updated. The code reads it only in `showLeaderboard`, after
  `addScoreToLeaderboard` has already written the in-memory list, which
  starts empty on every page load. So
  the first game over of a session replaces whatever was stored. The model
  shows this through `stored`: it is set to the in-memory table, whatever
  the constructor's `saved` was (`Scenarios.RunIntoWall`).

## Model

| member | source | states |
|---|---|---|
| `Grid.GridIsExact` | game.js:12-16 | 600/10 and 400/10 are exactly 60 and 40, and both halve exactly to 30 and 20 |
| `Grid.Advance` | game.js:73-88 | the new head is a neighbour of the old one; x grows exactly for right, shrinks exactly for left, y grows exactly for down, shrinks exactly for up |
| `Grid.AdvanceOpposite` | game.js:73-88 | a step followed by a step in the opposite direction returns to the start cell |
| `Grid.AdjacentIffAdvance` | game.js:73-88 | cells are neighbours iff one is a step of the other in some direction |
| `Grid.Occupies` | game.js:106 | the `.some` scan is true iff some index of the sequence holds the cell |
| `Grid.IsGameOver` | game.js:99-107 | game over iff the head is outside [0,60)×[0,40) or equals `snake[i]` for some i ≥ 1 |
| `Grid.Move` | game.js:89-96 | the new head is the step from the old head; each later segment i is the old segment i−1; length grows by 1 iff the new head is the food, otherwise it is unchanged |
| `Grid.MoveKeepsConnected` | game.js:89-96 | a step keeps the snake a chain of neighbouring cells |
| `Grid.ReversalIntoNeckIsFatal` | game.js:89-107 | with three or more segments, stepping onto the second segment is game over, fed or not |
| `Grid.ShortReversalSurvives` | game.js:93-96 | any two-segment snake whose head steps onto its on-grid tail cell, when the food is not there, ends as the reversed pair and is not game over |
| `Grid.Turn` | game.js:142-165 | an arrow key sets its direction unless that is the opposite of the current one, in which case nothing changes; other codes change nothing; the result is never the opposite of the current direction |
| `Grid.TwoPressesReverse` | game.js:142-165 | from every direction, some two key codes lead to its opposite |
| `Food.Candidate` | game.js:43-54 | each proposal lies in 1 ≤ x ≤ 58, 1 ≤ y ≤ 38; a border-mode proposal has x = 1 or x = 58 |
| `Food.CandidatesCoverInset` | game.js:40-54 | every inset cell can be proposed in uniform mode, and every inset cell of columns 1 and 58 in border mode too |
| `Food.FirstFree` | game.js:42-55 | the loop stops at the first pass whose proposal no snake segment occupies; every earlier proposal was occupied |
| `Food.PlaceFood` | game.js:37-56 | the placed food equals no segment of the snake at call time, lies in the inset, and has x ∈ {1, 58} when the accepted pass was in border mode |
| `Food.PlaceFoodIgnoresLaterDraws` | game.js:42-55 | draws after the accepted pass do not affect the result |
| `Leaderboard.InsertPermutes` | game.js:175 | inserting adds exactly the new entry to the multiset of entries |
| `Leaderboard.InsertSorted` | game.js:175 | inserting into a table sorted by descending score keeps it sorted |
| `Leaderboard.InsertStable` | game.js:175 | inserting into a sorted table appends the entry to the end of its equal-score run and leaves other runs alone |
| `Leaderboard.SortByScore` | game.js:175 | the sort keeps the length |
| `Leaderboard.SortByScorePermutes` | game.js:175 | the sort is a permutation of its input |
| `Leaderboard.SortByScoreSorted` | game.js:175 | the sort's result is non-increasing by score |
| `Leaderboard.SortByScoreStable` | game.js:175 | entries of equal score keep their relative order |
| `Leaderboard.SortByScoreOfSorted` | game.js:175 | sorting an already sorted table changes nothing |
| `Leaderboard.Record` | game.js:173-178 | the new table is sorted; its length is the old length plus one, or unchanged when that would exceed 10; at most 10 if it was at most 10 |
| `Leaderboard.RecordKeepsAllButLowest` | game.js:174-178 | under the cap the table holds exactly the old entries plus the new one; past the cap exactly one entry of old + new is missing, and it scores no more than any kept entry |
| `Leaderboard.RecordStable` | game.js:174-177 | each equal-score run of the new table is a prefix of that run in the old table followed by the new entry |
| `Leaderboard.RecordTieAtCutoffRejected` | game.js:175-178 | on a full table, a score that only ties or trails the tenth entry leaves the table unchanged |
| `Leaderboard.RecordOnSorted` | game.js:174-178 | on a sorted table, recording is inserting after every entry scoring at least as much, then dropping the last entry past the cap |
| `Leaderboard.RecordExample` | game.js:173-178 | recording scores 5, 9, 3, 9 (A, B, C, D) into an empty table gives B, D, A, C |
| `SnakeGame.Game.constructor` | game.js:18-35 | the initial globals: snake [(5,5)], score 0, direction right, not paused, not running, empty name and table; food placed by createFood |
| `SnakeGame.Game.CreateFood` | game.js:37-56 | the do-while loop ends with the food that PlaceFood gives, off every segment and in the inset |
| `SnakeGame.Game.MoveSnake` | game.js:72-97 | the snake becomes Move of the old snake; eating adds exactly 1 to the score and places food against the pre-move snake; otherwise score and food are unchanged |
| `SnakeGame.Game.AddScoreToLeaderboard` | game.js:173-180 | push, sort, one pop past the cap: the table becomes Record of the old table; the stored copy equals it |
| `SnakeGame.Game.StartGame` | game.js:110-119 | score 0, not paused, running, snake [(30,20),(29,20)], food off that snake; direction, name and table unchanged; the invariant holds |
| `SnakeGame.Game.Tick` | game.js:120-131 | when paused or stopped nothing changes; otherwise the snake moves, and it is still running iff not game over; on game over (name, score reached) is recorded once and stored, otherwise table and storage are unchanged |
| `SnakeGame.Game.Step` | game.js:121-129 | on a running, unpaused game: the snake moves as Move says, eating adds 1 and places new food, the round goes on iff not game over, and only a fatal move records (name, score) into table and storage |
| `SnakeGame.Game.EndRound` | game.js:124-127 | stops the round and records (playerName, score) into the table and storage |
| `SnakeGame.Game.PauseGame` | game.js:134-136 | only `isPaused` changes, to true |
| `SnakeGame.Game.ResumeGame` | game.js:138-140 | only `isPaused` changes, to false |
| `SnakeGame.Game.HandleKeyDown` | game.js:142-165 | only `direction` changes, as Turn says, and never to the opposite of the old direction |
| `SnakeGame.Game.SubmitName` | game.js:169 | only `playerName` changes, to the submitted name |
| `Scenarios.StartedGame` | game.js:110-119 | a started round has the two start cells, score 0, direction right, and the food where the draws put it; storage still holds what it held at page load |
| `Scenarios.StraightRun` | game.js:120-140 | three unpaused ticks to the right move the head from (30,20) to (33,20); the paused tick does nothing; length 2 and score 0 remain |
| `Scenarios.EatOnce` | game.js:89-96 | eating gives score 1 and length 3; the first proposed food cell, on the old head, is rejected and the next one is taken |
| `Scenarios.FoodUnderNewHead` | game.js:89-96 | new food can be placed on the cell the head has just moved to |
| `Scenarios.TurnAroundAndRestart` | game.js:110-165 | up then left within one tick turns a fresh snake around without dying; a new round keeps direction left |
| `Scenarios.RunIntoWall` | game.js:120-131 | running up, the 21st tick leaves the grid, ends the round and records (name, 0) once; a further tick changes nothing; storage then holds only (name, 0), whatever it held at page load |

## Left out

- Canvas drawing (`drawSnake`, `drawFood`, game.js:58-70) and the score text (game.js:91, 116): output only.
- DOM lookups and event wiring (game.js:1-10, 27-35): plumbing. `init()` is folded into the constructor.
- `showLeaderboard` (game.js:182-199): table rendering and the read-back from local storage. `JSON.stringify`, `JSON.parse` and `localStorage` are foreign calls. Only the write of game.js:179 is kept, as the ghost field `stored`.
- `alert` (game.js:128): user notification only.
- `handleSubmit` form handling (game.js:167-171): only its assignment of `playerName` is kept, as `SubmitName`.
- `setInterval`, `clearInterval` and the 40 ms period: the timer becomes the `running` flag, and each firing is a call of `Tick`. A cleared timer never fires, so `Tick` does nothing while `running` is false.
- `Math.random`, the 0.7 and 0.5 probabilities, and floating-point rounding: each pass of createFood is a caller-supplied `Draw` whose offsets lie in the ranges that `Math.floor(Math.random() * range)` can produce. Only those range facts are modelled.
- `SnakeGame.Game.CreateFood`: the source loops until a free cell comes up and has no retry bound. The model requires that the supplied draws contain one (`Supplies`), which is exactly the case where the loop ends. Draw sequences that never hit a free cell, where the page would hang, are not modelled. `MoveSnake`, `StartGame`, `Tick` and the constructor inherit this requirement only when they place food.
- The read-back of game.js:186 in `showLeaderboard`: it loses no behaviour. The in-memory table starts empty (game.js:25), and `showLeaderboard` runs only at game.js:127, right after `addScoreToLeaderboard` has written the table at game.js:179, so the parse returns the list just written. The in-memory table is therefore only ever built by `addScoreToLeaderboard`, and is always sorted and capped, which `Valid()` states.
