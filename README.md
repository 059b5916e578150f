# Sokoban with Q-learning: the puzzle engine in Dafny

This project models the engine of a 7×7 box-pushing puzzle written in C++
(`main.cpp`). The model covers these parts:

- the board built by `getMaze`;
- the win test `checkWin`;
- the reward function `calculateReward`;
- the two copies of the move/push rules, one in the learning loop of
  `playGameWithQLearning` and one in `playGameManually`;
- the target re-marking step both loops run before each move;
- the episode reset;
- the mapping between the action keys `w`/`s`/`a`/`d` and the indices 0..3
  of the action-value table.

Cells are characters: `#` wall, `.` free floor, `T` an uncovered target, `B`
a box (also a box on a target). The board is a `seq<seq<char>>`.

Modules:

- `Actions`: the key/offset/index mappings.
- `Board`:
  - the layout constants and `getMaze`;
  - the predicate `Consistent`, the invariant every reachable board keeps;
  - `checkWin`, re-marking and the board part of the reset, each a method
    with loops over the board.
- `Moves`: `Classify`, the single statement of the move rules, plus the
  push update and its lemmas.
- `Reward`: `calculateReward` as written, the reward its comment describes,
  and lemmas relating the two.
- `Learning`: the class `LearningGame`, holding the state of the learning
  run and one method per block of its loop.
- `Manual`: the class `ManualGame`, for manual play.

`Consistent(g)` says four things:

- the walls are exactly the border plus the obstacle cells;
- every cell is one of the four characters;
- a `T` stands only on a target coordinate;
- there are exactly two boxes.

`Board.Playable(g, x, y)` adds "the player stands on the board and never
on a wall". Both game classes keep it as part of their invariant `Valid()`,
and every method of both classes preserves it.

Five behaviours of the code are modelled as written:

- **Push against a wall.** `main.cpp:193` asks whether a cell known to hold
  `B` is not `T`. That is always true, so every push against a wall on the
  board is the `continue` at `main.cpp:194`. The comment there suggests such
  a push onto a target would be recorded; it never is.
- **Dead branches.** `main.cpp:209` and `main.cpp:220-222` can never run, so
  they have no counterpart.
- **Manual play without a key test.** An unknown key aims at the player's
  own cell. It counts a step when that cell shows `.` or `T`.
- **The reward.** `calculateReward` pays 1000.0 only when no interior cell
  holds a box. That never happens on a reachable board, so every value
  update the learning loop requests carries the step cost -0.1. This holds
  even for the move that wins the game. The reward the comment at
  `main.cpp:55` describes is `Reward.IntendedReward`. It is proved to pay
  1000.0 exactly on a board whose targets are all covered.
- **The win test before re-marking.** Both loops test for a win right after
  the move, when a target may still show the `.` a box left, so the test
  only says that no `T` is left. Because the two targets are not
  neighbours, a win reported from a board that was not won still means that
  both targets hold a box (`Moves.WonAfterAttemptMeansCovered` and the
  lemmas built on it).

## Model

| member | source | states |
|---|---|---|
| Actions.Delta | main.cpp:178-181 | each move key moves exactly one row or one column by one cell; `w`/`s` change the row and `a`/`d` the column; `w` and `a` step towards index 0, `s` and `d` away from it; any other character does not move |
| Actions.ActionIndex | main.cpp:43-47 | a character has a table index iff it is a move key; the index is below 4 and maps back to the same key |
| Actions.ActionChar | main.cpp:76-87 | every index gives a move key: 0, 1, 2 give `w`, `s`, `a` and every other index gives `d` |
| Actions.IndexCharRoundTrip | main.cpp:43-47 | index → key → index is the identity on 0..3 |
| Board.InitialBoardLayout | main.cpp:99-133 | the built board is 7×7; every cell follows the layout rule: border and the eleven obstacles are `#`, boxes at (3,3) and (4,4), targets at (1,2) and (3,1), every other cell `.` |
| Board.ObstacleList | main.cpp:120-130 | the eleven obstacle writes cover exactly columns 3-5 of rows 1, 2 and 5 of the interior, and every listed cell is a wall cell |
| Board.GetMaze | main.cpp:99-133 | filling with `#`, freeing the interior, then stamping targets, boxes and obstacles, yields exactly the pictured initial board |
| Board.InitialBoardConsistent | main.cpp:99-133 | the initial board is consistent and its boxes are exactly (3,3) and (4,4) |
| Board.StartCells | main.cpp:345 | a start passes the `#` test iff it is an interior cell outside the obstacles; a box cell passes |
| Board.CheckWin | main.cpp:25-33 | the scan returns true iff no cell in rows and columns 1..5 shows `T` |
| Board.WinIffTargetsCovered | main.cpp:25-33 | on a consistent board the win test depends only on the two target cells; after re-marking, the board is won iff both targets hold a box |
| Board.BorderAndTargetCells | main.cpp:166-170 | on a consistent board the border is all `#`, and a target cell shows `T`, `B` or the `.` a box leaves until re-marking |
| Board.Remarked | main.cpp:166-170 | the re-marked board differs from the input exactly at the target cells that showed `.`, which now show `T` |
| Board.RemarkKeepsConsistent | main.cpp:166-170 | re-marking a consistent board keeps it consistent with the same box set, and every target then shows `T` or `B` |
| Board.RemarkTargets | main.cpp:166-170 | the loop over the target list returns exactly `Remarked(board)`; on a consistent board it keeps consistency and the box set and marks every target |
| Board.RestoreLayout | main.cpp:238-253 | interior `P`/`B` cells are cleared, targets then boxes are stamped, and everything else is kept; from a consistent board the result is exactly the `getMaze` board |
| Moves.ClassifyOnConsistent | main.cpp:185-225 | on a consistent board the move rules (`Classify`) reject exactly a target off the board or on a wall cell of the layout, walk exactly onto `.` or `T`, push exactly when the cell beyond the box is on the board and `.` or `T`, hit a wall exactly when that cell is a wall cell, and are blocked exactly when it is off the board or holds a box |
| Moves.PushBox | main.cpp:215-216 | a push writes `B` on the beyond cell and `.` on the box's cell, and leaves every other cell as it was |
| Moves.PushMovesOneBox | main.cpp:215-216 | a push removes the box cell from the box set and adds the beyond cell, so the number of boxes is unchanged |
| Moves.PushKeepsConsistent | main.cpp:204-223 | a push onto `.` or `T` keeps the board consistent: no wall appears or disappears, no `T` is written, and there are still two boxes |
| Moves.AttemptKeepsInvariant | main.cpp:185-229 | resolving any key from a consistent board, with the player on the board and off the walls, keeps the board consistent with as many boxes, and leaves the player on the board, off the walls and at most one cell away |
| Moves.PushWinMeansCovered | main.cpp:204-223 | a push from a re-marked board that is not won leaves a board with no `T` only when both targets hold a box, since the two targets are not neighbours |
| Moves.WonAfterAttemptMeansCovered | main.cpp:185-229 | the win test right after an attempt, before re-marking, holds only when both targets hold a box, for any attempt from a re-marked board that is not won |
| Reward.CalculateReward | main.cpp:54-70 | the scan returns 1000.0 iff no interior cell holds `B`, otherwise -0.1; the player and step count do not matter |
| Reward.RewardNeverTerminal | main.cpp:59 | on every consistent board some interior cell holds a box, so the 1000.0 reward is never paid |
| Reward.SolvedBoardBoxes | main.cpp:55 | the board with both boxes pushed onto the targets has its boxes exactly on (1,2) and (3,1) |
| Reward.SolvedBoardGetsStepCost | main.cpp:54-70 | the solved board is consistent, won and has every target covered, yet `calculateReward` still returns -0.1 on it |
| Reward.BoxesOnTargetsIffCovered | main.cpp:55 | on a consistent board, "every box is on a target" is equivalent to "every target holds a box" |
| Reward.IntendedReward | main.cpp:55 | the described reward is 1000.0 or -0.1, and on a consistent board it is 1000.0 iff every target is covered |
| Learning.LearningGame.constructor | main.cpp:141-161 | for an accepted start: the `getMaze` board, the player on the start cell, zero steps, an empty trace, zero resets and no value updates; the invariant holds |
| Learning.LearningGame.Move | main.cpp:174-229 | a non-key or a move off the board or into `#` changes nothing; a push against an in-bounds wall changes nothing and leaves no trace entry; a walk moves the player one cell and adds one step; a push does the same and moves the box; a blocked push only adds the key to the trace; the invariant is kept |
| Learning.TickState | main.cpp:166-234 | one tick counts at most one step, and reports a win only on a won board |
| Learning.TickKeepsPlayable | main.cpp:166-234 | a tick keeps the board consistent and the player on it, off the walls; the update it requests, if any, carries the step cost -0.1, an action below 4 and in-table cells |
| Learning.RunTicks | main.cpp:165-235 | the ticks for a sequence of choices count at most one step each; a reported win means a won board; an episode still open before its first tick had fewer than 100 steps |
| Learning.RunTicksGrow | main.cpp:165-235 | over the ticks of an episode the trace and the update log only grow |
| Learning.RunTicksKeepPlayable | main.cpp:165-235 | over the ticks of an episode the board stays consistent and the player on it; every update requested carries the step cost -0.1, never the 1000.0 reward, with an action below 4 and in-table cells |
| Learning.TickWinMeansCovered | main.cpp:166-234 | from a board that is not won, a tick reports a win only when both targets hold a box, and a tick that reports none leaves a board that is not won |
| Learning.RunTicksWinMeansCovered | main.cpp:164-235 | an episode started on a board that is not won, while open, reports a win only with both targets covered, and otherwise still has a board that is not won |
| Learning.LearningGame.Tick | main.cpp:166-234 | one pass of the loop leaves the state and win flag `TickState` gives; the move is classified on the re-marked board, the board becomes the push result on the re-marked board or the re-marked board itself, a step is counted for a walk or a push, and `won` is the win test unless the push hit a wall; an update with the step cost is requested unless the push hit a wall |
| Learning.LearningGame.Learn | main.cpp:231-234 | the reward is always -0.1; exactly one update is logged, for the player's cell, the action's index and the aimed-at cell; the board and player are untouched; `won` is the win test |
| Learning.LearningGame.RunEpisode | main.cpp:165-235 | the choices read are run as ticks in order: the final state and `won` are those of `RunTicks`, and before every tick fewer than 100 steps were counted, the reset cap was not reached and no earlier tick saw a won board; choices are left unread only at the step cap, on a won board or at the reset cap; a win reported in an episode that began on a board that was not won means both targets hold a box; steps never pass the cap |
| Learning.LearningGame.Restart | main.cpp:238-259 | from any valid state, the board becomes exactly the `getMaze` board, the player returns to the start, the steps and trace are cleared and the reset count rises by one; the update log is untouched and the invariant holds |
| Learning.LearningGame.EndEpisode | main.cpp:237-260 | a won board is left as it is; otherwise the board becomes exactly the `getMaze` board, the player returns to the start, the steps and trace are cleared and the reset count rises by one; the update log is untouched either way; a reset after an episode that ran its 100 steps leaves the reported total unchanged |
| Learning.LearningGame.Report | main.cpp:264-268 | a total is reported iff the reset cap was not reached, and it counts 100 steps per reset plus the current steps |
| Manual.UnknownKeyStandsStill | main.cpp:302-310 | an unknown key aims at the player's own cell: a walk (one step, no movement) on `.` or `T`, a blocked push on a box cell |
| Manual.ManualGame.constructor | main.cpp:284-286 | manual play starts on the `getMaze` board at the given start with zero steps; the invariant holds |
| Manual.ManualGame.Move | main.cpp:302-327 | with no key test: off-board or `#` targets, blocked pushes and pushes against walls change nothing; a walk moves the player to the aimed-at cell (one cell for a move key, none for any other character) and adds one step; a push also moves the box; the invariant is kept |
| Manual.PlayKey | main.cpp:292-327 | one key, after re-marking, counts a step exactly when the player moves or walks in place, and at most one |
| Manual.Replay | main.cpp:289-328 | resolving keys one after another counts at most one step per key; a replay that reads every key started on a board that is not won |
| Manual.PlayKeyKeepsPlayable | main.cpp:292-327 | a key keeps the board consistent and the player on the board, off the walls |
| Manual.PlayKeyWinMeansCovered | main.cpp:289-327 | after a key played on a board that is not won, the win test holds only when both targets hold a box |
| Manual.ReplayWinMeansCovered | main.cpp:289-328 | keys keep the board playable, and when play read every key a won board at the end has a box on every target |
| Manual.ManualGame.Turn | main.cpp:292-327 | one pass of the loop leaves the state `PlayKey` gives for the key |
| Manual.ManualGame.Play | main.cpp:289-328 | the keys read are resolved in order and leave the state `Replay` gives, with no board before any key read won; keys are left unread only on a won board, and a board won after a key holds a box on every target; steps rise by at most one per key read |

## Left out

- Console I/O is not modelled. This covers `printBoardforplayer`, every prompt and message, and the reading of the start position and the keys. The start position and the keys become inputs.
- `srand`/`rand` are not modelled, nor the exploration branch and the argmax of `selectAction`. The chosen action index is an input of `Tick`/`RunEpisode`; only its mapping to a key (`Actions.ActionChar`) is modelled.
- The floating-point arithmetic of `updateQValues` is not modelled: the learning rate, the discount and the `max_element` over the next cell. `LearningGame` keeps the log of its arguments instead. Since the table starts at zero and changes only through these calls, it is a function of the log. That the log is never cleared stands for "reset does not touch the table".
- The reward values are `double` in the source and exact reals here.
- The outer loop of `main.cpp:164` (up to 6,000,000 resets) is not modelled as a running computation. `RunEpisode` and `EndEpisode` model one episode and one reset; `Report` models the final line.
- Learning.LearningGame.RunEpisode: it reads a finite sequence of choices, so it can also stop because the choices run out. The source draws actions forever, so its inner loop ends only at the step cap, a win or the reset cap.
- Learning.LearningGame.constructor: it requires an accepted start. The early return of `main.cpp:154-156` is therefore not modelled; `main` (`main.cpp:345-348`) makes the same test before calling.
- Manual.ManualGame.constructor: it requires an accepted start, for the same reason.
- `getMaze` writes the eleven obstacle cells as eleven statements. Board.GetMaze writes them in the same order by a loop over the obstacle list.
- The branch of `main.cpp:209` and the write of `main.cpp:220-222` can never run and have no counterpart in the model.
