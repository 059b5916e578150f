/** The state of playGameWithQLearning (main.cpp:137-277): one board, the
    player, the per-episode step counter and trace, the reset counter, and
    the log of value-update requests that the action-value table is built
    from. The chosen action of each tick is an input: selectAction draws it
    at random or from the table, and only its key mapping is modelled. */
module Learning {
  import opened Actions
  import opened Board
  import opened Moves
  import opened Reward

  /** An episode ends once its step counter reaches this (main.cpp:165). */
  const EpisodeCap: int := 100
  /** The run gives up after this many resets (main.cpp:164). */
  const MaxResets: int := 6000000

  /** The arguments of one updateQValues call (main.cpp:233): the player's
      cell after the move, the table index of the action, the reward, and the
      cell the move aimed at. */
  datatype QUpdate = QUpdate(stateX: int, stateY: int, action: nat, reward: real, nextX: int, nextY: int)

  /** The part of the learning state one tick changes. */
  datatype Episode = Episode(board: Grid, playerX: int, playerY: int, steps: nat,
                             stepsTaken: seq<char>, qUpdates: seq<QUpdate>)

  /** One tick of the loop body of main.cpp:166-234 for the action index
      `choice`, and whether its win test at main.cpp:234 fires: re-mark the
      targets and resolve the key; a push against a wall ends the tick there
      (main.cpp:194); otherwise the trace takes the key unless the move was
      rejected, and one value update is requested with the reward
      calculateReward gives the new board. */
  function TickState(e: Episode, choice: int): (r: (Episode, bool))
    requires IsGrid(e.board)
    ensures IsGrid(r.0.board)
    ensures r.0.steps == e.steps || r.0.steps == e.steps + 1
    ensures r.1 ==> IsWin(r.0.board)
  {
    var move := ActionChar(choice);
    var marked := Remarked(e.board);
    var o := Attempt(marked, e.playerX, e.playerY, move);
    if o.kind == PushIntoWall then (e.(board := marked), false)
    else
      var reward := if NoInteriorBox(o.board) then WinReward else StepCost;
      (Episode(o.board, o.x, o.y,
               if o.kind == Walk || o.kind == Push then e.steps + 1 else e.steps,
               if o.kind == Rejected then e.stepsTaken else e.stepsTaken + [move],
               e.qUpdates + [QUpdate(o.x, o.y, ActionIndex(move).value, reward, o.nextX, o.nextY)]),
       IsWin(o.board))
  }

  /** A tick given by the outcome of its move, as the methods below state
      it, is the tick TickState describes. */
  lemma TickAgrees(e: Episode, choice: int, r: Episode, won: bool, kind: Kind, nextX: int, nextY: int)
    requires IsGrid(e.board)
    requires nextX == e.playerX + Delta(ActionChar(choice)).0 && nextY == e.playerY + Delta(ActionChar(choice)).1
    requires kind == Classify(Remarked(e.board), e.playerX, e.playerY, nextX, nextY)
    requires kind == Walk || kind == Push ==> r.playerX == nextX && r.playerY == nextY && r.steps == e.steps + 1
    requires kind != Walk && kind != Push ==> r.playerX == e.playerX && r.playerY == e.playerY && r.steps == e.steps
    requires r.board == if kind == Push
                        then PushBox(Remarked(e.board), nextX, nextY, Beyond(e.playerX, nextX), Beyond(e.playerY, nextY))
                        else Remarked(e.board)
    requires r.stepsTaken == if kind == Rejected || kind == PushIntoWall then e.stepsTaken else e.stepsTaken + [ActionChar(choice)]
    requires r.qUpdates == if kind == PushIntoWall then e.qUpdates
                           else e.qUpdates + [QUpdate(r.playerX, r.playerY, ActionIndex(ActionChar(choice)).value, StepCost, nextX, nextY)]
    requires IsGrid(r.board) && (kind != PushIntoWall ==> !NoInteriorBox(r.board))
    requires won == (kind != PushIntoWall && IsWin(r.board))
    ensures (r, won) == TickState(e, choice)
  {
  }

  /** The ticks for `choices`, one after another: the state they leave,
      whether the last of them saw a won board, and whether the episode was
      still open before each of them (fewer than EpisodeCap steps counted
      and no won board seen by the tick before). */
  function RunTicks(e: Episode, choices: seq<int>): (r: (Episode, bool, bool))
    requires IsGrid(e.board)
    ensures IsGrid(r.0.board)
    ensures e.steps <= r.0.steps <= e.steps + |choices|
    ensures r.1 ==> IsWin(r.0.board) && choices != []
    ensures r.2 && choices != [] ==> e.steps < EpisodeCap
    decreases |choices|
  {
    if choices == [] then (e, false, true)
    else
      var before := RunTicks(e, choices[..|choices| - 1]);
      var t := TickState(before.0, choices[|choices| - 1]);
      (t.0, t.1, before.2 && before.0.steps < EpisodeCap && !before.1)
  }

  /** One more choice runs one more tick on the state the earlier ones left. */
  lemma RunTicksSnoc(e: Episode, choices: seq<int>, n: nat)
    requires IsGrid(e.board) && n < |choices|
    ensures var before := RunTicks(e, choices[..n]);
      var t := TickState(before.0, choices[n]);
      RunTicks(e, choices[..n + 1]) == (t.0, t.1, before.2 && before.0.steps < EpisodeCap && !before.1)
  {
    assert choices[..n + 1][..n] == choices[..n];
  }

  /** While the episode is open, one more choice runs one more tick on the
      state the earlier ones left. */
  lemma RunTicksStep(e: Episode, choices: seq<int>, n: nat, before: Episode, after: Episode, won: bool)
    requires IsGrid(e.board) && n < |choices|
    requires RunTicks(e, choices[..n]) == (before, false, true) && before.steps < EpisodeCap
    requires (after, won) == TickState(before, choices[n])
    ensures RunTicks(e, choices[..n + 1]) == (after, won, true)
  {
    RunTicksSnoc(e, choices, n);
  }

  /** The ticks of an episode only ever append to the trace and to the log
      of value updates. */
  lemma {:induction false} RunTicksGrow(e: Episode, choices: seq<int>)
    requires IsGrid(e.board)
    ensures var r := RunTicks(e, choices).0;
      e.stepsTaken <= r.stepsTaken && e.qUpdates <= r.qUpdates
    decreases |choices|
  {
    if choices != [] {
      RunTicksGrow(e, choices[..|choices| - 1]);
    }
  }

  /** A value update for a cell and a neighbour inside the 7×7 table, for one
      of the four actions, carrying the step cost. */
  predicate StepCostUpdate(u: QUpdate)
  {
    u.reward == StepCost && u.action < 4 && InBounds(u.stateX, u.stateY) && InBounds(u.nextX, u.nextY)
  }

  /** A tick keeps the board consistent and the player on it, and the update
      it requests, if any, is a step-cost update inside the table: the
      1000.0 reward of calculateReward is never paid. */
  lemma TickKeepsPlayable(e: Episode, choice: int)
    requires Playable(e.board, e.playerX, e.playerY)
    ensures var r := TickState(e, choice).0;
      Playable(r.board, r.playerX, r.playerY) && forall k :: |e.qUpdates| <= k < |r.qUpdates| ==> StepCostUpdate(r.qUpdates[k])
  {
    var marked := Remarked(e.board);
    RemarkKeepsConsistent(e.board);
    var o := Attempt(marked, e.playerX, e.playerY, ActionChar(choice));
    AttemptKeepsInvariant(marked, e.playerX, e.playerY, ActionChar(choice));
    assert IsInterior(e.playerX, e.playerY);
    if o.kind != PushIntoWall {
      RewardNeverTerminal(o.board);
    }
  }

  /** Every tick of an episode keeps the board consistent and the player on
      it, and requests only step-cost updates inside the table. */
  lemma {:induction false} RunTicksKeepPlayable(e: Episode, choices: seq<int>)
    requires Playable(e.board, e.playerX, e.playerY)
    ensures var r := RunTicks(e, choices).0;
      Playable(r.board, r.playerX, r.playerY) && forall k :: |e.qUpdates| <= k < |r.qUpdates| ==> StepCostUpdate(r.qUpdates[k])
    decreases |choices|
  {
    if choices != [] {
      var earlier := choices[..|choices| - 1];
      RunTicksKeepPlayable(e, earlier);
      TickKeepsPlayable(RunTicks(e, earlier).0, choices[|choices| - 1]);
    }
  }

  /** The win test of a tick (main.cpp:234) runs before the next re-marking,
      yet from a board that is not won it fires only when both targets hold
      a box; a tick whose test does not fire, including one that ends at a
      push into a wall, leaves a board that is not won. */
  lemma TickWinMeansCovered(e: Episode, choice: int)
    requires Playable(e.board, e.playerX, e.playerY) && !IsWin(e.board)
    ensures var t := TickState(e, choice);
      if t.1 then TargetsCovered(t.0.board) else !IsWin(t.0.board)
  {
    RemarkKeepsConsistent(e.board);
    assert !IsWin(Remarked(e.board));
    WonAfterAttemptMeansCovered(Remarked(e.board), e.playerX, e.playerY, ActionChar(choice));
  }

  /** An episode starts on a board that is not won (the outer loop of
      main.cpp:164 tests it). While it is open, a win it reports means both
      targets hold a box, and otherwise its board is still not won. */
  lemma {:induction false} RunTicksWinMeansCovered(e: Episode, choices: seq<int>)
    requires Playable(e.board, e.playerX, e.playerY) && !IsWin(e.board)
    ensures var r := RunTicks(e, choices);
      r.2 ==> if r.1 then TargetsCovered(r.0.board) else !IsWin(r.0.board)
    decreases |choices|
  {
    if choices != [] {
      var earlier := choices[..|choices| - 1];
      RunTicksWinMeansCovered(e, earlier);
      RunTicksKeepPlayable(e, earlier);
      var before := RunTicks(e, earlier);
      if before.2 && !before.1 {
        TickWinMeansCovered(before.0, choices[|choices| - 1]);
      }
    }
  }

  class LearningGame {
    var board: Grid
    var playerX: int
    var playerY: int
    var steps: nat
    var stepsTaken: seq<char>
    var resetCounter: nat
    /** Every updateQValues call of the run, in order. The table starts at
        zero (main.cpp:144) and changes only through these calls, so it is a
        function of this log. */
    var qUpdates: seq<QUpdate>
    const initialX: int
    const initialY: int

    /** The board is consistent, the player stands on the board and never on
        a wall, the remembered start passed the start test, and the trace
        holds only move keys and at least one entry per counted step. */
    ghost predicate Valid()
      reads this
    {
      Consistent(board) &&
      InBounds(playerX, playerY) && board[playerX][playerY] != Wall &&
      StartAccepted(initialX, initialY) &&
      steps <= |stepsTaken| &&
      (forall k :: 0 <= k < |stepsTaken| ==> IsMoveKey(stepsTaken[k]))
    }

    /** The fields a tick changes, as one value. */
    ghost function Snapshot(): Episode
      reads this
    {
      Episode(board, playerX, playerY, steps, stepsTaken, qUpdates)
    }

    /** The set-up of main.cpp:141-161 for a start that passed the test. */
    constructor (startX: int, startY: int)
      requires StartAccepted(startX, startY)
      ensures Valid()
      ensures board == InitialBoard && initialX == startX && initialY == startY
      ensures playerX == startX && playerY == startY
      ensures steps == 0 && stepsTaken == [] && resetCounter == 0 && qUpdates == []
    {
      var maze := GetMaze();
      board := maze;
      initialX, initialY := startX, startY;
      playerX, playerY := startX, startY;
      steps := 0;
      stepsTaken := [];
      resetCounter := 0;
      qUpdates := [];
      InitialBoardConsistent();
    }

    /** The move/push block of the learning loop (main.cpp:174-229).
        A move off the board or into a wall, and any character that is not a
        move key, is dropped without a trace entry. A push against a wall
        on the board is the `continue` of main.cpp:194: nothing changes and
        the caller skips the reward and the update. A walk or a push moves the
        player one cell and counts a step. A push that is blocked otherwise
        changes nothing but is still written to the trace. */
    method Move(move: char) returns (kind: Kind, nextX: int, nextY: int)
      requires Valid()
      modifies this
      ensures Valid()
      ensures nextX == old(playerX) + Delta(move).0 && nextY == old(playerY) + Delta(move).1
      ensures kind == if IsMoveKey(move) then Classify(old(board), old(playerX), old(playerY), nextX, nextY) else Rejected
      ensures kind == Walk || kind == Push ==> playerX == nextX && playerY == nextY && steps == old(steps) + 1
      ensures kind != Walk && kind != Push ==> playerX == old(playerX) && playerY == old(playerY) && steps == old(steps)
      ensures board == if kind == Push
                       then PushBox(old(board), nextX, nextY, Beyond(old(playerX), nextX), Beyond(old(playerY), nextY))
                       else old(board)
      ensures stepsTaken == if kind == Rejected || kind == PushIntoWall then old(stepsTaken) else old(stepsTaken) + [move]
      ensures resetCounter == old(resetCounter) && qUpdates == old(qUpdates)
    {
      // The four key tests of main.cpp:178-181; any other key keeps validMove false.
      var d := Delta(move);
      nextX, nextY := playerX + d.0, playerY + d.1;
      var validMove := IsMoveKey(move);
      kind := Rejected;
      if validMove && InBounds(nextX, nextY) && board[nextX][nextY] != Wall {
        if board[nextX][nextY] == Box {
          var beyondX, beyondY := Beyond(playerX, nextX), Beyond(playerY, nextY);
          if InBounds(beyondX, beyondY) && board[beyondX][beyondY] == Wall {
            // The cell holds a box, so it never shows 'T' and the move is always dropped.
            if board[nextX][nextY] != Target {
              kind := PushIntoWall;
              return;
            }
          }
        }
        kind := PushBlocked;
        if board[nextX][nextY] == Free || board[nextX][nextY] == Target {
          playerX, playerY := nextX, nextY;
          steps := steps + 1;
          kind := Walk;
        } else if board[nextX][nextY] == Box {
          var beyondX, beyondY := Beyond(playerX, nextX), Beyond(playerY, nextY);
          // main.cpp:209 tests the box cell for '#', which never holds; that branch is left out.
          if InBounds(beyondX, beyondY) && (board[beyondX][beyondY] == Free || board[beyondX][beyondY] == Target) {
            PushKeepsConsistent(board, nextX, nextY, beyondX, beyondY);
            board := PushBox(board, nextX, nextY, beyondX, beyondY);
            playerX, playerY := nextX, nextY;
            steps := steps + 1;
            kind := Push;
            // main.cpp:220-222 would turn a 'T' there into 'B'; the cell already shows 'B'.
          }
        }
        stepsTaken := stepsTaken + [move];
      }
    }

    /** One tick of the learning loop (main.cpp:166-234) for the action
        index `choice`: the new state and the win flag are those of
        TickState; the move is classified on the re-marked board; every
        update requested carries the step cost and stays inside the table. */
    method Tick(choice: int) returns (won: bool, kind: Kind, nextX: int, nextY: int)
      requires Valid()
      modifies this
      ensures Valid()
      ensures (Snapshot(), won) == TickState(old(Snapshot()), choice)
      ensures nextX == old(playerX) + Delta(ActionChar(choice)).0 && nextY == old(playerY) + Delta(ActionChar(choice)).1
      ensures kind == Classify(Remarked(old(board)), old(playerX), old(playerY), nextX, nextY)
      ensures board == if kind == Push
                       then PushBox(Remarked(old(board)), nextX, nextY, Beyond(old(playerX), nextX), Beyond(old(playerY), nextY))
                       else Remarked(old(board))
      ensures won == (kind != PushIntoWall && IsWin(board))
      ensures steps == if kind == Walk || kind == Push then old(steps) + 1 else old(steps)
      ensures resetCounter == old(resetCounter)
      ensures qUpdates == if kind == PushIntoWall then old(qUpdates)
                          else old(qUpdates) + [QUpdate(playerX, playerY, ActionIndex(ActionChar(choice)).value, StepCost, nextX, nextY)]
      ensures InBounds(nextX, nextY)
    {
      ghost var before := Snapshot();
      board := RemarkTargets(board);
      var move := ActionChar(choice);
      kind, nextX, nextY := Move(move);
      won := false;
      if kind != PushIntoWall {
        won := Learn(move, nextX, nextY);
        RewardNeverTerminal(board);
      }
      TickAgrees(before, choice, Snapshot(), won, kind, nextX, nextY);
    }

    /** The end of a tick (main.cpp:231-234): the reward for the board after
        the move, the value update for the player's cell, the action and the
        aimed-at cell, and the win test. Only the update log changes. */
    method Learn(move: char, nextX: int, nextY: int) returns (won: bool)
      requires Valid() && IsMoveKey(move)
      modifies this
      ensures Valid()
      ensures board == old(board) && playerX == old(playerX) && playerY == old(playerY)
      ensures steps == old(steps) && stepsTaken == old(stepsTaken) && resetCounter == old(resetCounter)
      ensures qUpdates == old(qUpdates) + [QUpdate(playerX, playerY, ActionIndex(move).value, StepCost, nextX, nextY)]
      ensures won == IsWin(board)
    {
      var reward := CalculateReward(board, playerX, playerY, steps);
      RewardNeverTerminal(board);
      var index := ActionIndex(move);
      // updateQValues returns without a change for any other character.
      if index.Some? {
        qUpdates := qUpdates + [QUpdate(playerX, playerY, index.value, reward, nextX, nextY)];
      }
      won := CheckWin(board);
    }

    /** The inner loop of main.cpp:165-235, fed with the action index chosen
        at each tick. The choices read are applied as ticks in order (the
        state is that of RunTicks); before each of them fewer than EpisodeCap
        steps were counted, the reset cap was not reached and no earlier tick
        saw a won board. Choices are left unread only at the step cap, the
        reset cap or a won board, which `won` reports; an episode that began
        on a board that was not won reports a win only with both targets
        covered. */
    method RunEpisode(choices: seq<int>) returns (used: nat, won: bool)
      requires Valid()
      modifies this
      ensures Valid()
      ensures used <= |choices|
      ensures used > 0 ==> old(resetCounter) < MaxResets
      ensures RunTicks(old(Snapshot()), choices[..used]) == (Snapshot(), won, true)
      ensures used < |choices| ==> steps >= EpisodeCap || won || resetCounter >= MaxResets
      ensures old(steps) <= EpisodeCap ==> steps <= EpisodeCap
      ensures resetCounter == old(resetCounter)
      ensures won && !old(IsWin(board)) ==> TargetsCovered(board)
    {
      ghost var start := Snapshot();
      used := 0;
      won := false;
      while steps < EpisodeCap && resetCounter < MaxResets && used < |choices|
        invariant Valid()
        invariant used <= |choices|
        invariant RunTicks(start, choices[..used]) == (Snapshot(), won, true)
        invariant !won
        invariant used > 0 ==> old(resetCounter) < MaxResets
        invariant old(steps) <= EpisodeCap ==> steps <= EpisodeCap
        invariant resetCounter == old(resetCounter)
        decreases |choices| - used
      {
        ghost var before := Snapshot();
        var kind, nextX, nextY;
        won, kind, nextX, nextY := Tick(choices[used]);
        RunTicksStep(start, choices, used, before, Snapshot(), won);
        used := used + 1;
        if won {
          break;
        }
      }
      if !IsWin(start.board) {
        RunTicksWinMeansCovered(start, choices[..used]);
      }
    }

    /** The reset of main.cpp:238-259, for a board that is not won: restore
        the getMaze board and the start position, zero the step counter,
        clear the trace and count the reset. The update log, and with it the
        action-value table, is left as it is. */
    method Restart()
      requires Valid()
      modifies this
      ensures Valid()
      ensures board == InitialBoard && playerX == initialX && playerY == initialY &&
              steps == 0 && stepsTaken == [] && resetCounter == old(resetCounter) + 1
      ensures qUpdates == old(qUpdates)
    {
      var restored := RestoreLayout(board);
      InitialBoardConsistent();
      board, playerX, playerY := restored, initialX, initialY;
      steps, stepsTaken := 0, [];
      resetCounter := resetCounter + 1;
    }

    /** The episode end of main.cpp:237-260: unless the board is won, reset
        it (Restart). An episode that ran out its EpisodeCap steps passes
        them into the reset term, so the reported total does not change. */
    method EndEpisode() returns (reset: bool)
      requires Valid()
      modifies this
      ensures Valid()
      ensures reset == !IsWin(old(board))
      ensures reset ==> board == InitialBoard && playerX == initialX && playerY == initialY &&
                        steps == 0 && stepsTaken == [] && resetCounter == old(resetCounter) + 1
      ensures !reset ==> board == old(board) && playerX == old(playerX) && playerY == old(playerY) &&
                         steps == old(steps) && stepsTaken == old(stepsTaken) && resetCounter == old(resetCounter)
      ensures qUpdates == old(qUpdates)
      ensures reset && old(steps) == EpisodeCap && resetCounter < MaxResets ==> Report() == old(Report())
    {
      var won := CheckWin(board);
      reset := !won;
      if reset {
        Restart();
      }
    }

    /** The result line of main.cpp:264-268: the step total, in which every
        reset stands for EpisodeCap steps, or None once the reset cap is reached. */
    function Report(): (total: Option<int>)
      reads this
      ensures total.Some? <==> resetCounter < MaxResets
      ensures total.Some? ==> total.value - steps == EpisodeCap * resetCounter
    {
      if resetCounter < MaxResets then Some(steps + resetCounter * 100) else None
    }
  }
}
