/** The state of playGameManually (main.cpp:280-333): a fresh getMaze
    board, the player and a step counter. The keys typed at the prompt are
    an input sequence. */
module Manual {
  import opened Actions
  import opened Board
  import opened Moves

  /** Manual play has no key test: a character that is not a move key aims
      at the player's own cell. Standing on '.' or 'T' that counts as a walk
      (one step, no movement); standing on a box cell it is a blocked push. */
  lemma UnknownKeyStandsStill(g: Grid, x: int, y: int, move: char)
    requires IsGrid(g) && InBounds(x, y) && !IsMoveKey(move)
    ensures Classify(g, x, y, x + Delta(move).0, y + Delta(move).1) ==
      if g[x][y] == Wall then Rejected
      else if g[x][y] == Free || g[x][y] == Target then Walk
      else PushBlocked
  {
  }

  /** The part of manual play's state that the keys change. */
  datatype Session = Session(board: Grid, playerX: int, playerY: int, steps: nat)

  /** One pass of the loop body of main.cpp:292-327: re-mark the targets,
      then resolve the key; a walk or a push counts one step. */
  function PlayKey(s: Session, move: char): (r: Session)
    requires IsGrid(s.board)
    ensures IsGrid(r.board)
    ensures r.steps == s.steps + 1 <==> (r.playerX, r.playerY) != (s.playerX, s.playerY) || Attempt(Remarked(s.board), s.playerX, s.playerY, move).kind == Walk
    ensures r.steps == s.steps || r.steps == s.steps + 1
  {
    var o := Attempt(Remarked(s.board), s.playerX, s.playerY, move);
    Session(o.board, o.x, o.y, if o.kind == Walk || o.kind == Push then s.steps + 1 else s.steps)
  }

  /** A key keeps the board consistent and the player on it, off the walls. */
  lemma PlayKeyKeepsPlayable(s: Session, move: char)
    requires Playable(s.board, s.playerX, s.playerY)
    ensures var r := PlayKey(s, move); Playable(r.board, r.playerX, r.playerY)
  {
    RemarkKeepsConsistent(s.board);
    AttemptKeepsInvariant(Remarked(s.board), s.playerX, s.playerY, move);
  }

  /** The win test of main.cpp:289 runs before the next re-marking, yet after
      a key played on a board that was not won it holds only when both
      targets hold a box. */
  lemma PlayKeyWinMeansCovered(s: Session, move: char)
    requires Playable(s.board, s.playerX, s.playerY) && !IsWin(s.board)
    ensures IsWin(PlayKey(s, move).board) ==> TargetsCovered(PlayKey(s, move).board)
  {
    RemarkKeepsConsistent(s.board);
    assert !IsWin(Remarked(s.board));
    WonAfterAttemptMeansCovered(Remarked(s.board), s.playerX, s.playerY, move);
  }

  /** The keys resolved one after another, and whether every board before
      the last key was not won, so that play read them all. At most one step
      is counted per key. */
  function Replay(s: Session, moves: seq<char>): (r: (Session, bool))
    requires IsGrid(s.board)
    ensures IsGrid(r.0.board)
    ensures s.steps <= r.0.steps <= s.steps + |moves|
    ensures r.1 && moves != [] ==> !IsWin(s.board)
    decreases |moves|
  {
    if moves == [] then (s, true)
    else
      var before := Replay(s, moves[..|moves| - 1]);
      (PlayKey(before.0, moves[|moves| - 1]), before.1 && !IsWin(before.0.board))
  }

  /** One more key is resolved on the state the earlier keys left. */
  lemma ReplayStep(s: Session, moves: seq<char>, n: nat)
    requires IsGrid(s.board) && n < |moves|
    ensures var before := Replay(s, moves[..n]);
      Replay(s, moves[..n + 1]) == (PlayKey(before.0, moves[n]), before.1 && !IsWin(before.0.board))
  {
    assert moves[..n + 1][..n] == moves[..n];
  }

  /** Keys keep the board playable, and when play read them all (no board
      before a key was won) a won board at the end has a box on every
      target. */
  lemma {:induction false} ReplayWinMeansCovered(s: Session, moves: seq<char>)
    requires Playable(s.board, s.playerX, s.playerY)
    ensures var r := Replay(s, moves);
      Playable(r.0.board, r.0.playerX, r.0.playerY) && (r.1 && moves != [] && IsWin(r.0.board) ==> TargetsCovered(r.0.board))
    decreases |moves|
  {
    if moves != [] {
      var earlier := moves[..|moves| - 1];
      ReplayWinMeansCovered(s, earlier);
      var before := Replay(s, earlier);
      PlayKeyKeepsPlayable(before.0, moves[|moves| - 1]);
      if before.1 && !IsWin(before.0.board) {
        PlayKeyWinMeansCovered(before.0, moves[|moves| - 1]);
      }
    }
  }

  class ManualGame {
    var board: Grid
    var playerX: int
    var playerY: int
    var steps: nat

    /** The board is consistent and the player stands on the board, never on a wall. */
    ghost predicate Valid()
      reads this
    {
      Playable(board, playerX, playerY)
    }

    /** The fields the keys change, as one value. */
    ghost function State(): Session
      reads this
    {
      Session(board, playerX, playerY, steps)
    }

    /** The set-up of main.cpp:284-286 for a start that passed the test of main.cpp:345. */
    constructor (startX: int, startY: int)
      requires StartAccepted(startX, startY)
      ensures Valid()
      ensures board == InitialBoard && playerX == startX && playerY == startY && steps == 0
    {
      var maze := GetMaze();
      board := maze;
      playerX, playerY := startX, startY;
      steps := 0;
      InitialBoardConsistent();
    }

    /** The move/push block of manual play (main.cpp:302-325). There is no
        key test: any other character aims at the player's own cell, which
        then counts as a walk when it shows '.' or 'T'. A push against a
        wall is not singled out: like every other blocked push it changes
        nothing. `kind` names the branch taken; the contract proves it is the
        classification `Classify` gives. */
    method Move(move: char) returns (kind: Kind, nextX: int, nextY: int)
      requires Valid()
      modifies this
      ensures Valid()
      ensures nextX == old(playerX) + Delta(move).0 && nextY == old(playerY) + Delta(move).1
      ensures kind == Classify(old(board), old(playerX), old(playerY), nextX, nextY)
      ensures kind == Walk || kind == Push ==> playerX == nextX && playerY == nextY && steps == old(steps) + 1
      ensures kind != Walk && kind != Push ==> playerX == old(playerX) && playerY == old(playerY) && steps == old(steps)
      ensures board == if kind == Push
                       then PushBox(old(board), nextX, nextY, Beyond(old(playerX), nextX), Beyond(old(playerY), nextY))
                       else old(board)
      ensures var o := Attempt(old(board), old(playerX), old(playerY), move);
        kind == o.kind && board == o.board && playerX == o.x && playerY == o.y
    {
      ghost var before := State();
      // The four key tests of main.cpp:303-306; any other key leaves next at the player.
      var d := Delta(move);
      nextX, nextY := playerX + d.0, playerY + d.1;
      kind := Rejected;
      if InBounds(nextX, nextY) && board[nextX][nextY] != Wall {
        kind := PushBlocked;
        if board[nextX][nextY] == Free || board[nextX][nextY] == Target {
          playerX, playerY := nextX, nextY;
          steps := steps + 1;
          kind := Walk;
        } else if board[nextX][nextY] == Box {
          var beyondX, beyondY := Beyond(playerX, nextX), Beyond(playerY, nextY);
          if InBounds(beyondX, beyondY) && (board[beyondX][beyondY] == Free || board[beyondX][beyondY] == Target) {
            PushKeepsConsistent(board, nextX, nextY, beyondX, beyondY);
            board := PushBox(board, nextX, nextY, beyondX, beyondY);
            playerX, playerY := nextX, nextY;
            steps := steps + 1;
            kind := Push;
          } else if InBounds(beyondX, beyondY) && board[beyondX][beyondY] == Wall {
            // Handled like any other blocked push; only the reported kind differs.
            kind := PushIntoWall;
          }
        }
      }
      AttemptAgrees(before.board, before.playerX, before.playerY, move, nextX, nextY, kind, board, playerX, playerY);
    }

    /** One pass of the loop body (main.cpp:292-327): re-mark the targets,
        then resolve the key. */
    method Turn(move: char)
      requires Valid()
      modifies this
      ensures Valid()
      ensures State() == PlayKey(old(State()), move)
    {
      board := RemarkTargets(board);
      var kind, nextX, nextY := Move(move);
    }

    /** The loop of main.cpp:289-328 fed with the typed keys: while the board
        is not won and keys remain, re-mark the targets and resolve the next
        key. The keys read are resolved in order, no board before the last
        one read was won, and keys are left unread only on a won board, where
        both targets hold a box. */
    method Play(moves: seq<char>) returns (used: nat)
      requires Valid()
      modifies this
      ensures Valid()
      ensures used <= |moves|
      ensures Replay(old(State()), moves[..used]) == (State(), true)
      ensures used < |moves| ==> IsWin(board)
      ensures old(steps) <= steps <= old(steps) + used
      ensures used > 0 && IsWin(board) ==> TargetsCovered(board)
    {
      ghost var start := State();
      used := 0;
      var won := CheckWin(board);
      while !won && used < |moves|
        invariant Valid()
        invariant used <= |moves|
        invariant won == IsWin(board)
        invariant Replay(start, moves[..used]) == (State(), true)
        decreases |moves| - used
      {
        ReplayStep(start, moves, used);
        Turn(moves[used]);
        used := used + 1;
        won := CheckWin(board);
      }
      ReplayWinMeansCovered(start, moves[..used]);
    }
  }
}
