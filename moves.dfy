/** The move resolver shared by both drivers: what one attempted step from
    the player's cell onto a neighbouring cell does to the board. */
module Moves {
  import opened Actions
  import opened Board

  /** The cell behind the next cell, one further step in the same direction
      (`nextX + (nextX - playerX)`). */
  function Beyond(from: int, next: int): int {
    next + (next - from)
  }

  /** How the rules classify an attempt from (x, y) onto (nextX, nextY):
      - Rejected: (nextX, nextY) is off the board or a wall;
      - Walk: (nextX, nextY) is free or an uncovered target;
      - Push: (nextX, nextY) holds a box and the cell beyond it is on the board and free or a target;
      - PushIntoWall: the cell beyond the box is on the board and a wall;
      - PushBlocked: the cell beyond the box is off the board or holds a box
        (or the next cell holds a character no board holds). */
  datatype Kind = Rejected | Walk | Push | PushIntoWall | PushBlocked

  function Classify(g: Grid, x: int, y: int, nextX: int, nextY: int): Kind
    requires IsGrid(g)
  {
    if !InBounds(nextX, nextY) || g[nextX][nextY] == Wall then Rejected
    else if g[nextX][nextY] == Free || g[nextX][nextY] == Target then Walk
    else if g[nextX][nextY] != Box then PushBlocked
    else
      var beyondX := Beyond(x, nextX);
      var beyondY := Beyond(y, nextY);
      if InBounds(beyondX, beyondY) && g[beyondX][beyondY] == Wall then PushIntoWall
      else if InBounds(beyondX, beyondY) && (g[beyondX][beyondY] == Free || g[beyondX][beyondY] == Target) then Push
      else PushBlocked
  }

  /** On a consistent board the rules read as the layout fixes them: an
      attempt is rejected exactly off the board or at a wall cell of the
      layout, and a push is stopped by a wall or blocked exactly when the
      cell beyond the box is a wall cell, or is off the board or holds a
      box, respectively. */
  lemma ClassifyOnConsistent(g: Grid, x: int, y: int, nextX: int, nextY: int)
    requires Consistent(g)
    ensures var k := Classify(g, x, y, nextX, nextY);
      var beyondX, beyondY := Beyond(x, nextX), Beyond(y, nextY);
      (k == Rejected <==> !InBounds(nextX, nextY) || IsWallCell(nextX, nextY)) &&
      (k == Walk <==> InBounds(nextX, nextY) && (g[nextX][nextY] == Free || g[nextX][nextY] == Target)) &&
      (k == Push <==> InBounds(nextX, nextY) && g[nextX][nextY] == Box && InBounds(beyondX, beyondY) &&
                      (g[beyondX][beyondY] == Free || g[beyondX][beyondY] == Target)) &&
      (k == PushIntoWall <==> InBounds(nextX, nextY) && g[nextX][nextY] == Box && InBounds(beyondX, beyondY) &&
                              IsWallCell(beyondX, beyondY)) &&
      (k == PushBlocked <==> InBounds(nextX, nextY) && g[nextX][nextY] == Box &&
                             (!InBounds(beyondX, beyondY) || g[beyondX][beyondY] == Box))
  {
  }

  /** A successful push: the box lands on (beyondX, beyondY) and (nextX, nextY) becomes free
      floor, in that order (main.cpp:215-216 and 320-321). */
  function PushBox(g: Grid, nextX: int, nextY: int, beyondX: int, beyondY: int): (h: Grid)
    requires IsGrid(g) && InBounds(nextX, nextY) && InBounds(beyondX, beyondY) && (nextX, nextY) != (beyondX, beyondY)
    ensures IsGrid(h) && h[beyondX][beyondY] == Box && h[nextX][nextY] == Free
    ensures forall i, j {:trigger h[i][j]} :: InBounds(i, j) && (i, j) != (nextX, nextY) && (i, j) != (beyondX, beyondY) ==> h[i][j] == g[i][j]
  {
    Put(Put(g, beyondX, beyondY, Box), nextX, nextY, Free)
  }

  /** A push moves exactly one box: the box set loses the next cell and
      gains the cell beyond, so the number of boxes is unchanged. */
  lemma PushMovesOneBox(g: Grid, nextX: int, nextY: int, beyondX: int, beyondY: int)
    requires IsGrid(g) && InBounds(nextX, nextY) && InBounds(beyondX, beyondY)
    requires g[nextX][nextY] == Box && g[beyondX][beyondY] != Box
    ensures BoxCells(PushBox(g, nextX, nextY, beyondX, beyondY)) == BoxCells(g) - {(nextX, nextY)} + {(beyondX, beyondY)}
    ensures |BoxCells(PushBox(g, nextX, nextY, beyondX, beyondY))| == |BoxCells(g)|
  {
    var h := PushBox(g, nextX, nextY, beyondX, beyondY);
    var before, after := BoxCells(g), BoxCells(h);
    forall p | p in after ensures p in before - {(nextX, nextY)} + {(beyondX, beyondY)} {
      assert h[p.0][p.1] == Box;
    }
    forall p | p in before - {(nextX, nextY)} + {(beyondX, beyondY)} ensures p in after {
      if p != (beyondX, beyondY) {
        assert g[p.0][p.1] == Box && h[p.0][p.1] == Box;
      }
    }
    assert after == before - {(nextX, nextY)} + {(beyondX, beyondY)};
    assert (nextX, nextY) in before && (beyondX, beyondY) !in before;
    assert |before - {(nextX, nextY)}| == |before| - 1;
  }

  /** A push onto a free or target cell keeps the board consistent: no wall
      is created or removed, no 'T' is written and the box count stays. */
  lemma PushKeepsConsistent(g: Grid, nextX: int, nextY: int, beyondX: int, beyondY: int)
    requires Consistent(g) && InBounds(nextX, nextY) && InBounds(beyondX, beyondY)
    requires g[nextX][nextY] == Box && (g[beyondX][beyondY] == Free || g[beyondX][beyondY] == Target)
    ensures Consistent(PushBox(g, nextX, nextY, beyondX, beyondY))
  {
    var h := PushBox(g, nextX, nextY, beyondX, beyondY);
    PushMovesOneBox(g, nextX, nextY, beyondX, beyondY);
    assert !IsWallCell(nextX, nextY) && !IsWallCell(beyondX, beyondY);
    forall x, y | InBounds(x, y)
      ensures (h[x][y] == Wall <==> IsWallCell(x, y))
      ensures h[x][y] == Wall || h[x][y] == Free || h[x][y] == Target || h[x][y] == Box
      ensures h[x][y] == Target ==> (x, y) in Targets
    {
      if (x, y) != (nextX, nextY) && (x, y) != (beyondX, beyondY) {
        assert h[x][y] == g[x][y];
      }
    }
  }

  /** What one attempt does: its classification, the board after it, where
      the player stands after it, and the cell it aimed at. */
  datatype Outcome = Outcome(kind: Kind, board: Grid, x: int, y: int, nextX: int, nextY: int)

  /** One attempt of the key `move` from (x, y), as both move/push blocks
      resolve it once the next cell is known: a walk moves the player, a push
      moves the player and the box, anything else changes nothing. */
  function Attempt(g: Grid, x: int, y: int, move: char): (o: Outcome)
    requires IsGrid(g)
    ensures IsGrid(o.board)
  {
    var nextX, nextY := x + Delta(move).0, y + Delta(move).1;
    var kind := Classify(g, x, y, nextX, nextY);
    if kind == Push then
      Outcome(kind, PushBox(g, nextX, nextY, Beyond(x, nextX), Beyond(y, nextY)), nextX, nextY, nextX, nextY)
    else if kind == Walk then Outcome(kind, g, nextX, nextY, nextX, nextY)
    else Outcome(kind, g, x, y, nextX, nextY)
  }

  /** An attempt resolved branch by branch, as the move/push blocks state
      it, is the attempt Attempt describes. */
  lemma AttemptAgrees(g: Grid, x: int, y: int, move: char, nextX: int, nextY: int, kind: Kind, h: Grid, px: int, py: int)
    requires IsGrid(g)
    requires nextX == x + Delta(move).0 && nextY == y + Delta(move).1
    requires kind == Classify(g, x, y, nextX, nextY)
    requires kind == Walk || kind == Push ==> px == nextX && py == nextY
    requires kind != Walk && kind != Push ==> px == x && py == y
    requires h == if kind == Push then PushBox(g, nextX, nextY, Beyond(x, nextX), Beyond(y, nextY)) else g
    ensures var o := Attempt(g, x, y, move);
      kind == o.kind && h == o.board && px == o.x && py == o.y
  {
  }

  /** An attempt from a consistent board with the player off the walls
      leaves a consistent board with the same number of boxes and the player
      off the walls, at most one cell from where it stood. */
  lemma AttemptKeepsInvariant(g: Grid, x: int, y: int, move: char)
    requires Playable(g, x, y)
    ensures var o := Attempt(g, x, y, move);
      Consistent(o.board) && |BoxCells(o.board)| == |BoxCells(g)| &&
      InBounds(o.x, o.y) && o.board[o.x][o.y] != Wall &&
      -1 <= o.x - x <= 1 && -1 <= o.y - y <= 1
  {
    var o := Attempt(g, x, y, move);
    if o.kind == Push {
      PushKeepsConsistent(g, o.nextX, o.nextY, Beyond(x, o.nextX), Beyond(y, o.nextY));
    }
  }

  /** A push from a re-marked board that is not won wins only by covering
      both targets: it could uncover one target and cover the other only if
      the box cell and the cell beyond it were the two targets, and the
      targets (1,2) and (3,1) are two rows apart. */
  lemma PushWinMeansCovered(g: Grid, nextX: int, nextY: int, beyondX: int, beyondY: int)
    requires Consistent(g) && TargetsMarked(g) && !IsWin(g)
    requires InBounds(nextX, nextY) && InBounds(beyondX, beyondY)
    requires g[nextX][nextY] == Box && (g[beyondX][beyondY] == Free || g[beyondX][beyondY] == Target)
    requires -1 <= beyondX - nextX <= 1
    ensures var h := PushBox(g, nextX, nextY, beyondX, beyondY);
      IsWin(h) ==> TargetsCovered(h)
  {
    var h := PushBox(g, nextX, nextY, beyondX, beyondY);
    PushKeepsConsistent(g, nextX, nextY, beyondX, beyondY);
    WinIffTargetsCovered(g);
    WinIffTargetsCovered(h);
    assert Targets == [(1, 2), (3, 1)];
    if IsWin(h) {
      // The target the push could uncover still shows 'T' in g otherwise.
      assert g[1][2] == Target || g[3][1] == Target;
      assert h[1][2] == Box && h[3][1] == Box;
    }
  }

  /** Both loops run the win test right after the attempt, before the next
      re-marking, when a target may still show the '.' a box left. Even so,
      from a re-marked board that is not won, a won board after the attempt
      has a box on every target. */
  lemma WonAfterAttemptMeansCovered(g: Grid, x: int, y: int, move: char)
    requires Consistent(g) && TargetsMarked(g) && !IsWin(g)
    requires InBounds(x, y) && g[x][y] != Wall
    ensures var o := Attempt(g, x, y, move);
      IsWin(o.board) ==> TargetsCovered(o.board)
  {
    var o := Attempt(g, x, y, move);
    if o.kind == Push {
      PushWinMeansCovered(g, o.nextX, o.nextY, Beyond(x, o.nextX), Beyond(y, o.nextY));
    }
  }
}
