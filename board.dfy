/** The 7×7 board of the box-pushing puzzle in main.cpp. A cell is a
    character: '#' wall, '.' free floor, 'T' an uncovered target,
    'B' a box (also a box resting on a target). */
module Board {

  const Size: int := 7
  const Wall: char := '#'
  const Free: char := '.'
  const Target: char := 'T'
  const Box: char := 'B'
  /** The player marker. The player is drawn over the board when printing
      and this character is never stored in it, but the reset block tests for it. */
  const PlayerMark: char := 'P'

  /** tX/tY and bX/bY of main.cpp:93-96, zipped into (row, column) pairs. */
  const Targets: seq<(int, int)> := [(1, 2), (3, 1)]
  const Boxes: seq<(int, int)> := [(3, 3), (4, 4)]
  /** The obstacle cells getMaze writes, in its order. */
  const Obstacles: seq<(int, int)> :=
    [(5, 5), (5, 4), (5, 3), (1, 5), (2, 5), (1, 4), (2, 4), (1, 3), (2, 3), (6, 2), (6, 6)]

  type Grid = seq<seq<char>>

  predicate IsGrid(g: Grid) {
    |g| == Size && forall i :: 0 <= i < Size ==> |g[i]| == Size
  }

  predicate InBounds(x: int, y: int) {
    0 <= x < Size && 0 <= y < Size
  }

  /** Rows and columns 1..5: the cells checkWin and calculateReward scan. */
  predicate IsInterior(x: int, y: int) {
    1 <= x < Size - 1 && 1 <= y < Size - 1
  }

  /** The interior cells the obstacle list covers: columns 3 to 5 of rows
      1, 2 and 5 (the list also names two border cells). */
  predicate IsObstacle(x: int, y: int) {
    (x == 1 || x == 2 || x == 5) && 3 <= y <= 5
  }

  /** The cells that are walls from construction on: the border and the obstacles. */
  predicate IsWallCell(x: int, y: int) {
    InBounds(x, y) && (!IsInterior(x, y) || IsObstacle(x, y))
  }

  /** The obstacle list and the obstacle block name the same interior cells,
      and every listed cell is a wall cell. */
  lemma ObstacleList(x: int, y: int)
    ensures (x, y) in Obstacles ==> IsWallCell(x, y)
    ensures IsInterior(x, y) ==> ((x, y) in Obstacles <==> IsObstacle(x, y))
  {
  }

  /** The layout rule of getMaze: walls, then boxes, then targets, free elsewhere. */
  function LayoutCell(x: int, y: int): char {
    if IsWallCell(x, y) then Wall
    else if (x, y) in Boxes then Box
    else if (x, y) in Targets then Target
    else Free
  }

  /** The board getMaze builds, row by row. */
  const InitialBoard: Grid := [
    "#######",
    "#.T####",
    "#..####",
    "#T.B..#",
    "#...B.#",
    "#..####",
    "#######"
  ]

  /** The board with one cell overwritten, as `board[x][y] = c`. */
  function Put(g: Grid, x: int, y: int, c: char): (h: Grid)
    requires IsGrid(g) && InBounds(x, y)
    ensures IsGrid(h) && h[x][y] == c
    ensures forall i, j {:trigger h[i][j]} :: InBounds(i, j) && (i, j) != (x, y) ==> h[i][j] == g[i][j]
  {
    g[x := g[x][y := c]]
  }

  /** The coordinates of the cells that show a box. */
  function BoxCells(g: Grid): set<(int, int)>
    requires IsGrid(g)
  {
    set x, y | 0 <= x < Size && 0 <= y < Size && g[x][y] == Box :: (x, y)
  }

  /** What every board the engine reaches satisfies: the walls are exactly the
      construction walls (so the border stays walled), every cell holds one of
      the four board characters, 'T' appears only at target coordinates, and
      there are as many boxes as getMaze placed. */
  ghost predicate Consistent(g: Grid) {
    IsGrid(g) &&
    (forall x, y {:trigger g[x][y]} :: InBounds(x, y) ==>
       (g[x][y] == Wall <==> IsWallCell(x, y)) &&
       (g[x][y] == Wall || g[x][y] == Free || g[x][y] == Target || g[x][y] == Box) &&
       (g[x][y] == Target ==> (x, y) in Targets)) &&
    |BoxCells(g)| == |Boxes|
  }

  /** A consistent board with the player on it, off the walls: the state
      both game loops keep. */
  ghost predicate Playable(g: Grid, x: int, y: int)
  {
    Consistent(g) && InBounds(x, y) && g[x][y] != Wall
  }

  /** checkWin's condition: no interior cell shows an uncovered target. */
  predicate IsWin(g: Grid)
    requires IsGrid(g)
  {
    forall x, y {:trigger g[x][y]} :: 1 <= x < Size - 1 && 1 <= y < Size - 1 ==> g[x][y] != Target
  }

  /** Every target coordinate shows 'T' or 'B', as after the re-marking step. */
  predicate TargetsMarked(g: Grid)
    requires IsGrid(g)
  {
    forall t :: t in Targets ==> g[t.0][t.1] == Target || g[t.0][t.1] == Box
  }

  /** Every target coordinate shows a box. */
  predicate TargetsCovered(g: Grid)
    requires IsGrid(g)
  {
    forall t :: t in Targets ==> g[t.0][t.1] == Box
  }

  /** The start-position test of main.cpp:345 (repeated at main.cpp:154). */
  predicate StartAccepted(x: int, y: int) {
    InBounds(x, y) && InitialBoard[x][y] != Wall
  }

  /** Two boards with the same cells are the same board. */
  lemma SameCells(a: Grid, b: Grid)
    requires IsGrid(a) && IsGrid(b)
    requires forall i, j {:trigger a[i][j]} :: InBounds(i, j) ==> a[i][j] == b[i][j]
    ensures a == b
  {
    forall i | 0 <= i < Size
      ensures a[i] == b[i]
    {
      assert forall j :: 0 <= j < Size ==> a[i][j] == b[i][j];
    }
  }

  /** The pictured board follows the layout rule: border and the eleven
      obstacles are walls, boxes at (3,3) and (4,4), targets at (1,2) and
      (3,1), every other interior cell free. */
  lemma InitialBoardLayout()
    ensures IsGrid(InitialBoard)
    ensures forall x, y {:trigger InitialBoard[x][y]} :: InBounds(x, y) ==> InitialBoard[x][y] == LayoutCell(x, y)
  {
    forall x, y | InBounds(x, y)
      ensures InitialBoard[x][y] == LayoutCell(x, y)
    {
    }
  }

  /** The initial board is consistent and its boxes are exactly the listed ones. */
  lemma InitialBoardConsistent()
    ensures Consistent(InitialBoard)
    ensures BoxCells(InitialBoard) == {(3, 3), (4, 4)}
  {
    InitialBoardLayout();
    var cells := BoxCells(InitialBoard);
    forall p | p in cells ensures p == (3, 3) || p == (4, 4) {
      assert LayoutCell(p.0, p.1) == Box;
    }
    assert LayoutCell(3, 3) == Box && LayoutCell(4, 4) == Box;
    assert (3, 3) in cells && (4, 4) in cells;
    assert cells == {(3, 3), (4, 4)};
  }

  /** The accepted start cells are the interior cells that are not obstacles;
      a box cell is among them. */
  lemma StartCells(x: int, y: int)
    ensures StartAccepted(x, y) <==> IsInterior(x, y) && (x, y) !in Obstacles
    ensures (x, y) in Boxes ==> StartAccepted(x, y)
  {
    InitialBoardLayout();
    if InBounds(x, y) {
      assert InitialBoard[x][y] == LayoutCell(x, y);
    }
  }

  /** On a consistent board the win test is about the target cells only:
      it holds iff no target shows 'T', and once the targets are re-marked,
      iff every target holds a box. */
  lemma WinIffTargetsCovered(g: Grid)
    requires Consistent(g)
    ensures IsWin(g) <==> forall t :: t in Targets ==> g[t.0][t.1] != Target
    ensures TargetsMarked(g) ==> (IsWin(g) <==> TargetsCovered(g))
  {
    if forall t :: t in Targets ==> g[t.0][t.1] != Target {
      forall x, y | IsInterior(x, y) ensures g[x][y] != Target {
      }
    }
  }

  /** On a consistent board the border is walled and a target cell shows
      'T', 'B', or the '.' a box leaves behind until the next re-marking. */
  lemma BorderAndTargetCells(g: Grid)
    requires Consistent(g)
    ensures forall x, y {:trigger g[x][y]} :: InBounds(x, y) && !IsInterior(x, y) ==> g[x][y] == Wall
    ensures forall t :: t in Targets ==> g[t.0][t.1] == Target || g[t.0][t.1] == Box || g[t.0][t.1] == Free
  {
    forall t | t in Targets ensures g[t.0][t.1] != Wall {
      assert !IsWallCell(t.0, t.1);
    }
  }

  /** The stages of getMaze compose to the pictured board. */
  lemma StampedLayout(stamped: Grid, board: Grid)
    requires IsGrid(stamped) && IsGrid(board)
    requires forall x, y {:trigger stamped[x][y]} :: InBounds(x, y) ==>
      stamped[x][y] == if (x, y) in Boxes then Box
                       else if (x, y) in Targets then Target
                       else if IsInterior(x, y) then Free else Wall
    requires forall x, y {:trigger board[x][y]} :: InBounds(x, y) ==>
      board[x][y] == if (x, y) in Obstacles then Wall else stamped[x][y]
    ensures board == InitialBoard
  {
    InitialBoardLayout();
    forall x, y | InBounds(x, y) ensures board[x][y] == InitialBoard[x][y] {
      ObstacleList(x, y);
      assert InitialBoard[x][y] == LayoutCell(x, y);
    }
    SameCells(board, InitialBoard);
  }

  /** getMaze (main.cpp:99-133): fill with walls, free the interior, stamp
      the targets, then the boxes, then the obstacles. */
  method GetMaze() returns (board: Grid)
    ensures board == InitialBoard
  {
    board := seq(Size, _ => seq(Size, _ => Wall));
    var i := 1;
    while i < Size - 1
      invariant 1 <= i <= Size - 1 && IsGrid(board)
      invariant forall x, y {:trigger board[x][y]} :: InBounds(x, y) ==>
        board[x][y] == if 1 <= x < i && 1 <= y < Size - 1 then Free else Wall
    {
      var j := 1;
      while j < Size - 1
        invariant 1 <= j <= Size - 1 && IsGrid(board)
        invariant forall x, y {:trigger board[x][y]} :: InBounds(x, y) ==>
          board[x][y] == if (1 <= x < i && 1 <= y < Size - 1) || (x == i && 1 <= y < j) then Free else Wall
      {
        board := Put(board, i, j, Free);
        j := j + 1;
      }
      i := i + 1;
    }
    for k := 0 to |Targets|
      invariant IsGrid(board)
      invariant forall x, y {:trigger board[x][y]} :: InBounds(x, y) ==>
        board[x][y] == if (x, y) in Targets[..k] then Target else if IsInterior(x, y) then Free else Wall
    {
      board := Put(board, Targets[k].0, Targets[k].1, Target);
    }
    for k := 0 to |Boxes|
      invariant IsGrid(board)
      invariant forall x, y {:trigger board[x][y]} :: InBounds(x, y) ==>
        board[x][y] == if (x, y) in Boxes[..k] then Box
                       else if (x, y) in Targets then Target
                       else if IsInterior(x, y) then Free else Wall
    {
      board := Put(board, Boxes[k].0, Boxes[k].1, Box);
    }
    // main.cpp:120-130 writes the eleven obstacle cells one statement each.
    ghost var stamped := board;
    for k := 0 to |Obstacles|
      invariant IsGrid(board)
      invariant forall x, y {:trigger board[x][y]} :: InBounds(x, y) ==>
        board[x][y] == if (x, y) in Obstacles[..k] then Wall else stamped[x][y]
    {
      board := Put(board, Obstacles[k].0, Obstacles[k].1, Wall);
    }
    assert Obstacles[..|Obstacles|] == Obstacles;
    StampedLayout(stamped, board);
  }

  /** checkWin (main.cpp:25-33): scan the interior, stop at the first 'T'. */
  method CheckWin(board: Grid) returns (won: bool)
    requires IsGrid(board)
    ensures won == IsWin(board)
  {
    var i := 1;
    while i < |board| - 1
      invariant 1 <= i <= Size - 1
      invariant forall x, y {:trigger board[x][y]} :: 1 <= x < i && 1 <= y < Size - 1 ==> board[x][y] != Target
    {
      var j := 1;
      while j < |board[i]| - 1
        invariant 1 <= j <= Size - 1
        invariant forall x, y {:trigger board[x][y]} :: 1 <= x < i && 1 <= y < Size - 1 ==> board[x][y] != Target
        invariant forall y :: 1 <= y < j ==> board[i][y] != Target
      {
        if board[i][j] == Target {
          return false;
        }
        j := j + 1;
      }
      i := i + 1;
    }
    return true;
  }

  /** One pass of the re-marking loop: the target t shows 'T' again if it shows '.'. */
  function MarkTarget(g: Grid, t: (int, int)): (h: Grid)
    requires IsGrid(g) && InBounds(t.0, t.1)
    ensures IsGrid(h)
    ensures forall x, y {:trigger h[x][y]} :: InBounds(x, y) ==>
      h[x][y] == if (x, y) == t && g[x][y] == Free then Target else g[x][y]
  {
    if g[t.0][t.1] == Free then Put(g, t.0, t.1, Target) else g
  }

  /** The board after the re-marking step: the two targets, in list order. */
  function Remarked(g: Grid): (h: Grid)
    requires IsGrid(g)
    ensures IsGrid(h)
    ensures forall x, y {:trigger h[x][y]} :: InBounds(x, y) ==>
      h[x][y] == if (x, y) in Targets && g[x][y] == Free then Target else g[x][y]
  {
    MarkTarget(MarkTarget(g, Targets[0]), Targets[1])
  }

  /** Re-marking keeps a board consistent and its boxes where they are, and
      leaves every target showing 'T' or 'B'. */
  lemma RemarkKeepsConsistent(g: Grid)
    requires Consistent(g)
    ensures Consistent(Remarked(g)) && TargetsMarked(Remarked(g))
    ensures BoxCells(Remarked(g)) == BoxCells(g)
  {
    var h := Remarked(g);
    assert BoxCells(h) == BoxCells(g);
    forall t | t in Targets ensures h[t.0][t.1] == Target || h[t.0][t.1] == Box {
      assert !IsWallCell(t.0, t.1);
    }
  }

  /** The re-marking step (main.cpp:166-170 and 292-296): a target coordinate
      showing '.' (its box was just pushed off) shows 'T' again. */
  method RemarkTargets(board: Grid) returns (marked: Grid)
    requires IsGrid(board)
    ensures marked == Remarked(board)
    ensures Consistent(board) ==> Consistent(marked) && TargetsMarked(marked)
    ensures Consistent(board) ==> BoxCells(marked) == BoxCells(board)
  {
    marked := board;
    for k := 0 to |Targets|
      invariant IsGrid(marked)
      invariant forall x, y {:trigger marked[x][y]} :: InBounds(x, y) ==>
        marked[x][y] == if (x, y) in Targets[..k] && board[x][y] == Free then Target else board[x][y]
    {
      if marked[Targets[k].0][Targets[k].1] == Free {
        marked := Put(marked, Targets[k].0, Targets[k].1, Target);
      }
    }
    assert Targets[..|Targets|] == Targets;
    SameCells(marked, Remarked(board));
    if Consistent(board) {
      RemarkKeepsConsistent(board);
    }
  }

  /** The board part of the episode reset (main.cpp:238-253): clear 'P' and
      'B' from the interior, stamp the targets, then the boxes. */
  method RestoreLayout(board: Grid) returns (restored: Grid)
    requires IsGrid(board)
    ensures IsGrid(restored)
    ensures forall x, y {:trigger restored[x][y]} :: InBounds(x, y) ==>
      restored[x][y] == if (x, y) in Boxes then Box
                        else if (x, y) in Targets then Target
                        else if IsInterior(x, y) && (board[x][y] == PlayerMark || board[x][y] == Box) then Free
                        else board[x][y]
    ensures Consistent(board) ==> restored == InitialBoard
  {
    restored := board;
    var i := 1;
    while i < Size - 1
      invariant 1 <= i <= Size - 1 && IsGrid(restored)
      invariant forall x, y {:trigger restored[x][y]} :: InBounds(x, y) ==>
        restored[x][y] == if 1 <= x < i && 1 <= y < Size - 1 && (board[x][y] == PlayerMark || board[x][y] == Box)
                          then Free else board[x][y]
    {
      var j := 1;
      while j < Size - 1
        invariant 1 <= j <= Size - 1 && IsGrid(restored)
        invariant forall x, y {:trigger restored[x][y]} :: InBounds(x, y) ==>
          restored[x][y] == if ((1 <= x < i && 1 <= y < Size - 1) || (x == i && 1 <= y < j)) &&
                               (board[x][y] == PlayerMark || board[x][y] == Box)
                            then Free else board[x][y]
      {
        if restored[i][j] == PlayerMark {
          restored := Put(restored, i, j, Free);
        }
        if restored[i][j] == Box {
          restored := Put(restored, i, j, Free);
        }
        j := j + 1;
      }
      i := i + 1;
    }
    ghost var cleared := restored;
    for k := 0 to |Targets|
      invariant IsGrid(restored)
      invariant forall x, y {:trigger restored[x][y]} :: InBounds(x, y) ==>
        restored[x][y] == if (x, y) in Targets[..k] then Target else cleared[x][y]
    {
      restored := Put(restored, Targets[k].0, Targets[k].1, Target);
    }
    for k := 0 to |Boxes|
      invariant IsGrid(restored)
      invariant forall x, y {:trigger restored[x][y]} :: InBounds(x, y) ==>
        restored[x][y] == if (x, y) in Boxes[..k] then Box
                          else if (x, y) in Targets then Target else cleared[x][y]
    {
      restored := Put(restored, Boxes[k].0, Boxes[k].1, Box);
    }
    assert Boxes[..|Boxes|] == Boxes;
    if Consistent(board) {
      InitialBoardLayout();
      forall x, y | InBounds(x, y) ensures restored[x][y] == InitialBoard[x][y] {
        assert InitialBoard[x][y] == LayoutCell(x, y);
      }
      SameCells(restored, InitialBoard);
    }
  }
}
