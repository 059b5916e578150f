/** The reward the learning loop hands to the value update after each
    attempted move (calculateReward, main.cpp:54-70). The source returns a
    double; 1000.0 and -0.1 are written here as exact reals. */
module Reward {
  import opened Board

  const WinReward: real := 1000.0
  const StepCost: real := -0.1

  /** The test calculateReward actually performs: `board[i][j] == 'B' &&
      board[i][j] != 'T'` is just `board[i][j] == 'B'`, so it asks whether
      the interior holds no box at all. */
  predicate NoInteriorBox(g: Grid)
    requires IsGrid(g)
  {
    forall x, y {:trigger g[x][y]} :: 1 <= x < Size - 1 && 1 <= y < Size - 1 ==> g[x][y] != Box
  }

  /** What the comment at main.cpp:55 describes: every box stands on a target coordinate. */
  predicate AllBoxesOnTargets(g: Grid)
    requires IsGrid(g)
  {
    forall x, y {:trigger g[x][y]} :: 1 <= x < Size - 1 && 1 <= y < Size - 1 && g[x][y] == Box ==> (x, y) in Targets
  }

  /** calculateReward as written: scan the interior, stop at the first box.
      The player position and the step count do not enter the result. */
  method CalculateReward(board: Grid, playerX: int, playerY: int, steps: int) returns (reward: real)
    requires IsGrid(board)
    ensures NoInteriorBox(board) ==> reward == WinReward
    ensures !NoInteriorBox(board) ==> reward == StepCost
  {
    var allBoxesOnTargets := true;
    var i := 1;
    while i < |board| - 1
      invariant 1 <= i <= Size - 1
      invariant allBoxesOnTargets
      invariant forall x, y {:trigger board[x][y]} :: 1 <= x < i && 1 <= y < Size - 1 ==> board[x][y] != Box
    {
      var j := 1;
      while j < |board[i]| - 1
        invariant 1 <= j <= Size - 1
        invariant allBoxesOnTargets
        invariant forall y :: 1 <= y < j ==> board[i][y] != Box
      {
        if board[i][j] == Box && board[i][j] != Target {
          allBoxesOnTargets := false;
          break;
        }
        j := j + 1;
      }
      if !allBoxesOnTargets {
        break;
      }
      i := i + 1;
    }
    if allBoxesOnTargets {
      return WinReward;
    }
    return StepCost;
  }

  /** On every consistent board some interior cell holds a box, so
      calculateReward never pays the terminal reward. */
  lemma RewardNeverTerminal(g: Grid)
    requires Consistent(g)
    ensures !NoInteriorBox(g)
  {
    var cells := BoxCells(g);
    assert |cells| == 2;
    var p :| p in cells;
    assert g[p.0][p.1] == Box && IsInterior(p.0, p.1);
  }

  /** The solved board: both boxes pushed onto the targets. */
  function SolvedBoard(): (g: Grid)
    ensures IsGrid(g)
  {
    InitialBoardLayout();
    Put(Put(Put(Put(InitialBoard, 3, 3, Free), 4, 4, Free), 1, 2, Box), 3, 1, Box)
  }

  /** The solved board cell by cell: the initial layout with the boxes moved
      from their start cells onto the target cells. */
  lemma SolvedBoardCells()
    ensures forall x, y {:trigger SolvedBoard()[x][y]} :: InBounds(x, y) ==>
      SolvedBoard()[x][y] == if (x, y) in Targets then Box else if (x, y) in Boxes then Free else LayoutCell(x, y)
  {
    var g := SolvedBoard();
    InitialBoardLayout();
    forall x, y | InBounds(x, y)
      ensures g[x][y] == if (x, y) in Targets then Box else if (x, y) in Boxes then Free else LayoutCell(x, y)
    {
      assert InitialBoard[x][y] == LayoutCell(x, y);
    }
  }

  /** The boxes of the solved board are the two target cells. */
  lemma SolvedBoardBoxes()
    ensures BoxCells(SolvedBoard()) == {(1, 2), (3, 1)}
  {
    var g := SolvedBoard();
    SolvedBoardCells();
    forall p | p in BoxCells(g) ensures p == (1, 2) || p == (3, 1) {
      assert g[p.0][p.1] == Box;
    }
    assert g[1][2] == Box && g[3][1] == Box;
    assert (1, 2) in BoxCells(g) && (3, 1) in BoxCells(g);
  }

  /** The solved board is consistent and won, and calculateReward still
      gives it the step cost. */
  lemma SolvedBoardGetsStepCost()
    ensures Consistent(SolvedBoard()) && IsWin(SolvedBoard()) && TargetsCovered(SolvedBoard())
    ensures !NoInteriorBox(SolvedBoard())
  {
    var g := SolvedBoard();
    SolvedBoardCells();
    SolvedBoardBoxes();
    forall x, y | InBounds(x, y)
      ensures (g[x][y] == Wall <==> IsWallCell(x, y))
      ensures g[x][y] == Wall || g[x][y] == Free || g[x][y] == Target || g[x][y] == Box
      ensures g[x][y] == Target ==> (x, y) in Targets
    {
      if (x, y) in Targets || (x, y) in Boxes {
        assert !IsWallCell(x, y);
      }
    }
    assert g[1][2] == Box && g[3][1] == Box;
    RewardNeverTerminal(g);
  }

  /** A subset with as many elements as its superset is the whole set. */
  lemma SubsetOfEqualSize<T>(a: set<T>, b: set<T>)
    requires a <= b && |a| == |b|
    ensures a == b
  {
    assert |b - a| == |b| - |a|;
  }

  /** On a consistent board, every box on a target coordinate is the same as
      every target coordinate holding a box: two boxes, two targets. */
  lemma BoxesOnTargetsIffCovered(g: Grid)
    requires IsGrid(g)
    ensures Consistent(g) ==> (AllBoxesOnTargets(g) <==> TargetsCovered(g))
  {
    if !Consistent(g) {
      return;
    }
    var targets := {(1, 2), (3, 1)};
    assert forall t :: t in Targets <==> t in targets;
    var cells := BoxCells(g);
    if AllBoxesOnTargets(g) {
      forall p | p in cells ensures p in targets {
        assert g[p.0][p.1] == Box && IsInterior(p.0, p.1);
      }
      SubsetOfEqualSize(cells, targets);
      forall t | t in Targets ensures g[t.0][t.1] == Box {
        assert t in cells;
      }
    }
    if TargetsCovered(g) {
      assert g[1][2] == Box && g[3][1] == Box;
      assert targets <= cells;
      SubsetOfEqualSize(targets, cells);
      forall x, y | 1 <= x < Size - 1 && 1 <= y < Size - 1 && g[x][y] == Box
        ensures (x, y) in Targets
      {
        assert (x, y) in cells;
      }
    }
  }

  /** The reward calculateReward's comments describe: the terminal reward
      exactly when every box stands on a target. On a consistent board it is
      paid exactly when every target is covered. */
  function IntendedReward(g: Grid): (reward: real)
    requires IsGrid(g)
    ensures reward == WinReward || reward == StepCost
    ensures Consistent(g) ==> (reward == WinReward <==> TargetsCovered(g))
  {
    BoxesOnTargetsIffCovered(g);
    if AllBoxesOnTargets(g) then WinReward else StepCost
  }
}
