/**
 * What a sliding-puzzle board means, stated on its grid of tile values
 * (row-major, 0 for the empty tile): the goal cell of every value, the
 * goal test and the Manhattan-plus-linear-conflict heuristic.
 */
module BoardGrid {
  import opened Helper
  import opened BoardText

  /** Where value `v` belongs: values 1, 2, ... fill the board row by row. */
  function Goal(v: int, columns: int): Position
    requires columns > 0
  {
    Position((v - 1) / columns, (v - 1) % columns)
  }

  /** The goal table the constructor precomputes: entry v-1 holds the goal cell of v. */
  ghost predicate GoalTable(goals: seq<Position>, columns: int) {
    forall i :: 0 <= i < |goals| ==> columns > 0 && goals[i] == Goal(i + 1, columns)
  }

  lemma MulAtLeast(a: int, d: int)
    requires a >= 1 && d > 0
    ensures a * d >= d
  {
    assert a * d == (a - 1) * d + d;
  }

  /** Euclidean division is unique: a quotient and remainder in range are the ones `/` and `%` give. */
  lemma DivModUnique(n: int, d: int, q: int, m: int)
    requires d > 0 && 0 <= m < d && n == q * d + m
    ensures n / d == q && n % d == m
  {
    var q', m' := n / d, n % d;
    assert q' * d + m' == q * d + m;
    if q' > q {
      MulAtLeast(q' - q, d);
    } else if q' < q {
      MulAtLeast(q - q', d);
    }
  }

  /** The value whose goal is (r, c) is r * columns + c + 1. */
  lemma GoalOfCell(r: nat, c: nat, columns: int)
    requires c < columns
    ensures Goal(r * columns + c + 1, columns) == Position(r, c)
  {
    DivModUnique(r * columns + c, columns, r, c);
  }

  /** Every value 1..rows*columns has its goal on the board, and that cell gives the value back. */
  lemma GoalOnBoard(v: int, rows: int, columns: int)
    requires columns > 0 && 1 <= v <= rows * columns
    ensures var p := Goal(v, columns);
      0 <= p.row < rows && 0 <= p.column < columns && p.row * columns + p.column + 1 == v
  {
    var p := Goal(v, columns);
    assert (v - 1) == p.row * columns + p.column;
  }

  ghost predicate Rectangular(g: seq<seq<int>>, columns: int) {
    columns >= 0 && forall r :: 0 <= r < |g| ==> |g[r]| == columns
  }

  /** Manhattan distance of the tile at (i, j) from its goal; the empty tile counts 0. */
  function Distance(g: seq<seq<int>>, columns: int, i: int, j: int): (d: int)
    requires Rectangular(g, columns) && 0 <= i < |g| && 0 <= j < columns
    ensures d >= 0
    ensures g[i][j] != 0 && Goal(g[i][j], columns) == Position(i, j) ==> d == 0
  {
    var v := g[i][j];
    if v == 0 then 0
    else
      var goal := Goal(v, columns);
      Absolute(i - goal.row) + Absolute(j - goal.column)
  }

  /** The tile at (i, k) belongs in row i, left of column j. */
  predicate RowConflict(g: seq<seq<int>>, columns: int, i: int, j: int, k: int)
    requires Rectangular(g, columns) && 0 <= i < |g| && 0 <= j < columns && 0 <= k < columns
  {
    var next := g[i][k];
    next != 0 && i == Goal(next, columns).row && j > Goal(next, columns).column
  }

  /** The tile at (k, j) belongs in column j, above row i. */
  predicate ColumnConflict(g: seq<seq<int>>, columns: int, i: int, j: int, k: int)
    requires Rectangular(g, columns) && 0 <= i < |g| && 0 <= j < columns && 0 <= k < |g|
  {
    var next := g[k][j];
    next != 0 && j == Goal(next, columns).column && i > Goal(next, columns).row
  }

  /** How many of the cells (i, j+1) .. (i, end-1) are in a row conflict with (i, j). */
  function RowConflicts(g: seq<seq<int>>, columns: int, i: int, j: int, end: int): (n: int)
    requires Rectangular(g, columns) && 0 <= i < |g| && 0 <= j < columns && j + 1 <= end <= columns
    ensures 0 <= n <= end - j - 1
    decreases end
  {
    if end == j + 1 then 0
    else RowConflicts(g, columns, i, j, end - 1) + (if RowConflict(g, columns, i, j, end - 1) then 1 else 0)
  }

  /** How many of the cells (i+1, j) .. (end-1, j) are in a column conflict with (i, j). */
  function ColumnConflicts(g: seq<seq<int>>, columns: int, i: int, j: int, end: int): (n: int)
    requires Rectangular(g, columns) && 0 <= i < |g| && 0 <= j < columns && i + 1 <= end <= |g|
    ensures 0 <= n <= end - i - 1
    decreases end
  {
    if end == i + 1 then 0
    else ColumnConflicts(g, columns, i, j, end - 1) + (if ColumnConflict(g, columns, i, j, end - 1) then 1 else 0)
  }

  /**
   * Conflicts charged to the tile at (i, j): those later in its row when it
   * belongs in this row, plus those later in its column when it belongs in this column.
   */
  function CellConflicts(g: seq<seq<int>>, columns: int, i: int, j: int): (n: int)
    requires Rectangular(g, columns) && 0 <= i < |g| && 0 <= j < columns
    ensures 0 <= n <= (columns - j - 1) + (|g| - i - 1)
  {
    var v := g[i][j];
    if v == 0 then 0
    else
      var goal := Goal(v, columns);
      (if i == goal.row then RowConflicts(g, columns, i, j, columns) else 0)
      + (if j == goal.column then ColumnConflicts(g, columns, i, j, |g|) else 0)
  }

  /** Sum of the distances of all cells before (i, j) in row-major order. */
  function DistanceSum(g: seq<seq<int>>, columns: int, i: int, j: int): (s: int)
    requires Rectangular(g, columns) && 0 <= i <= |g| && 0 <= j <= columns && (i == |g| ==> j == 0)
    ensures s >= 0
    decreases i, j
  {
    if j == 0 then (if i == 0 then 0 else DistanceSum(g, columns, i - 1, columns))
    else DistanceSum(g, columns, i, j - 1) + Distance(g, columns, i, j - 1)
  }

  /** Sum of the conflicts charged to all cells before (i, j) in row-major order. */
  function ConflictSum(g: seq<seq<int>>, columns: int, i: int, j: int): (s: int)
    requires Rectangular(g, columns) && 0 <= i <= |g| && 0 <= j <= columns && (i == |g| ==> j == 0)
    ensures s >= 0
    decreases i, j
  {
    if j == 0 then (if i == 0 then 0 else ConflictSum(g, columns, i - 1, columns))
    else ConflictSum(g, columns, i, j - 1) + CellConflicts(g, columns, i, j - 1)
  }

  /** `calculateHeuristicValue`: total Manhattan distance plus two moves per linear conflict. */
  function Heuristic(g: seq<seq<int>>, columns: int): (h: int)
    requires Rectangular(g, columns)
    ensures h >= 0
  {
    DistanceSum(g, columns, |g|, 0) + 2 * ConflictSum(g, columns, |g|, 0)
  }

  /** The value scanned just before (i, j) in row-major order; 0 before the first cell. */
  function Before(g: seq<seq<int>>, columns: int, i: int, j: int): int
    requires Rectangular(g, columns) && 0 <= i < |g| && 0 <= j < columns
  {
    if j > 0 then g[i][j - 1] else if i > 0 then g[i - 1][columns - 1] else 0
  }

  /** Every cell before (i, j) in row-major order holds more than the cell before it. */
  ghost predicate AscendingBefore(g: seq<seq<int>>, columns: int, i: int, j: int)
    requires Rectangular(g, columns)
  {
    forall a, b :: 0 <= a < |g| && 0 <= b < columns && (a < i || (a == i && b < j)) ==> g[a][b] > Before(g, columns, a, b)
  }

  lemma AscendingStep(g: seq<seq<int>>, columns: int, i: int, j: int)
    requires Rectangular(g, columns) && 0 <= i < |g| && 0 <= j < columns
    requires AscendingBefore(g, columns, i, j) && g[i][j] > Before(g, columns, i, j)
    ensures AscendingBefore(g, columns, i, j + 1)
  {
  }

  lemma AscendingNextRow(g: seq<seq<int>>, columns: int, i: int)
    requires Rectangular(g, columns) && AscendingBefore(g, columns, i, columns)
    ensures AscendingBefore(g, columns, i + 1, 0)
  {
  }

  /** A cell not above the one before it breaks the ascent of every later prefix. */
  lemma AscendingBreaks(g: seq<seq<int>>, columns: int, i: int, j: int, a: int, b: int)
    requires Rectangular(g, columns) && 0 <= i < |g| && 0 <= j < columns
    requires g[i][j] <= Before(g, columns, i, j)
    requires i < a || (i == a && j < b)
    ensures !AscendingBefore(g, columns, a, b)
  {
  }

  /** The scan stops at the first cell not above the one before it: the board is in order iff that is the last cell. */
  lemma ScanStops(g: seq<seq<int>>, columns: int, i: int, j: int)
    requires Rectangular(g, columns) && 0 <= i < |g| && 0 <= j < columns
    requires AscendingBefore(g, columns, i, j) && g[i][j] <= Before(g, columns, i, j)
    ensures InOrder(g, columns, |g| - 1, columns - 1) <==> i == |g| - 1 && j == columns - 1
  {
    if !(i == |g| - 1 && j == columns - 1) {
      AscendingBreaks(g, columns, i, j, |g| - 1, columns - 1);
    }
  }

  /**
   * `isInOrder`: the empty tile is recorded at the bottom-right cell, the
   * values of all other cells rise strictly from above 0 in row-major order,
   * and the last cell does not exceed the one before it.
   */
  ghost predicate InOrder(g: seq<seq<int>>, columns: int, emptyRow: int, emptyColumn: int)
    requires Rectangular(g, columns)
  {
    |g| >= 1 && columns >= 1
    && emptyRow == |g| - 1 && emptyColumn == columns - 1
    && AscendingBefore(g, columns, |g| - 1, columns - 1)
    && g[|g| - 1][columns - 1] <= Before(g, columns, |g| - 1, columns - 1)
  }

  /** The solved board: 1, 2, ... in row-major order, with the empty tile last. */
  function Solved(rows: nat, columns: nat): (g: seq<seq<int>>)
    ensures |g| == rows && Rectangular(g, columns)
  {
    seq(rows, i => seq(columns, j => if i == rows - 1 && j == columns - 1 then 0 else i * columns + j + 1))
  }

  /** On the solved board every tile except the empty one is at its goal cell. */
  lemma SolvedAtGoal(rows: nat, columns: nat, i: nat, j: nat)
    requires i < rows && j < columns
    ensures var v := Solved(rows, columns)[i][j];
      v == 0 || Goal(v, columns) == Position(i, j)
  {
    if !(i == rows - 1 && j == columns - 1) {
      GoalOfCell(i, j, columns);
    }
  }

  lemma SolvedAscendingAt(rows: nat, columns: nat, a: nat, b: nat)
    requires a < rows && b < columns && (a < rows - 1 || b < columns - 1)
    ensures var g := Solved(rows, columns); g[a][b] > Before(g, columns, a, b)
  {
    var g := Solved(rows, columns);
    assert g[a][b] == a * columns + b + 1;
    if b > 0 {
      assert g[a][b - 1] == a * columns + b;
    } else if a > 0 {
      assert g[a - 1][columns - 1] == (a - 1) * columns + (columns - 1) + 1;
      assert (a - 1) * columns + columns == a * columns;
    }
  }

  /** The solved board passes the goal test. */
  lemma SolvedInOrder(rows: nat, columns: nat)
    requires rows >= 1 && columns >= 1
    ensures InOrder(Solved(rows, columns), columns, rows - 1, columns - 1)
  {
    var g := Solved(rows, columns);
    forall a, b | 0 <= a < rows && 0 <= b < columns && (a < rows - 1 || (a == rows - 1 && b < columns - 1))
      ensures g[a][b] > Before(g, columns, a, b)
    {
      SolvedAscendingAt(rows, columns, a, b);
    }
    SolvedEmptyLast(rows, columns);
  }

  /** The empty tile of the solved board is last, and the value before it is not negative. */
  lemma SolvedEmptyLast(rows: nat, columns: nat)
    requires rows >= 1 && columns >= 1
    ensures var g := Solved(rows, columns);
      g[rows - 1][columns - 1] == 0 && Before(g, columns, rows - 1, columns - 1) >= 0
  {
    var g := Solved(rows, columns);
    if columns > 1 {
      SolvedNonNegative(rows, columns, rows - 1, columns - 2);
    } else if rows > 1 {
      SolvedNonNegative(rows, columns, rows - 2, 0);
    }
  }

  lemma SolvedNonNegative(rows: nat, columns: nat, a: nat, b: nat)
    requires a < rows && b < columns
    ensures Solved(rows, columns)[a][b] >= 0
  {
    var g := Solved(rows, columns);
    if !(a == rows - 1 && b == columns - 1) {
      assert g[a][b] == a * columns + b + 1;
      assert a * columns >= 0;
    }
  }

  lemma {:induction false} SolvedDistanceZero(rows: nat, columns: nat, i: nat, j: nat)
    requires rows >= 1 && columns >= 1
    requires i <= rows && j <= columns && (i == rows ==> j == 0)
    ensures DistanceSum(Solved(rows, columns), columns, i, j) == 0
    decreases i, j
  {
    var g := Solved(rows, columns);
    if j == 0 {
      if i > 0 {
        SolvedDistanceZero(rows, columns, i - 1, columns);
      }
    } else {
      SolvedDistanceZero(rows, columns, i, j - 1);
      SolvedAtGoal(rows, columns, i, j - 1);
    }
  }

  lemma {:induction false} SolvedRowConflictsZero(rows: nat, columns: nat, i: nat, j: nat, end: int)
    requires i < rows && j < columns && j + 1 <= end <= columns
    ensures RowConflicts(Solved(rows, columns), columns, i, j, end) == 0
    decreases end
  {
    if end > j + 1 {
      SolvedRowConflictsZero(rows, columns, i, j, end - 1);
      SolvedAtGoal(rows, columns, i, end - 1);
    }
  }

  lemma {:induction false} SolvedColumnConflictsZero(rows: nat, columns: nat, i: nat, j: nat, end: int)
    requires i < rows && j < columns && i + 1 <= end <= rows
    ensures ColumnConflicts(Solved(rows, columns), columns, i, j, end) == 0
    decreases end
  {
    if end > i + 1 {
      SolvedColumnConflictsZero(rows, columns, i, j, end - 1);
      SolvedAtGoal(rows, columns, end - 1, j);
    }
  }

  lemma {:induction false} SolvedConflictsZero(rows: nat, columns: nat, i: nat, j: nat)
    requires rows >= 1 && columns >= 1
    requires i <= rows && j <= columns && (i == rows ==> j == 0)
    ensures ConflictSum(Solved(rows, columns), columns, i, j) == 0
    decreases i, j
  {
    if j == 0 {
      if i > 0 {
        SolvedConflictsZero(rows, columns, i - 1, columns);
      }
    } else {
      SolvedConflictsZero(rows, columns, i, j - 1);
      SolvedRowConflictsZero(rows, columns, i, j - 1, columns);
      SolvedColumnConflictsZero(rows, columns, i, j - 1, rows);
    }
  }

  /** The heuristic is 0 on the solved board. */
  lemma SolvedHeuristicZero(rows: nat, columns: nat)
    requires rows >= 1 && columns >= 1
    ensures Heuristic(Solved(rows, columns), columns) == 0
  {
    SolvedDistanceZero(rows, columns, rows, 0);
    SolvedConflictsZero(rows, columns, rows, 0);
  }
}
