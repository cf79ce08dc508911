/**
 * The board of the sliding-tile puzzle: a rectangular array of tiles and the
 * recorded location of the empty tile. The board size and the goal table,
 * which the program keeps in static fields shared by all boards, are here
 * the array's dimensions and an explicit goal-table argument.
 */
module Board {
  import opened Wrappers
  import opened JavaLang
  import opened Tile
  import opened Helper
  import opened BoardText
  import opened BoardGrid

  /** The exception an array access past either end raises. */
  datatype BoardException = ArrayIndexOutOfBounds

  /**
   * A tile value the heuristic can look up in a goal table of `goalCount`
   * entries: 0, which it skips, or a value v whose entry v - 1 exists.
   */
  predicate InGoalTable(value: int, goalCount: int) {
    0 <= value <= goalCount
  }

  /**
   * The goal table the string constructor fills: entry v-1 is the goal
   * cell of value v, for v in 1..rows*columns.
   */
  method GoalPositions(rows: nat, columns: nat) returns (goalPositions: array<Position>)
    ensures fresh(goalPositions)
    ensures goalPositions.Length == rows * columns
    ensures GoalTable(goalPositions[..], columns)
  {
    goalPositions := new Position[rows * columns];
    var value := 1;
    while value <= rows * columns
      invariant 1 <= value <= rows * columns + 1
      invariant forall i :: 0 <= i < value - 1 ==> columns > 0 && goalPositions[i] == Goal(i + 1, columns)
    {
      // Both operands are non-negative, so Java's truncating `/` and `%` agree with Dafny's.
      goalPositions[value - 1] := Position((value - 1) / columns, (value - 1) % columns);
      value := value + 1;
    }
  }

  /** The first loop of the string constructor: one more row per bar, one column per number before the first bar. */
  method CountRowsAndColumns(boardValues: seq<Token>) returns (rows: int, columns: int)
    ensures rows == |Rows(boardValues)| && columns == |Rows(boardValues)[0]|
  {
    rows, columns := 1, 0;
    var k := 0;
    while k < |boardValues|
      invariant 0 <= k <= |boardValues|
      invariant rows == |Rows(boardValues[..k])| && columns == |Rows(boardValues[..k])[0]|
    {
      assert boardValues[..k + 1] == boardValues[..k] + [boardValues[k]];
      if boardValues[k] == Bar {
        rows := rows + 1;
      }
      if rows == 1 {
        columns := columns + 1;
      }
      k := k + 1;
    }
    assert boardValues[..k] == boardValues;
  }

  /**
   * The second loop of the string constructor: a bar moves to the start of
   * the next row, a number fills the next cell, and the last 0 read gives
   * the empty-tile location.
   */
  method FillTiles(boardValues: seq<Token>, rows: int, columns: int) returns (t: array2<Tile>, er: int, ec: int)
    requires rows == |Rows(boardValues)| && Rectangular(Rows(boardValues), columns)
    ensures fresh(t) && t.Length0 == rows && t.Length1 == columns
    ensures forall a, b :: 0 <= a < rows && 0 <= b < columns ==> t[a, b].value == Rows(boardValues)[a][b]
    ensures Position(er, ec) == LastZero(boardValues)
  {
    t := new Tile[rows, columns];
    var rowIndex, columnIndex := 0, 0;
    er, ec := 0, 0;
    var k := 0;
    while k < |boardValues|
      invariant 0 <= k <= |boardValues|
      invariant Filling(t, boardValues, k, rowIndex, columnIndex, er, ec)
    {
      rowIndex, columnIndex, er, ec := ReadToken(t, boardValues, k, rowIndex, columnIndex, er, ec);
      k := k + 1;
    }
    assert boardValues[..k] == boardValues;
    RowsOfPrefix(boardValues, k);
  }

  /**
   * What the second loop of the string constructor keeps after reading
   * `k` tokens: the position of the next cell, the last 0 read, and every
   * cell before the next one filled from the rows.
   */
  ghost predicate Filling(t: array2<Tile>, boardValues: seq<Token>, k: nat, rowIndex: int, columnIndex: int, er: int, ec: int)
    reads t
  {
    k <= |boardValues|
    && t.Length0 == |Rows(boardValues)| && Rectangular(Rows(boardValues), t.Length1)
    && rowIndex == |Rows(boardValues[..k])| - 1
    && columnIndex == |Rows(boardValues[..k])[rowIndex]|
    && Position(er, ec) == LastZero(boardValues[..k])
    && forall a, b :: 0 <= a < t.Length0 && 0 <= b < t.Length1 && (a < rowIndex || (a == rowIndex && b < columnIndex)) ==>
        t[a, b].value == Rows(boardValues)[a][b]
  }

  /** One pass of the second loop: a bar moves to the start of the next row, a number fills the next cell. */
  method ReadToken(t: array2<Tile>, boardValues: seq<Token>, k: nat, rowIndex: int, columnIndex: int, er: int, ec: int)
    returns (rowIndex': int, columnIndex': int, er': int, ec': int)
    requires k < |boardValues| && Filling(t, boardValues, k, rowIndex, columnIndex, er, ec)
    modifies t
    ensures Filling(t, boardValues, k + 1, rowIndex', columnIndex', er', ec')
  {
    rowIndex', columnIndex', er', ec' := rowIndex, columnIndex, er, ec;
    if boardValues[k] == Bar {
      ReadBar(boardValues, k);
      rowIndex' := rowIndex + 1;
      columnIndex' := 0;
    } else {
      ReadNumber(boardValues, k);
      var n := boardValues[k].n;
      t[rowIndex, columnIndex] := Tile(n);
      if t[rowIndex, columnIndex].GetValue() == 0 {
        er', ec' := rowIndex, columnIndex;
      }
      columnIndex' := columnIndex + 1;
    }
  }

  class Board {
    const tiles: array2<Tile>
    var emptyTileRow: int
    var emptyTileColumn: int

    /** The tile values, row by row. */
    function Grid(): (g: seq<seq<int>>)
      reads tiles
      ensures |g| == tiles.Length0 && Rectangular(g, tiles.Length1)
      ensures forall i, j :: 0 <= i < tiles.Length0 && 0 <= j < tiles.Length1 ==> g[i][j] == tiles[i, j].value
    {
      seq(tiles.Length0, i requires 0 <= i < tiles.Length0 reads tiles =>
        seq(tiles.Length1, j requires 0 <= j < tiles.Length1 reads tiles => tiles[i, j].value))
    }

    /**
     * The string constructor: a board with one row per `|`-separated part of
     * the string and as many columns as the first part has numbers. The
     * string must parse and every row must have that many numbers; otherwise
     * the program throws (or, for a short row, leaves cells unset).
     */
    constructor FromString(boardString: string)
      requires Lex(boardString).Some?
      requires Rectangular(Rows(Lex(boardString).value), |Rows(Lex(boardString).value)[0]|)
      ensures fresh(tiles)
      ensures tiles.Length0 == 1 + BarCount(Lex(boardString).value)
      ensures tiles.Length1 == |Rows(Lex(boardString).value)[0]|
      ensures Grid() == Rows(Lex(boardString).value)
      ensures Position(emptyTileRow, emptyTileColumn) == LastZero(Lex(boardString).value)
    {
      var boardValues := Lex(boardString).value;
      var rows, columns := CountRowsAndColumns(boardValues);
      var t, er, ec := FillTiles(boardValues, rows, columns);
      tiles := t;
      emptyTileRow, emptyTileColumn := er, ec;
      new;
      assert forall a | 0 <= a < rows :: Grid()[a] == Rows(boardValues)[a];
    }

    /** The copy constructor: fresh tiles with the same values and the same empty location. */
    constructor Copy(board: Board)
      ensures fresh(tiles)
      ensures tiles.Length0 == board.tiles.Length0 && tiles.Length1 == board.tiles.Length1
      ensures Grid() == board.Grid()
      ensures emptyTileRow == board.emptyTileRow && emptyTileColumn == board.emptyTileColumn
    {
      var t := new Tile[board.tiles.Length0, board.tiles.Length1];
      var i := 0;
      while i < board.tiles.Length0
        invariant 0 <= i <= board.tiles.Length0
        invariant forall a, b :: 0 <= a < i && 0 <= b < board.tiles.Length1 ==> t[a, b] == board.tiles[a, b]
      {
        var j := 0;
        while j < board.tiles.Length1
          invariant 0 <= j <= board.tiles.Length1
          invariant forall a, b :: 0 <= a < i && 0 <= b < board.tiles.Length1 ==> t[a, b] == board.tiles[a, b]
          invariant forall b :: 0 <= b < j ==> t[i, b] == board.tiles[i, b]
        {
          t[i, j] := board.tiles[i, j];
          j := j + 1;
        }
        i := i + 1;
      }
      tiles := t;
      emptyTileRow, emptyTileColumn := board.emptyTileRow, board.emptyTileColumn;
      new;
      assert forall a | 0 <= a < tiles.Length0 :: Grid()[a] == board.Grid()[a];
    }

    /** `isInOrder`: the goal test. */
    method IsInOrder() returns (inOrder: bool)
      ensures inOrder == InOrder(Grid(), tiles.Length1, emptyTileRow, emptyTileColumn)
    {
      var rows, columns := tiles.Length0, tiles.Length1;
      ghost var g := Grid();
      if emptyTileRow != rows - 1 || emptyTileColumn != columns - 1 {
        return false;
      }
      var previousValue := 0;
      var i := 0;
      while i < rows
        invariant 0 <= i <= rows
        invariant AscendingBefore(g, columns, i, 0)
        invariant previousValue == if i > 0 && columns > 0 then g[i - 1][columns - 1] else 0
      {
        var j := 0;
        while j < columns
          invariant 0 <= j <= columns
          invariant AscendingBefore(g, columns, i, j)
          invariant j > 0 ==> previousValue == g[i][j - 1]
          invariant j == 0 ==> previousValue == if i > 0 && columns > 0 then g[i - 1][columns - 1] else 0
        {
          var currentValue := tiles[i, j].GetValue();
          assert previousValue == Before(g, columns, i, j);
          if currentValue > previousValue {
            AscendingStep(g, columns, i, j);
            previousValue := currentValue;
          } else {
            ScanStops(g, columns, i, j);
            return i == rows - 1 && j == columns - 1;
          }
          j := j + 1;
        }
        AscendingNextRow(g, columns, i);
        i := i + 1;
      }
      return false;
    }

    /** `getTile`: the tile at (row, column), or nothing (`null`) off the board. */
    function GetTile(row: int, column: int): (t: Option<Tile>)
      reads tiles
      ensures t.None? <==> !(0 <= row < tiles.Length0 && 0 <= column < tiles.Length1)
      ensures t.Some? ==> t.value.value == Grid()[row][column]
    {
      if 0 <= row < tiles.Length0 && 0 <= column < tiles.Length1 then Some(tiles[row, column]) else None
    }

    /** `setTile`: only the one cell changes. */
    method SetTile(row: int, column: int, tile: Tile)
      requires 0 <= row < tiles.Length0 && 0 <= column < tiles.Length1
      modifies tiles
      ensures Grid() == old(Grid())[row := old(Grid())[row][column := tile.value]]
    {
      tiles[row, column] := tile;
      assert forall a | 0 <= a < tiles.Length0 :: Grid()[a] == old(Grid())[row := old(Grid())[row][column := tile.value]][a];
    }

    /** `updateEmptyTileLocation`. */
    method UpdateEmptyTileLocation(newRow: int, newColumn: int)
      modifies this
      ensures emptyTileRow == newRow && emptyTileColumn == newColumn
    {
      emptyTileRow := newRow;
      emptyTileColumn := newColumn;
    }

    /** Every tile value is 0 or a value the goal table has an entry for. */
    ghost predicate ValuesInTable(goalPositions: array<Position>)
      reads tiles
    {
      forall a, b :: 0 <= a < tiles.Length0 && 0 <= b < tiles.Length1 ==> InGoalTable(tiles[a, b].value, goalPositions.Length)
    }

    /**
     * The conflicts the tile at (i, j) has with later tiles of its row (the
     * first inner loop); it throws on a later value the goal table lacks.
     */
    method RowConflictsOf(goalPositions: array<Position>, i: int, j: int) returns (r: Result<int, BoardException>)
      requires GoalTable(goalPositions[..], tiles.Length1)
      requires 0 <= i < tiles.Length0 && 0 <= j < tiles.Length1
      ensures r.Failure? <==> exists k :: j < k < tiles.Length1 && !InGoalTable(tiles[i, k].value, goalPositions.Length)
      ensures r.Success? ==> r.value == RowConflicts(Grid(), tiles.Length1, i, j, tiles.Length1)
    {
      ghost var g := Grid();
      var columns := tiles.Length1;
      var count := 0;
      var k := j + 1;
      while k < columns
        invariant j + 1 <= k <= columns
        invariant count == RowConflicts(g, columns, i, j, k)
        invariant forall m :: j < m < k ==> InGoalTable(tiles[i, m].value, goalPositions.Length)
      {
        var nextValue := tiles[i, k].GetValue();
        if nextValue != 0 {
          if nextValue < 1 || goalPositions.Length < nextValue {
            return Failure(ArrayIndexOutOfBounds);
          }
          var nextGoalRow := goalPositions[nextValue - 1].row;
          var nextGoalColumn := goalPositions[nextValue - 1].column;
          if i == nextGoalRow && j > nextGoalColumn {
            count := count + 1;
          }
        }
        k := k + 1;
      }
      return Success(count);
    }

    /**
     * The conflicts the tile at (i, j) has with later tiles of its column (the
     * second inner loop); it throws on a later value the goal table lacks.
     */
    method ColumnConflictsOf(goalPositions: array<Position>, i: int, j: int) returns (r: Result<int, BoardException>)
      requires GoalTable(goalPositions[..], tiles.Length1)
      requires 0 <= i < tiles.Length0 && 0 <= j < tiles.Length1
      ensures r.Failure? <==> exists k :: i < k < tiles.Length0 && !InGoalTable(tiles[k, j].value, goalPositions.Length)
      ensures r.Success? ==> r.value == ColumnConflicts(Grid(), tiles.Length1, i, j, tiles.Length0)
    {
      ghost var g := Grid();
      var rows, columns := tiles.Length0, tiles.Length1;
      var count := 0;
      var k := i + 1;
      while k < rows
        invariant i + 1 <= k <= rows
        invariant count == ColumnConflicts(g, columns, i, j, k)
        invariant forall m :: i < m < k ==> InGoalTable(tiles[m, j].value, goalPositions.Length)
      {
        var nextValue := tiles[k, j].GetValue();
        if nextValue != 0 {
          if nextValue < 1 || goalPositions.Length < nextValue {
            return Failure(ArrayIndexOutOfBounds);
          }
          var nextGoalPos := goalPositions[nextValue - 1];
          if j == nextGoalPos.column && i > nextGoalPos.row {
            count := count + 1;
          }
        }
        k := k + 1;
      }
      return Success(count);
    }

    /**
     * `calculateHeuristicValue`: the Manhattan distance of every tile from its
     * goal cell plus two for every linear conflict. The program indexes the
     * goal table directly, so a tile value other than 0 without an entry
     * there makes it throw.
     */
    method CalculateHeuristicValue(goalPositions: array<Position>) returns (r: Result<int, BoardException>)
      requires GoalTable(goalPositions[..], tiles.Length1)
      ensures r.Failure? <==> !ValuesInTable(goalPositions)
      ensures r.Success? ==> r.value == Heuristic(Grid(), tiles.Length1)
    {
      ghost var g := Grid();
      var rows, columns := tiles.Length0, tiles.Length1;
      var totalDistance, conflicts := 0, 0;
      var i := 0;
      while i < rows
        invariant 0 <= i <= rows
        invariant totalDistance == DistanceSum(g, columns, i, 0)
        invariant conflicts == ConflictSum(g, columns, i, 0)
        invariant forall a, b :: 0 <= a < i && 0 <= b < columns ==> InGoalTable(tiles[a, b].value, goalPositions.Length)
      {
        var sums := RowCost(goalPositions, i, totalDistance, conflicts);
        if sums.Failure? {
          return Failure(sums.error);
        }
        totalDistance, conflicts := sums.value.0, sums.value.1;
        i := i + 1;
      }
      return Success(totalDistance + 2 * conflicts);
    }

    /**
     * One pass of the outer loop of `calculateHeuristicValue`: the running
     * distance and conflict totals carried over row `i`.
     */
    method RowCost(goalPositions: array<Position>, i: int, totalDistance: int, conflicts: int) returns (r: Result<(int, int), BoardException>)
      requires GoalTable(goalPositions[..], tiles.Length1) && 0 <= i < tiles.Length0
      requires totalDistance == DistanceSum(Grid(), tiles.Length1, i, 0) && conflicts == ConflictSum(Grid(), tiles.Length1, i, 0)
      ensures r.Failure? ==> !ValuesInTable(goalPositions)
      ensures r.Success? ==> forall b :: 0 <= b < tiles.Length1 ==> InGoalTable(tiles[i, b].value, goalPositions.Length)
      ensures r.Success? ==> r.value == (DistanceSum(Grid(), tiles.Length1, i + 1, 0), ConflictSum(Grid(), tiles.Length1, i + 1, 0))
    {
      ghost var g := Grid();
      var columns := tiles.Length1;
      var distanceSoFar, conflictsSoFar := totalDistance, conflicts;
      var j := 0;
      while j < columns
        invariant 0 <= j <= columns
        invariant distanceSoFar == DistanceSum(g, columns, i, j)
        invariant conflictsSoFar == ConflictSum(g, columns, i, j)
        invariant forall b :: 0 <= b < j ==> InGoalTable(tiles[i, b].value, goalPositions.Length)
      {
        var cost := CellCost(goalPositions, i, j);
        if cost.Failure? {
          return Failure(cost.error);
        }
        distanceSoFar := distanceSoFar + cost.value.0;
        conflictsSoFar := conflictsSoFar + cost.value.1;
        j := j + 1;
      }
      assert DistanceSum(g, columns, i + 1, 0) == DistanceSum(g, columns, i, columns);
      assert ConflictSum(g, columns, i + 1, 0) == ConflictSum(g, columns, i, columns);
      return Success((distanceSoFar, conflictsSoFar));
    }

    /**
     * One pass of the inner loop of `calculateHeuristicValue`: the distance
     * and the conflicts of the tile at (i, j), or the exception a value
     * without a goal-table entry raises.
     */
    method CellCost(goalPositions: array<Position>, i: int, j: int) returns (r: Result<(int, int), BoardException>)
      requires GoalTable(goalPositions[..], tiles.Length1)
      requires 0 <= i < tiles.Length0 && 0 <= j < tiles.Length1
      ensures r.Failure? ==> !ValuesInTable(goalPositions)
      ensures r.Success? ==> InGoalTable(tiles[i, j].value, goalPositions.Length)
      ensures r.Success? ==> r.value == (Distance(Grid(), tiles.Length1, i, j), CellConflicts(Grid(), tiles.Length1, i, j))
    {
      var distance, conflicts := 0, 0;
      var value := tiles[i, j].GetValue();
      if value != 0 {
        if value < 1 || goalPositions.Length < value {
          return Failure(ArrayIndexOutOfBounds);
        }
        var goalRow := goalPositions[value - 1].row;
        var goalColumn := goalPositions[value - 1].column;
        distance := Absolute(i - goalRow) + Absolute(j - goalColumn);
        if i == goalRow {
          var c := RowConflictsOf(goalPositions, i, j);
          if c.Failure? {
            return Failure(c.error);
          }
          conflicts := conflicts + c.value;
        }
        if j == goalColumn {
          var c := ColumnConflictsOf(goalPositions, i, j);
          if c.Failure? {
            return Failure(c.error);
          }
          conflicts := conflicts + c.value;
        }
      }
      return Success((distance, conflicts));
    }

    /**
     * `equals`: another board whose tile arrays are deeply equal. Two boards
     * with no rows are equal whatever their column count, as two empty outer
     * arrays are; the empty-tile location is not compared.
     */
    predicate Equals(other: JavaObject<Board>)
      reads tiles, if other.Instance? then {other.value.tiles} else {}
    {
      other.Instance?
      && var o := other.value.tiles;
      tiles.Length0 == o.Length0
      && (tiles.Length0 == 0 || tiles.Length1 == o.Length1)
      && forall a, b :: 0 <= a < tiles.Length0 && 0 <= b < tiles.Length1 ==> tiles[a, b] == o[a, b]
    }

    /** `hashCode`: `Arrays.deepHashCode` of the tiles, a tile hashing to its value. */
    function HashCode(): (h: int)
      reads tiles
      ensures IsInt32(h)
    {
      GridHash(Grid())
    }
  }

  /** `Arrays.hashCode` of one row of tiles, in 32-bit arithmetic. */
  function RowHash(row: seq<int>): (h: int)
    ensures IsInt32(h)
  {
    if row == [] then 1 else Wrap32(31 * RowHash(row[..|row| - 1]) + row[|row| - 1])
  }

  /** `Arrays.deepHashCode` of the rows. */
  function GridHash(g: seq<seq<int>>): (h: int)
    ensures IsInt32(h)
  {
    if g == [] then 1 else Wrap32(31 * GridHash(g[..|g| - 1]) + RowHash(g[|g| - 1]))
  }

  /** Deep equality of the tile arrays is equality of the value grids. */
  lemma BoardEqualsIff(a: Board, other: JavaObject<Board>)
    ensures a.Equals(other) <==> other.Instance? && a.Grid() == other.value.Grid()
  {
    if other.Instance? {
      var b := other.value;
      if a.Grid() == b.Grid() {
        assert a.tiles.Length0 == b.tiles.Length0;
        if a.tiles.Length0 > 0 {
          assert |a.Grid()[0]| == |b.Grid()[0]|;
        }
        forall i, j | 0 <= i < a.tiles.Length0 && 0 <= j < a.tiles.Length1
          ensures a.tiles[i, j] == b.tiles[i, j]
        {
          assert a.Grid()[i][j] == b.Grid()[i][j];
        }
      }
      if a.Equals(other) {
        assert forall i | 0 <= i < a.tiles.Length0 :: a.Grid()[i] == b.Grid()[i];
      }
    }
  }

  /** Equal boards hash alike. */
  lemma EqualBoardsHashAlike(a: Board, b: Board)
    requires a.Equals(Instance(b))
    ensures a.HashCode() == b.HashCode()
  {
    BoardEqualsIff(a, Instance(b));
  }
}
