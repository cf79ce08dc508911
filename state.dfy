/**
 * A state of the sliding-tile puzzle: a board, the moves it allows and the
 * state each move leads to.
 */
module State {
  import opened Wrappers
  import opened JavaLang
  import opened Tile
  import opened Action
  import opened BoardText
  import opened BoardGrid
  import opened Board

  /**
   * The cell whose tile moves into the empty cell `p` for a move in
   * direction `d`: UP takes the tile below, DOWN the one above, RIGHT the
   * one to the left and LEFT the one to the right.
   */
  function Neighbour(p: Position, d: Direction): Position {
    match d
    case UP => Position(p.row + 1, p.column)
    case DOWN => Position(p.row - 1, p.column)
    case RIGHT => Position(p.row, p.column - 1)
    case LEFT => Position(p.row, p.column + 1)
  }

  predicate OnBoard(g: seq<seq<int>>, columns: int, q: Position) {
    0 <= q.row < |g| && 0 <= q.column < columns
  }

  /** `getTile` on the grid: the tile at `q`, or nothing off the board. */
  function Lookup(g: seq<seq<int>>, columns: int, q: Position): Option<Tile>
    requires Rectangular(g, columns)
  {
    if OnBoard(g, columns, q) then Some(Tile(g[q.row][q.column])) else None
  }

  /** Every move takes its tile from a cell on the board. */
  ghost predicate MovesOnBoard(g: seq<seq<int>>, columns: int, p: Position, acts: seq<Action>) {
    forall k :: 0 <= k < |acts| ==> OnBoard(g, columns, Neighbour(p, acts[k].direction))
  }

  /** The moves among `ds`, in that order, whose neighbour cell is on the board. */
  function ActionsFrom(g: seq<seq<int>>, columns: int, p: Position, ds: seq<Direction>): (acts: seq<Action>)
    requires Rectangular(g, columns)
    ensures |acts| <= |ds|
    ensures MovesOnBoard(g, columns, p, acts)
  {
    if ds == [] then []
    else
      var d := ds[|ds| - 1];
      var t := Lookup(g, columns, Neighbour(p, d));
      ActionsFrom(g, columns, p, ds[..|ds| - 1]) + (if t.Some? then [Action(t.value, d)] else [])
  }

  /** `actions`: every available move, in the order UP, DOWN, RIGHT, LEFT. */
  function AvailableActions(g: seq<seq<int>>, columns: int, p: Position): (acts: seq<Action>)
    requires Rectangular(g, columns)
    ensures |acts| <= 4
    ensures MovesOnBoard(g, columns, p, acts)
  {
    ActionsFrom(g, columns, p, Directions)
  }

  /**
   * Each listed move takes the tile of an on-board neighbour in its own
   * direction, and every direction with an on-board neighbour is listed.
   */
  lemma {:induction false} ActionsFromMeaning(g: seq<seq<int>>, columns: int, p: Position, ds: seq<Direction>)
    requires Rectangular(g, columns)
    ensures var acts := ActionsFrom(g, columns, p, ds);
      (forall k :: 0 <= k < |acts| ==>
        acts[k].direction in ds
        && OnBoard(g, columns, Neighbour(p, acts[k].direction))
        && acts[k].tile == Tile(g[Neighbour(p, acts[k].direction).row][Neighbour(p, acts[k].direction).column]))
      && (forall d :: d in ds && OnBoard(g, columns, Neighbour(p, d)) ==> exists k :: 0 <= k < |acts| && acts[k].direction == d)
  {
    if ds != [] {
      var front := ds[..|ds| - 1];
      ActionsFromMeaning(g, columns, p, front);
      assert ds == front + [ds[|ds| - 1]];
      var acts := ActionsFrom(g, columns, p, ds);
      var before := ActionsFrom(g, columns, p, front);
      forall d | d in ds && OnBoard(g, columns, Neighbour(p, d))
        ensures exists k :: 0 <= k < |acts| && acts[k].direction == d
      {
        if d in front {
          var k :| 0 <= k < |before| && before[k].direction == d;
          assert acts[k] == before[k];
        } else {
          assert acts[|acts| - 1].direction == d;
        }
      }
    }
  }

  /** The moves and the directions with an on-board neighbour correspond exactly. */
  lemma AvailableActionsMeaning(g: seq<seq<int>>, columns: int, p: Position, d: Direction)
    requires Rectangular(g, columns)
    ensures var acts := AvailableActions(g, columns, p);
      (exists k :: 0 <= k < |acts| && acts[k].direction == d) <==> OnBoard(g, columns, Neighbour(p, d))
  {
    var acts := AvailableActions(g, columns, p);
    ActionsFromMeaning(g, columns, p, Directions);
    assert d in Directions;
    assert acts == ActionsFrom(g, columns, p, Directions);
    if exists k :: 0 <= k < |acts| && acts[k].direction == d {
      var k :| 0 <= k < |acts| && acts[k].direction == d;
      assert acts[k].direction in Directions;
      assert OnBoard(g, columns, Neighbour(p, acts[k].direction));
    }
  }

  /**
   * `result` on the grid: the action's tile goes to the empty cell `p`, and
   * the tile that was at `p` goes to the neighbour cell.
   */
  function ApplyMove(g: seq<seq<int>>, columns: int, p: Position, a: Action): (moved: seq<seq<int>>)
    requires Rectangular(g, columns) && OnBoard(g, columns, p) && OnBoard(g, columns, Neighbour(p, a.direction))
    ensures |moved| == |g| && Rectangular(moved, columns)
  {
    var q := Neighbour(p, a.direction);
    var emptyValue := g[p.row][p.column];
    var g1 := g[p.row := g[p.row][p.column := a.tile.value]];
    g1[q.row := g1[q.row][q.column := emptyValue]]
  }

  /** A listed move swaps the empty cell with its neighbour and changes no other cell. */
  lemma MoveIsSwap(g: seq<seq<int>>, columns: int, p: Position, a: Action)
    requires Rectangular(g, columns) && OnBoard(g, columns, p)
    requires a in AvailableActions(g, columns, p)
    ensures OnBoard(g, columns, Neighbour(p, a.direction))
    ensures var q := Neighbour(p, a.direction); var moved := ApplyMove(g, columns, p, a);
      moved[p.row][p.column] == g[q.row][q.column]
      && moved[q.row][q.column] == g[p.row][p.column]
      && forall r, c :: 0 <= r < |g| && 0 <= c < columns && Position(r, c) != p && Position(r, c) != q ==> moved[r][c] == g[r][c]
  {
    var acts := AvailableActions(g, columns, p);
    ActionsFromMeaning(g, columns, p, Directions);
    assert acts == ActionsFrom(g, columns, p, Directions);
    var k :| 0 <= k < |acts| && acts[k] == a;
    assert acts[k].direction in Directions;
  }

  /** All the values of a grid, with multiplicity. */
  function Cells(g: seq<seq<int>>): multiset<int> {
    if g == [] then multiset{} else Cells(g[..|g| - 1]) + multiset(g[|g| - 1])
  }

  lemma MultisetUpdate(s: seq<int>, c: int, v: int)
    requires 0 <= c < |s|
    ensures multiset(s[c := v]) + multiset{s[c]} == multiset(s) + multiset{v}
  {
    assert s == s[..c] + [s[c]] + s[c + 1..];
    assert s[c := v] == s[..c] + [v] + s[c + 1..];
  }

  /** Overwriting one cell trades its old value for the new one. */
  lemma {:induction false} CellsUpdate(g: seq<seq<int>>, r: int, c: int, v: int)
    requires 0 <= r < |g| && 0 <= c < |g[r]|
    ensures Cells(g[r := g[r][c := v]]) + multiset{g[r][c]} == Cells(g) + multiset{v}
  {
    var g' := g[r := g[r][c := v]];
    var front := g[..|g| - 1];
    if r == |g| - 1 {
      assert g'[..|g| - 1] == front;
      MultisetUpdate(g[r], c, v);
    } else {
      var front' := front[r := front[r][c := v]];
      assert g'[..|g| - 1] == front';
      assert g'[|g| - 1] == g[|g| - 1];
      assert g[r] == front[r];
      CellsUpdate(front, r, c, v);
      var last := multiset(g[|g| - 1]);
      assert Cells(g') == Cells(front') + last;
      assert Cells(g) == Cells(front) + last;
      assert Cells(front') + multiset{g[r][c]} == Cells(front) + multiset{v};
      calc {
        Cells(g') + multiset{g[r][c]};
        (Cells(front') + multiset{g[r][c]}) + last;
        (Cells(front) + multiset{v}) + last;
        Cells(g) + multiset{v};
      }
    }
  }

  /** A listed move only rearranges the tiles: the same values remain, with the same multiplicities. */
  lemma MoveKeepsTiles(g: seq<seq<int>>, columns: int, p: Position, a: Action)
    requires Rectangular(g, columns) && OnBoard(g, columns, p)
    requires a in AvailableActions(g, columns, p)
    ensures OnBoard(g, columns, Neighbour(p, a.direction))
    ensures Cells(ApplyMove(g, columns, p, a)) == Cells(g)
  {
    MoveIsSwap(g, columns, p, a);
    var q := Neighbour(p, a.direction);
    var x, t := g[p.row][p.column], a.tile.value;
    ActionTakesNeighbour(g, columns, p, a);
    var g1 := g[p.row := g[p.row][p.column := t]];
    CellsUpdate(g, p.row, p.column, t);
    assert g1[q.row][q.column] == t;
    var moved := g1[q.row := g1[q.row][q.column := x]];
    assert moved == ApplyMove(g, columns, p, a);
    CellsUpdate(g1, q.row, q.column, x);
    assert Cells(moved) + multiset{t} == Cells(g) + multiset{t};
    MultisetCancel(Cells(moved), Cells(g), t);
  }

  lemma MultisetCancel(m: multiset<int>, n: multiset<int>, t: int)
    requires m + multiset{t} == n + multiset{t}
    ensures m == n
  {
    assert forall y :: m[y] == (m + multiset{t})[y] - multiset{t}[y];
  }

  /** A listed move carries the tile of the cell it takes it from. */
  lemma ActionTakesNeighbour(g: seq<seq<int>>, columns: int, p: Position, a: Action)
    requires Rectangular(g, columns)
    requires a in AvailableActions(g, columns, p)
    ensures OnBoard(g, columns, Neighbour(p, a.direction))
    ensures a.tile.value == g[Neighbour(p, a.direction).row][Neighbour(p, a.direction).column]
  {
    var acts := AvailableActions(g, columns, p);
    ActionsFromMeaning(g, columns, p, Directions);
    assert acts == ActionsFrom(g, columns, p, Directions);
    var k :| 0 <= k < |acts| && acts[k] == a;
    assert acts[k].direction in Directions;
  }

  /** How many of the looked-up tiles are present: the number of available moves. */
  method CountPresent(tiles: array<Option<Tile>>, ghost g: seq<seq<int>>, ghost columns: int, ghost p: Position) returns (size: nat)
    requires Rectangular(g, columns) && tiles.Length == 4
    requires forall k :: 0 <= k < 4 ==> tiles[k] == Lookup(g, columns, Neighbour(p, Directions[k]))
    ensures size == |AvailableActions(g, columns, p)|
  {
    size := 0;
    var i := 0;
    while i < tiles.Length
      invariant 0 <= i <= tiles.Length
      invariant size == |ActionsFrom(g, columns, p, Directions[..i])|
    {
      assert Directions[..i + 1][..i] == Directions[..i];
      if tiles[i].Some? {
        size := size + 1;
      }
      i := i + 1;
    }
    assert Directions[..4] == Directions;
  }

  /** The moves for the present tiles, UP, DOWN, RIGHT, LEFT in that order. */
  method MovesFromTiles(tiles: array<Option<Tile>>, ghost g: seq<seq<int>>, ghost columns: int, ghost p: Position) returns (actions: array<Action>)
    requires Rectangular(g, columns) && tiles.Length == 4
    requires forall k :: 0 <= k < 4 ==> tiles[k] == Lookup(g, columns, Neighbour(p, Directions[k]))
    ensures fresh(actions)
    ensures actions[..] == AvailableActions(g, columns, p)
  {
    var size := CountPresent(tiles, g, columns, p);
    actions := new Action[size];
    var index := 0;
    var i := 0;
    while i < tiles.Length
      invariant 0 <= i <= tiles.Length
      invariant index == |ActionsFrom(g, columns, p, Directions[..i])| <= actions.Length
      invariant actions[..index] == ActionsFrom(g, columns, p, Directions[..i])
    {
      assert Directions[..i + 1][..i] == Directions[..i];
      ActionsFromPrefix(g, columns, p, Directions, i + 1);
      assert Directions[..4] == Directions;
      if tiles[i].Some? {
        actions[index] := Action(tiles[i].value, Directions[i]);
        assert actions[..index + 1] == actions[..index] + [actions[index]];
        index := index + 1;
      }
      i := i + 1;
    }
    assert Directions[..4] == Directions;
    assert actions[..] == actions[..index];
  }

  class State {
    const board: Board

    constructor(board: Board)
      ensures this.board == board
    {
      this.board := board;
    }

    /** `isGoal`: the board is in order. */
    method IsGoal() returns (goal: bool)
      ensures goal == InOrder(board.Grid(), board.tiles.Length1, board.emptyTileRow, board.emptyTileColumn)
    {
      goal := board.IsInOrder();
    }

    /** `actions`: the four neighbours' tiles are looked up, then the present ones become moves. */
    method Actions() returns (actions: array<Action>)
      ensures fresh(actions)
      ensures actions[..] == AvailableActions(board.Grid(), board.tiles.Length1, Position(board.emptyTileRow, board.emptyTileColumn))
    {
      ghost var g := board.Grid();
      var columns := board.tiles.Length1;
      var row := board.emptyTileRow;
      var column := board.emptyTileColumn;
      ghost var p := Position(row, column);
      var tiles := new Option<Tile>[4] [
        board.GetTile(row + 1, column),
        board.GetTile(row - 1, column),
        board.GetTile(row, column - 1),
        board.GetTile(row, column + 1)];
      forall k | 0 <= k < 4
        ensures tiles[k] == Lookup(g, columns, Neighbour(p, Directions[k]))
      {
        GetTileIsLookup(board, Neighbour(p, Directions[k]));
      }
      actions := MovesFromTiles(tiles, g, columns, p);
    }

    /**
     * `result`: a new state on a copy of the board with the move applied; the
     * receiver's board is left as it was. The empty location must be on the
     * board, and so must the cell the move takes its tile from.
     */
    method Result(action: Action) returns (next: State)
      requires OnBoard(board.Grid(), board.tiles.Length1, Position(board.emptyTileRow, board.emptyTileColumn))
      requires OnBoard(board.Grid(), board.tiles.Length1, Neighbour(Position(board.emptyTileRow, board.emptyTileColumn), action.direction))
      ensures fresh(next) && fresh(next.board) && fresh(next.board.tiles)
      ensures next.board.tiles.Length0 == board.tiles.Length0 && next.board.tiles.Length1 == board.tiles.Length1
      ensures next.board.Grid() == ApplyMove(board.Grid(), board.tiles.Length1, Position(board.emptyTileRow, board.emptyTileColumn), action)
      ensures Position(next.board.emptyTileRow, next.board.emptyTileColumn) == Neighbour(Position(board.emptyTileRow, board.emptyTileColumn), action.direction)
    {
      var newBoard := new Board.Copy(board);
      var row := board.emptyTileRow;
      var column := board.emptyTileColumn;
      var emptyTile := newBoard.GetTile(row, column);
      newBoard.SetTile(row, column, action.GetTile());
      var targetRow, targetColumn := row, column;
      match action.GetDirection() {
      case UP => targetRow := row + 1;
      case DOWN => targetRow := row - 1;
      case RIGHT => targetColumn := column - 1;
      case LEFT => targetColumn := column + 1;
      }
      assert Position(targetRow, targetColumn) == Neighbour(Position(row, column), action.direction);
      newBoard.SetTile(targetRow, targetColumn, emptyTile.value);
      newBoard.UpdateEmptyTileLocation(targetRow, targetColumn);
      next := new State(newBoard);
    }

    /** `getHeuristicValue`: the board's heuristic, or the exception computing it raises. */
    method GetHeuristicValue(goalPositions: array<Position>) returns (r: Result<int, BoardException>)
      requires GoalTable(goalPositions[..], board.tiles.Length1)
      ensures r.Failure? <==> !board.ValuesInTable(goalPositions)
      ensures r.Success? ==> r.value == Heuristic(board.Grid(), board.tiles.Length1)
    {
      r := board.CalculateHeuristicValue(goalPositions);
    }

    /** `equals`: another state whose board equals this one's. */
    predicate Equals(other: JavaObject<State>)
      reads board.tiles, if other.Instance? then {other.value.board.tiles} else {}
    {
      other.Instance? && board.Equals(Instance(other.value.board))
    }

    /** `hashCode`: the board's hash. */
    function HashCode(): (h: int)
      reads board.tiles
      ensures IsInt32(h)
    {
      board.HashCode()
    }
  }

  lemma GetTileIsLookup(b: Board, q: Position)
    ensures b.GetTile(q.row, q.column) == Lookup(b.Grid(), b.tiles.Length1, q)
  {
  }

  lemma {:induction false} ActionsFromPrefix(g: seq<seq<int>>, columns: int, p: Position, ds: seq<Direction>, k: nat)
    requires Rectangular(g, columns) && k <= |ds|
    ensures ActionsFrom(g, columns, p, ds[..k]) <= ActionsFrom(g, columns, p, ds)
    decreases |ds|
  {
    if k < |ds| {
      var front := ds[..|ds| - 1];
      assert ds[..k] == front[..k];
      ActionsFromPrefix(g, columns, p, front, k);
    } else {
      assert ds[..k] == ds;
    }
  }

  /** States are equal exactly when their boards hold the same tiles. */
  lemma StateEqualsIff(s: State, other: JavaObject<State>)
    ensures s.Equals(other) <==> other.Instance? && s.board.Grid() == other.value.board.Grid()
  {
    if other.Instance? {
      BoardEqualsIff(s.board, Instance(other.value.board));
    }
  }

  /** Equal states hash alike. */
  lemma EqualStatesHashAlike(s: State, t: State)
    requires s.Equals(Instance(t))
    ensures s.HashCode() == t.HashCode()
  {
    EqualBoardsHashAlike(s.board, t.board);
  }
}
