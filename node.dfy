/** A node of the puzzle's search tree: a state, the move that led to it and the node it came from. */
module Node {
  import opened Wrappers
  import opened Action
  import opened BoardText
  import opened BoardGrid
  import opened Board
  import opened State

  class Node {
    const state: State
    const action: Option<Action>
    const parent: Node?

    /** The root constructor: no action and no parent. */
    constructor Root(state: State)
      ensures this.state == state && action == None && parent == null
    {
      this.state := state;
      this.action := None;
      this.parent := null;
    }

    /** The constructor for expanded nodes. */
    constructor Child(state: State, action: Action, parent: Node)
      ensures this.state == state && this.action == Some(action) && this.parent == parent
    {
      this.state := state;
      this.action := Some(action);
      this.parent := parent;
    }

    /** `child` is the node `expand` makes for move `a`. */
    ghost predicate ExpandedBy(child: Node?, a: Action)
      requires OnBoard(state.board.Grid(), state.board.tiles.Length1, Position(state.board.emptyTileRow, state.board.emptyTileColumn))
      requires OnBoard(state.board.Grid(), state.board.tiles.Length1, Neighbour(Position(state.board.emptyTileRow, state.board.emptyTileColumn), a.direction))
      reads state.board, state.board.tiles
      reads if child != null then {child.state.board, child.state.board.tiles} else {}
    {
      var p := Position(state.board.emptyTileRow, state.board.emptyTileColumn);
      child != null
      && child.parent == this
      && child.action == Some(a)
      && child.state.board.Grid() == ApplyMove(state.board.Grid(), state.board.tiles.Length1, p, a)
      && Position(child.state.board.emptyTileRow, child.state.board.emptyTileColumn) == Neighbour(p, a.direction)
    }

    /**
     * `expand`: one child per available move, in the order the moves are
     * listed; child i holds the state the i-th move leads to, that move, and
     * this node as parent. With the empty-tile location off the board, the
     * first move's `result` throws at `setTile`; with no move there is no
     * such call, and the array is empty.
     */
    method Expand() returns (r: Result<array<Node?>, BoardException>)
      ensures var p := Position(state.board.emptyTileRow, state.board.emptyTileColumn);
        var acts := AvailableActions(state.board.Grid(), state.board.tiles.Length1, p);
        r.Failure? <==> !OnBoard(state.board.Grid(), state.board.tiles.Length1, p) && |acts| > 0
      ensures r.Success? ==> fresh(r.value)
      ensures var p := Position(state.board.emptyTileRow, state.board.emptyTileColumn);
        var acts := AvailableActions(state.board.Grid(), state.board.tiles.Length1, p);
        r.Success? ==>
          r.value.Length == |acts|
          && (|acts| > 0 ==> OnBoard(state.board.Grid(), state.board.tiles.Length1, p))
          && forall i :: 0 <= i < r.value.Length ==> ExpandedBy(r.value[i], acts[i])
    {
      var actions := state.Actions();
      var row, column := state.board.emptyTileRow, state.board.emptyTileColumn;
      if 0 < actions.Length && !(0 <= row < state.board.tiles.Length0 && 0 <= column < state.board.tiles.Length1) {
        return Failure(ArrayIndexOutOfBounds);
      }
      var expandedNodes := ExpandAll(actions);
      return Success(expandedNodes);
    }

    /** The loop of `expand`: a child for each listed move, in order. */
    method ExpandAll(actions: array<Action>) returns (expandedNodes: array<Node?>)
      requires actions[..] == AvailableActions(state.board.Grid(), state.board.tiles.Length1, Position(state.board.emptyTileRow, state.board.emptyTileColumn))
      requires 0 < actions.Length ==> OnBoard(state.board.Grid(), state.board.tiles.Length1, Position(state.board.emptyTileRow, state.board.emptyTileColumn))
      ensures fresh(expandedNodes) && expandedNodes.Length == actions.Length
      ensures 0 < actions.Length ==> OnBoard(state.board.Grid(), state.board.tiles.Length1, Position(state.board.emptyTileRow, state.board.emptyTileColumn))
      ensures forall i :: 0 <= i < expandedNodes.Length ==> ExpandedBy(expandedNodes[i], actions[i])
    {
      ghost var g := state.board.Grid();
      ghost var columns := state.board.tiles.Length1;
      ghost var p := Position(state.board.emptyTileRow, state.board.emptyTileColumn);
      ghost var acts := actions[..];
      assert MovesOnBoard(g, columns, p, acts);
      expandedNodes := new Node?[actions.Length];
      var i := 0;
      while i < expandedNodes.Length
        invariant 0 <= i <= expandedNodes.Length
        invariant actions[..] == acts
        invariant state.board.Grid() == g && Position(state.board.emptyTileRow, state.board.emptyTileColumn) == p
        invariant 0 < expandedNodes.Length ==> OnBoard(g, columns, p)
        invariant forall k :: 0 <= k < i ==> ExpandedBy(expandedNodes[k], acts[k])
      {
        expandedNodes[i] := ExpandBy(actions[i]);
        i := i + 1;
      }
    }

    /** One pass of the loop in `expand`: a new node for the state move `a` leads to. */
    method ExpandBy(a: Action) returns (child: Node)
      requires OnBoard(state.board.Grid(), state.board.tiles.Length1, Position(state.board.emptyTileRow, state.board.emptyTileColumn))
      requires OnBoard(state.board.Grid(), state.board.tiles.Length1, Neighbour(Position(state.board.emptyTileRow, state.board.emptyTileColumn), a.direction))
      ensures fresh(child) && ExpandedBy(child, a)
    {
      var next := state.Result(a);
      child := new Node.Child(next, a, this);
    }

    /** `heuristicValue`: the heuristic of the node's state, or the exception computing it raises. */
    method HeuristicValue(goalPositions: array<Position>) returns (r: Result<int, BoardException>)
      requires GoalTable(goalPositions[..], state.board.tiles.Length1)
      ensures r.Failure? <==> !state.board.ValuesInTable(goalPositions)
      ensures r.Success? ==> r.value == Heuristic(state.board.Grid(), state.board.tiles.Length1)
    {
      r := state.GetHeuristicValue(goalPositions);
    }
  }
}
