/**
 * The board rules of the Battleship game: ship lists, placement validation
 * with its fixed order of error messages, placing ships, attacks and
 * counting sunk ships. A board is a rectangular grid of characters indexed
 * `board[x, y]`, `x` along the first dimension.
 */
module Battleship {

  const HORIZONTAL: int := 0
  const VERTICAL: int := 1
  const TILE_EMPTY: char := '–'
  const TILE_SHIP: char := '#'
  const TILE_SHIP_DAMAGED: char := 'X'
  const TILE_HIT: char := 'V'
  /** The same character as TILE_SHIP_DAMAGED, as in the game. */
  const TILE_MISS: char := 'X'

  const ILLEGAL_ORIENTATION: string := "Illegal orientation, try again!"
  const ILLEGAL_TILE: string := "Illegal tile, try again!"
  const EXCEEDS_BOUNDARIES: string := "Battleship exceeds the boundaries of the board, try again!"
  const OVERLAPS: string := "Battleship overlaps another battleship, try again!"
  const ADJACENT: string := "Adjacent battleship detected, try again!"

  // ---------------------------------------------------------------------
  // Ship list

  /** Sum of the counts, which sit at the even indices of the (count, size) pairs. */
  function SumCounts(pairs: seq<int>): int
    requires |pairs| % 2 == 0
  {
    if |pairs| == 0 then 0 else SumCounts(pairs[..|pairs| - 2]) + pairs[|pairs| - 2]
  }

  predicate CountsNonNegative(pairs: seq<int>) {
    forall i :: 0 <= i < |pairs| && i % 2 == 0 ==> pairs[i] >= 0
  }

  /** `count` copies of `size`, as the inner loop writes them; none when `count` is not positive. */
  function Copies(size: int, count: int): (s: seq<int>)
    ensures |s| == if count > 0 then count else 0
    ensures forall i :: 0 <= i < |s| ==> s[i] == size
  {
    if count <= 0 then [] else Copies(size, count - 1) + [size]
  }

  /** Each pair (count, size), in input order, contributes `count` ships of `size`. */
  function Expand(pairs: seq<int>): seq<int>
    requires |pairs| % 2 == 0
  {
    if |pairs| == 0 then []
    else Expand(pairs[..|pairs| - 2]) + Copies(pairs[|pairs| - 1], pairs[|pairs| - 2])
  }

  lemma {:induction false} ExpandLength(pairs: seq<int>)
    requires |pairs| % 2 == 0 && CountsNonNegative(pairs)
    ensures |Expand(pairs)| == SumCounts(pairs)
  {
    if |pairs| > 0 {
      ExpandLength(pairs[..|pairs| - 2]);
    }
  }

  /** Every ship in the list has the size of some pair with a positive count. */
  lemma {:induction false} ExpandSizes(pairs: seq<int>, k: int)
    requires |pairs| % 2 == 0 && CountsNonNegative(pairs)
    requires 0 <= k < |Expand(pairs)|
    ensures exists i :: 0 <= i < |pairs| && i % 2 == 0 && pairs[i] > 0 && pairs[i + 1] == Expand(pairs)[k]
  {
    var front := pairs[..|pairs| - 2];
    var n := |pairs|;
    if k < |Expand(front)| {
      ExpandSizes(front, k);
      var i :| 0 <= i < |front| && i % 2 == 0 && front[i] > 0 && front[i + 1] == Expand(front)[k];
      assert pairs[i] == front[i] && pairs[i + 1] == front[i + 1];
    } else {
      assert Expand(pairs)[k] == pairs[n - 1];
      assert pairs[n - 2] > 0;
    }
  }

  lemma {:induction false} SumCountsPrefix(pairs: seq<int>, i: nat)
    requires |pairs| % 2 == 0 && CountsNonNegative(pairs)
    requires i <= |pairs| && i % 2 == 0
    ensures 0 <= SumCounts(pairs[..i]) <= SumCounts(pairs)
  {
    if i < |pairs| {
      var front := pairs[..|pairs| - 2];
      assert front[..i] == pairs[..i];
      SumCountsPrefix(front, i);
    } else {
      assert pairs[..i] == pairs;
      if |pairs| > 0 {
        SumCountsPrefix(pairs[..|pairs| - 2], |pairs| - 2);
        assert pairs[..|pairs| - 2][..|pairs| - 2] == pairs[..|pairs| - 2];
      }
    }
  }

  lemma ExpandStep(pairs: seq<int>, i: nat)
    requires |pairs| % 2 == 0
    requires i + 2 <= |pairs| && i % 2 == 0
    ensures Expand(pairs[..i + 2]) == Expand(pairs[..i]) + Copies(pairs[i + 1], pairs[i])
    ensures SumCounts(pairs[..i + 2]) == SumCounts(pairs[..i]) + pairs[i]
  {
    assert pairs[..i + 2][..i] == pairs[..i];
  }

  /**
   * The input `parseShips` returns normally on: no negative count, and
   * either whole pairs or a lone last count of 0, whose inner loop never
   * reads the size that would follow it.
   */
  predicate ValidShipSizes(shipSizes: seq<int>) {
    (|shipSizes| % 2 == 0 || shipSizes[|shipSizes| - 1] == 0) && CountsNonNegative(shipSizes)
  }

  /** The whole (count, size) pairs of the input, a lone last count left off. */
  function Pairs(shipSizes: seq<int>): (pairs: seq<int>)
    ensures |pairs| % 2 == 0 && pairs <= shipSizes && |shipSizes| - 1 <= |pairs|
  {
    if |shipSizes| % 2 == 0 then shipSizes else shipSizes[..|shipSizes| - 1]
  }

  /** The pairs a loop has passed once it has moved `i` entries into the input. */
  function Passed(pairs: seq<int>, i: int): seq<int>
    requires 0 <= i
  {
    if i <= |pairs| then pairs[..i] else pairs
  }

  /** The size the inner loop writes for the count at `i`; a lone last count has none. */
  function SizeAt(shipSizes: seq<int>, i: int): int
    requires 0 <= i
  {
    if i + 1 < |shipSizes| then shipSizes[i + 1] else 0
  }

  lemma OddAfterEven(n: int)
    requires n % 2 == 0
    ensures (n + 1) % 2 == 1
  {
  }

  /** A lone 0 after whole pairs is accepted and adds no ships, as the inner loop never runs for it. */
  lemma TrailingZeroIgnored(pairs: seq<int>)
    requires |pairs| % 2 == 0 && CountsNonNegative(pairs)
    ensures ValidShipSizes(pairs + [0])
    ensures Expand(Pairs(pairs + [0])) == Expand(pairs)
    ensures SumCounts(Pairs(pairs + [0])) == SumCounts(pairs)
  {
    var s := pairs + [0];
    OddAfterEven(|pairs|);
    assert s[|s| - 1] == 0;
    assert s[..|s| - 1] == pairs;
    assert Pairs(s) == pairs;
    forall i | 0 <= i < |s| && i % 2 == 0
      ensures s[i] >= 0
    {
      if i < |pairs| {
        assert s[i] == pairs[i];
      }
    }
  }

  /** The whole pairs keep the counts of the input, so they are non-negative too. */
  lemma PairsNonNegative(shipSizes: seq<int>)
    requires CountsNonNegative(shipSizes)
    ensures CountsNonNegative(Pairs(shipSizes))
  {
    var pairs := Pairs(shipSizes);
    forall k | 0 <= k < |pairs| && k % 2 == 0
      ensures pairs[k] >= 0
    {
      assert pairs[k] == shipSizes[k];
    }
  }

  /** An even index of the input either starts a whole pair or is the lone last count. */
  lemma PassKind(shipSizes: seq<int>, i: int)
    requires 0 <= i < |shipSizes| && i % 2 == 0
    ensures var pairs := Pairs(shipSizes);
      i + 2 <= |pairs| || (i == |pairs| && i == |shipSizes| - 1)
  {
    var pairs := Pairs(shipSizes);
    if i + 2 > |pairs| {
      assert i + 1 == |pairs| || i == |pairs|;
      assert i % 2 == 0 && |pairs| % 2 == 0;
      assert i == |pairs|;
    }
  }

  /** One pass of either loop of `parseShips` over the count at `i`, a lone last 0 included. */
  lemma PassStep(shipSizes: seq<int>, i: int)
    requires ValidShipSizes(shipSizes) && 0 <= i < |shipSizes| && i % 2 == 0
    ensures var pairs := Pairs(shipSizes);
      CountsNonNegative(pairs) && i <= |pairs|
      && 0 <= shipSizes[i] && (i + 1 < |shipSizes| || shipSizes[i] == 0)
      && SumCounts(Passed(pairs, i + 2)) == SumCounts(Passed(pairs, i)) + shipSizes[i] <= SumCounts(pairs)
      && Expand(Passed(pairs, i + 2)) == Expand(Passed(pairs, i)) + Copies(SizeAt(shipSizes, i), shipSizes[i])
  {
    var pairs := Pairs(shipSizes);
    PairsNonNegative(shipSizes);
    PassKind(shipSizes, i);
    if i + 2 <= |pairs| {
      ExpandStep(pairs, i);
      SumCountsPrefix(pairs, i + 2);
      assert pairs[i] == shipSizes[i] && pairs[i + 1] == shipSizes[i + 1];
    } else {
      assert |shipSizes| % 2 == 1;
      assert pairs[..i] == pairs;
    }
  }

  /**
   * `parseShips`: the list of ship sizes described by (count, size) pairs; a
   * lone last count of 0 adds no ships.
   */
  method ParseShips(shipSizes: array<int>) returns (ships: array<int>)
    requires ValidShipSizes(shipSizes[..])
    ensures fresh(ships)
    ensures ships[..] == Expand(Pairs(shipSizes[..]))
  {
    ghost var pairs := Pairs(shipSizes[..]);
    var amountOfShips := CountShips(shipSizes);
    ships := new int[amountOfShips];
    var index := 0;
    var i := 0;
    assert pairs[..0] == [];
    while i < shipSizes.Length
      invariant 0 <= i <= shipSizes.Length + 1 && i % 2 == 0
      invariant pairs == Pairs(shipSizes[..])
      invariant 0 <= index == SumCounts(Passed(pairs, i)) <= ships.Length == SumCounts(pairs)
      invariant ships[..index] == Expand(Passed(pairs, i))
    {
      index := PlacePair(ships, shipSizes, pairs, i, index);
      i := i + 2;
    }
    assert Passed(pairs, i) == pairs;
    assert index == ships.Length;
    assert ships[..] == ships[..index];
  }

  /** One pass of the second loop of `parseShips`: the next pair's ships are placed after those so far. */
  method PlacePair(ships: array<int>, shipSizes: array<int>, ghost pairs: seq<int>, i: int, index: int) returns (next: int)
    requires ships != shipSizes && ValidShipSizes(shipSizes[..]) && pairs == Pairs(shipSizes[..])
    requires ships.Length == SumCounts(pairs)
    requires 0 <= i < shipSizes.Length && i % 2 == 0
    requires index == SumCounts(Passed(pairs, i)) && 0 <= index <= ships.Length && ships[..index] == Expand(Passed(pairs, i))
    modifies ships
    ensures next == SumCounts(Passed(pairs, i + 2)) && 0 <= next <= ships.Length
    ensures ships[..next] == Expand(Passed(pairs, i + 2))
  {
    PassStep(shipSizes[..], i);
    next := PlaceCopies(ships, shipSizes, i, index);
  }

  /** The first loop of `parseShips`: the total of the counts. */
  method CountShips(shipSizes: array<int>) returns (amountOfShips: int)
    requires ValidShipSizes(shipSizes[..])
    ensures amountOfShips == SumCounts(Pairs(shipSizes[..])) && amountOfShips >= 0
  {
    ghost var pairs := Pairs(shipSizes[..]);
    amountOfShips := 0;
    var i := 0;
    assert pairs[..0] == [];
    while i < shipSizes.Length
      invariant 0 <= i <= shipSizes.Length + 1 && i % 2 == 0
      invariant amountOfShips == SumCounts(Passed(pairs, i))
    {
      PassStep(shipSizes[..], i);
      amountOfShips := amountOfShips + shipSizes[i];
      i := i + 2;
    }
    assert Passed(pairs, i) == pairs;
    PassNonNegative(shipSizes[..]);
  }

  lemma PassNonNegative(shipSizes: seq<int>)
    requires ValidShipSizes(shipSizes)
    ensures SumCounts(Pairs(shipSizes)) >= 0
  {
    if |shipSizes| == 0 {
    } else {
      PassStep(shipSizes, 0);
      SumCountsPrefix(Pairs(shipSizes), 0);
    }
  }

  /**
   * The inner loop of `parseShips`: `shipSizes[i]` copies of the size that
   * follows it, written from `index` on; the size is read only when a copy is written.
   */
  method PlaceCopies(ships: array<int>, shipSizes: array<int>, i: int, index: int) returns (next: int)
    requires ships != shipSizes && 0 <= i < shipSizes.Length && 0 <= index
    requires 0 <= shipSizes[i] && index + shipSizes[i] <= ships.Length
    requires i + 1 < shipSizes.Length || shipSizes[i] == 0
    modifies ships
    ensures next == index + shipSizes[i]
    ensures ships[..next] == old(ships[..index]) + Copies(SizeAt(shipSizes[..], i), shipSizes[i])
  {
    ghost var done := ships[..index];
    ghost var size := SizeAt(shipSizes[..], i);
    next := index;
    var j := 0;
    while j < shipSizes[i]
      invariant 0 <= j <= shipSizes[i] && next == index + j
      invariant ships[..next] == done + Copies(size, j)
    {
      ships[next] := shipSizes[i + 1];
      assert ships[..next + 1] == ships[..next] + [size];
      next := next + 1;
      j := j + 1;
    }
  }

  // ---------------------------------------------------------------------
  // Geometry

  /** `isInBounds`: the tile lies on a board of the given size. */
  function IsInBounds(boardSizeX: int, boardSizeY: int, x: int, y: int): (inside: bool)
    ensures inside <==> 0 <= x < boardSizeX && 0 <= y < boardSizeY
  {
    x >= 0 && x <= boardSizeX - 1 && y >= 0 && y <= boardSizeY - 1
  }

  /** Row of the `i`-th tile of a ship: horizontal ships keep `x`, any other orientation advances it. */
  function CellX(x: int, orientation: int, i: int): int {
    if orientation == HORIZONTAL then x else x + i
  }

  /** Column of the `i`-th tile of a ship: horizontal ships advance `y`, any other orientation keeps it. */
  function CellY(y: int, orientation: int, i: int): int {
    if orientation == HORIZONTAL then y + i else y
  }

  /** Tile (i, j) is one of the `shipSize` tiles of the ship at (x, y). */
  predicate OnShip(x: int, y: int, orientation: int, shipSize: int, i: int, j: int) {
    exists k :: 0 <= k < shipSize && i == CellX(x, orientation, k) && j == CellY(y, orientation, k)
  }

  predicate ShipOnBoard(board: array2<char>, x: int, y: int, orientation: int, shipSize: int) {
    forall k :: 0 <= k < shipSize ==>
      IsInBounds(board.Length0, board.Length1, CellX(x, orientation, k), CellY(y, orientation, k))
  }

  /** A ship tile lies on (x, y) or one of its eight neighbours on the board. */
  ghost predicate NearShip(board: array2<char>, x: int, y: int)
    reads board
  {
    exists i, j :: x - 1 <= i <= x + 1 && y - 1 <= j <= y + 1 &&
      IsInBounds(board.Length0, board.Length1, i, j) && board[i, j] == TILE_SHIP
  }

  ghost predicate Overlaps(board: array2<char>, x: int, y: int, orientation: int, shipSize: int)
    requires ShipOnBoard(board, x, y, orientation, shipSize)
    reads board
  {
    exists k :: 0 <= k < shipSize && board[CellX(x, orientation, k), CellY(y, orientation, k)] == TILE_SHIP
  }

  ghost predicate Crowded(board: array2<char>, x: int, y: int, orientation: int, shipSize: int)
    reads board
  {
    exists k :: 0 <= k < shipSize && NearShip(board, CellX(x, orientation, k), CellY(y, orientation, k))
  }

  /**
   * The message `getLocationError` reports: the first failing check in the
   * order orientation, starting tile, extent, overlap, adjacency; "" if none fails.
   */
  ghost function LocationError(board: array2<char>, x: int, y: int, orientation: int, shipSize: int): string
    reads board
  {
    if orientation != HORIZONTAL && orientation != VERTICAL then ILLEGAL_ORIENTATION
    else if !IsInBounds(board.Length0, board.Length1, x, y) then ILLEGAL_TILE
    else if !ShipOnBoard(board, x, y, orientation, shipSize) then EXCEEDS_BOUNDARIES
    else if Overlaps(board, x, y, orientation, shipSize) then OVERLAPS
    else if Crowded(board, x, y, orientation, shipSize) then ADJACENT
    else ""
  }

  /** A legal placement: a known orientation, every tile (and the start) on the board, no ship on or next to any tile. */
  ghost predicate ValidPlacement(board: array2<char>, x: int, y: int, orientation: int, shipSize: int)
    reads board
  {
    && (orientation == HORIZONTAL || orientation == VERTICAL)
    && IsInBounds(board.Length0, board.Length1, x, y)
    && ShipOnBoard(board, x, y, orientation, shipSize)
    && (forall k, i, j :: 0 <= k < shipSize && CellX(x, orientation, k) - 1 <= i <= CellX(x, orientation, k) + 1
          && CellY(y, orientation, k) - 1 <= j <= CellY(y, orientation, k) + 1
          && IsInBounds(board.Length0, board.Length1, i, j)
          ==> board[i, j] != TILE_SHIP)
  }

  /** The placement is accepted exactly when it is legal. */
  lemma LocationErrorEmptyIff(board: array2<char>, x: int, y: int, orientation: int, shipSize: int)
    ensures LocationError(board, x, y, orientation, shipSize) == "" <==> ValidPlacement(board, x, y, orientation, shipSize)
  {
    if ValidPlacement(board, x, y, orientation, shipSize) {
      forall k | 0 <= k < shipSize
        ensures board[CellX(x, orientation, k), CellY(y, orientation, k)] != TILE_SHIP
        ensures !NearShip(board, CellX(x, orientation, k), CellY(y, orientation, k))
      {
        var cx, cy := CellX(x, orientation, k), CellY(y, orientation, k);
        assert cx - 1 <= cx <= cx + 1 && cy - 1 <= cy <= cy + 1;
      }
    }
  }

  /** Every tile is its own neighbour: an overlapping ship is also an adjacent one, so the overlap check only sharpens the message. */
  lemma OverlapImpliesCrowded(board: array2<char>, x: int, y: int, orientation: int, shipSize: int)
    requires ShipOnBoard(board, x, y, orientation, shipSize)
    requires Overlaps(board, x, y, orientation, shipSize)
    ensures Crowded(board, x, y, orientation, shipSize)
  {
    var k :| 0 <= k < shipSize && board[CellX(x, orientation, k), CellY(y, orientation, k)] == TILE_SHIP;
    var cx, cy := CellX(x, orientation, k), CellY(y, orientation, k);
    assert cx - 1 <= cx <= cx + 1 && cy - 1 <= cy <= cy + 1 && IsInBounds(board.Length0, board.Length1, cx, cy);
    assert NearShip(board, cx, cy);
  }

  /** `isRadiusOccupied`: scans the 3x3 square around (x, y), clipped to the board. */
  method IsRadiusOccupied(board: array2<char>, x: int, y: int) returns (occupied: bool)
    ensures occupied <==> NearShip(board, x, y)
  {
    var radius := 1;
    var i := x - radius;
    while i <= x + radius
      invariant x - 1 <= i <= x + 2
      invariant forall i', j' ::
        x - 1 <= i' < i && y - 1 <= j' <= y + 1 && IsInBounds(board.Length0, board.Length1, i', j') ==> board[i', j'] != TILE_SHIP
    {
      var j := y - radius;
      while j <= y + radius
        invariant y - 1 <= j <= y + 2
        invariant forall j' :: y - 1 <= j' < j && IsInBounds(board.Length0, board.Length1, i, j') ==> board[i, j'] != TILE_SHIP
      {
        if IsInBounds(board.Length0, board.Length1, i, j) {
          if board[i, j] == TILE_SHIP {
            return true;
          }
        }
        j := j + 1;
      }
      i := i + 1;
    }
    return false;
  }

  /** `getLocationError`: which placement rule the ship breaks first, or "". */
  method GetLocationError(board: array2<char>, x: int, y: int, orientation: int, shipSize: int)
    returns (error: string)
    ensures error == LocationError(board, x, y, orientation, shipSize)
  {
    var boardSizeX := board.Length0;
    var boardSizeY := board.Length1;
    if orientation != HORIZONTAL && orientation != VERTICAL {
      return ILLEGAL_ORIENTATION;
    }
    if !IsInBounds(boardSizeX, boardSizeY, x, y) {
      return ILLEGAL_TILE;
    }
    if orientation == HORIZONTAL {
      if y + shipSize - 1 > boardSizeY - 1 {
        assert !IsInBounds(boardSizeX, boardSizeY, CellX(x, orientation, shipSize - 1), CellY(y, orientation, shipSize - 1));
        return EXCEEDS_BOUNDARIES;
      }
    } else {
      if x + shipSize - 1 > boardSizeX - 1 {
        assert !IsInBounds(boardSizeX, boardSizeY, CellX(x, orientation, shipSize - 1), CellY(y, orientation, shipSize - 1));
        return EXCEEDS_BOUNDARIES;
      }
    }
    assert ShipOnBoard(board, x, y, orientation, shipSize);
    var i := 0;
    while i < shipSize
      invariant 0 <= i <= if shipSize < 0 then 0 else shipSize
      invariant forall k :: 0 <= k < i ==> board[CellX(x, orientation, k), CellY(y, orientation, k)] != TILE_SHIP
    {
      if board[CellX(x, orientation, i), CellY(y, orientation, i)] == TILE_SHIP {
        return OVERLAPS;
      }
      i := i + 1;
    }
    i := 0;
    while i < shipSize
      invariant 0 <= i <= if shipSize < 0 then 0 else shipSize
      invariant forall k :: 0 <= k < i ==> !NearShip(board, CellX(x, orientation, k), CellY(y, orientation, k))
    {
      var occupied := IsRadiusOccupied(board, CellX(x, orientation, i), CellY(y, orientation, i));
      if occupied {
        return ADJACENT;
      }
      i := i + 1;
    }
    return "";
  }

  /** `addShipToBoard`: exactly the ship's tiles become TILE_SHIP; every other tile is unchanged. */
  method AddShipToBoard(board: array2<char>, x: int, y: int, orientation: int, shipSize: int)
    requires ShipOnBoard(board, x, y, orientation, shipSize)
    modifies board
    ensures forall i, j :: 0 <= i < board.Length0 && 0 <= j < board.Length1 ==>
      board[i, j] == if OnShip(x, y, orientation, shipSize, i, j) then TILE_SHIP else old(board[i, j])
  {
    var i := 0;
    while i < shipSize
      invariant 0 <= i <= if shipSize < 0 then 0 else shipSize
      invariant forall a, b :: 0 <= a < board.Length0 && 0 <= b < board.Length1 ==>
        board[a, b] == if OnShip(x, y, orientation, i, a, b) then TILE_SHIP else old(board[a, b])
    {
      board[CellX(x, orientation, i), CellY(y, orientation, i)] := TILE_SHIP;
      forall a, b | 0 <= a < board.Length0 && 0 <= b < board.Length1
        ensures OnShip(x, y, orientation, i + 1, a, b) <==>
          OnShip(x, y, orientation, i, a, b) || (a == CellX(x, orientation, i) && b == CellY(y, orientation, i))
      {
        if OnShip(x, y, orientation, i + 1, a, b) {
          var k :| 0 <= k < i + 1 && a == CellX(x, orientation, k) && b == CellY(y, orientation, k);
          if k < i { assert OnShip(x, y, orientation, i, a, b); }
        }
      }
      i := i + 1;
    }
  }

  // ---------------------------------------------------------------------
  // Attacks

  /** `isAttackValid`: the tile is on the board and has not been attacked yet. */
  function IsAttackValid(board: array2<char>, x: int, y: int): (valid: bool)
    reads board
    ensures valid <==> 0 <= x < board.Length0 && 0 <= y < board.Length1 && board[x, y] == TILE_EMPTY
  {
    if !IsInBounds(board.Length0, board.Length1, x, y) then false
    else if board[x, y] != TILE_EMPTY then false
    else true
  }

  /**
   * The hit/miss part of `inputAttack`, for the tile the input loop settled on.
   * A miss marks only the guessing board; a hit marks both boards.
   */
  method ResolveAttack(guessingBoard: array2<char>, enemyBoard: array2<char>, x: int, y: int) returns (hit: bool)
    requires guessingBoard != enemyBoard
    requires guessingBoard.Length0 == enemyBoard.Length0 && guessingBoard.Length1 == enemyBoard.Length1
    requires IsAttackValid(guessingBoard, x, y)
    modifies guessingBoard, enemyBoard
    ensures hit <==> old(enemyBoard[x, y]) != TILE_EMPTY
    ensures guessingBoard[x, y] == if hit then TILE_HIT else TILE_MISS
    ensures enemyBoard[x, y] == if hit then TILE_SHIP_DAMAGED else old(enemyBoard[x, y])
    ensures forall i, j :: 0 <= i < guessingBoard.Length0 && 0 <= j < guessingBoard.Length1 && (i, j) != (x, y) ==>
      guessingBoard[i, j] == old(guessingBoard[i, j]) && enemyBoard[i, j] == old(enemyBoard[i, j])
  {
    if enemyBoard[x, y] == TILE_EMPTY {
      guessingBoard[x, y] := TILE_MISS;
      return false;
    }
    guessingBoard[x, y] := TILE_HIT;
    enemyBoard[x, y] := TILE_SHIP_DAMAGED;
    return true;
  }

  // ---------------------------------------------------------------------
  // Sunk ships

  /** Every tile of the ship is on the board and damaged. */
  ghost predicate IsSunk(board: array2<char>, x: int, y: int, orientation: int, shipSize: int)
    reads board
  {
    forall k :: 0 <= k < shipSize ==>
      IsInBounds(board.Length0, board.Length1, CellX(x, orientation, k), CellY(y, orientation, k)) &&
      board[CellX(x, orientation, k), CellY(y, orientation, k)] == TILE_SHIP_DAMAGED
  }

  /** How many of the first `n` ships are sunk; ship `i` sits at locations[3i..3i+3) with size sizes[i]. */
  ghost function SunkCount(board: array2<char>, locations: seq<int>, sizes: seq<int>, n: nat): (count: int)
    requires 3 * n <= |locations| && n <= |sizes|
    reads board
    ensures 0 <= count <= n
  {
    if n == 0 then 0
    else
      var sunk := IsSunk(board, locations[3 * (n - 1)], locations[3 * (n - 1) + 1], locations[3 * (n - 1) + 2], sizes[n - 1]);
      SunkCount(board, locations, sizes, n - 1) + (if sunk then 1 else 0)
  }

  /** `countSunkShips`: how many recorded ships have every tile damaged. */
  method CountSunkShips(board: array2<char>, shipLocations: array<int>, shipSizes: array<int>) returns (count: int)
    requires shipLocations.Length / 3 <= shipSizes.Length
    requires forall i :: 0 <= i < shipLocations.Length / 3 ==>
      ShipOnBoard(board, shipLocations[3 * i], shipLocations[3 * i + 1], shipLocations[3 * i + 2], shipSizes[i])
    ensures count == SunkCount(board, shipLocations[..], shipSizes[..], shipLocations.Length / 3)
    ensures 0 <= count <= shipLocations.Length / 3
  {
    var locationParameters := 3;
    count := 0;
    var i := 0;
    while i < shipLocations.Length / locationParameters
      invariant 0 <= i <= shipLocations.Length / 3
      invariant count == SunkCount(board, shipLocations[..], shipSizes[..], i)
    {
      var x := shipLocations[i * locationParameters];
      var y := shipLocations[i * locationParameters + 1];
      var orientation := shipLocations[i * locationParameters + 2];
      var shipSize := shipSizes[i];
      assert ShipOnBoard(board, x, y, orientation, shipSize);
      var shipSunk := true;
      var j := 0;
      while j < shipSize
        invariant 0 <= j <= if shipSize < 0 then 0 else shipSize
        invariant shipSunk <==> forall k :: 0 <= k < j ==> board[CellX(x, orientation, k), CellY(y, orientation, k)] == TILE_SHIP_DAMAGED
        invariant !shipSunk ==> !IsSunk(board, x, y, orientation, shipSize)
      {
        if board[CellX(x, orientation, j), CellY(y, orientation, j)] != TILE_SHIP_DAMAGED {
          shipSunk := false;
          break;
        }
        j := j + 1;
      }
      assert shipSunk <==> IsSunk(board, x, y, orientation, shipSize);
      if shipSunk {
        count := count + 1;
      }
      i := i + 1;
    }
  }
}
