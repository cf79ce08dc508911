# Java course exercises (HW0–HW4), modelled in Dafny

This project models the sequential logic of five Java course exercises and
proves what their code promises:

- **HW0, Battleship.** Board cells are `array2<char>`. The model covers
  expanding the ship specification into a ship list, the placement
  validator and its fixed error order, writing a ship onto the board, attack
  validity, the hit/miss outcome of an attack, and counting sunk ships.
- **HW1, sliding-tile puzzle.**
  - `Board` is a class over an `array2<Tile>`. It parses the board string,
    fills the goal-position table, runs the goal test and gives
    bounds-checked tile access.
  - The Manhattan-plus-linear-conflict heuristic is proved against a
    specification on `seq<seq<int>>`, which also shows the heuristic is 0 on
    the solved board.
  - `State` generates the legal moves and applies a move as a swap on a copy.
  - `Node` expands a state into its children.
  - `Tile`, `Action` and `Helper.absolute` are small value types and a helper.
- **HW2, calendar values.** `Date` and `DateTime` have clamping setters, a
  hash code that is injective and sign-preserving, class-sensitive
  `equals`, and zero-padded printing.
- **HW2, symbolic differentiation.** One `Function` datatype covers
  `Polynomial`, the operator classes (`MultiSum`, `Sum`, `MultiProduct`,
  `Product`, `Difference`, `Quotient`), `Negation` and `Power`. It has a
  `Derivative` and a `ToString` function. The loops of `Polynomial`,
  `MultiFunction`, `MultiSum` and `MultiProduct` are methods proved against
  those functions.
- **HW3, collections.**
  - `ArrayStack` is a bounded stack over an array, with typed errors and a
    top-to-bottom iterator.
  - `Song` and `Filter` are classes.
  - `Playlist` keeps a list without equal songs. Its iterator filters and
    then sorts in the selected scanning order.
- **HW4.**
  - Path-from-root and level-with-largest-sum work on a `Tree` datatype.
  - `Database` is a sequential state machine of reader/writer permissions.
    The calling thread is an explicit parameter.

Shared pieces:
- `wrappers.dfy` holds `Option`, `Result` and `Outcome`.
- `java_lang.dfy` holds the Java semantics the code depends on:
  - 32-bit wrap-around;
  - truncating `/` and `%`;
  - `Integer.toString`, `Integer.parseInt` and `%0Nd` formatting;
  - `String.hashCode`.
- `string_order.dfy` holds `String.compareTo` as a total order, over code points (the same as Java's order on text inside the Basic Multilingual Plane).

Where the reader/writer description of `Database` and its code differ, the
model follows the code:
- The constructor accepts a negative maximum, and no thread can then ever
  read. Negative capacity is not rejected at construction.
- The code only keeps "a writer excludes readers". It does not keep the
  converse: with no readers there may also be no writer.
- A thread that already reads and asks again is not refused. Readers are a
  set, so its count does not change, but the request still needs a free
  slot.

## Model

| member | source | states |
|---|---|---|
| Battleship.ParseShips | HW0/src/Main.java:78-94 | the ship list is every pair's count copies of its size, in input order; a lone last count of 0 adds nothing |
| Battleship.CountShips | HW0/src/Main.java:82-85 | the number of ships is the sum of the counts at even indices, a lone last 0 included, never negative |
| Battleship.PlacePair | HW0/src/Main.java:87-92 | one pass of the outer loop: the next pair's ships follow those placed so far, and the index moves on by its count |
| Battleship.PlaceCopies | HW0/src/Main.java:87-91 | the inner loop appends exactly `shipSizes[i]` copies of the size after it, and needs no size when the count is 0 |
| Battleship.TrailingZeroIgnored | HW0/src/Main.java:82-92 | whole pairs followed by a lone 0 are accepted and give the same ships and count as the pairs alone |
| Battleship.PassStep | HW0/src/Main.java:82-92 | one pass over the count at `i` adds that count to the total and its copies to the list; a lone last 0 adds nothing |
| Battleship.ExpandLength | HW0/src/Main.java:78-94 | the expanded list is as long as the sum of the counts |
| Battleship.ExpandSizes | HW0/src/Main.java:87-91 | every ship size in the list comes from a pair with a positive count |
| Battleship.ExpandStep | HW0/src/Main.java:87-91 | one more pair appends its copies and adds its count to the total |
| Battleship.IsInBounds | HW0/src/Main.java:238-240 | inside iff 0 ≤ x < sizeX and 0 ≤ y < sizeY |
| Battleship.IsRadiusOccupied | HW0/src/Main.java:249-264 | occupied iff a ship tile lies on the cell or one of its eight neighbours on the board |
| Battleship.GetLocationError | HW0/src/Main.java:176-228 | the message of the first failed check, in the order orientation, start tile, extent, overlap, adjacency; "" if none fails |
| Battleship.LocationErrorEmptyIff | HW0/src/Main.java:176-228 | no message iff the orientation is 0 or 1, the ship lies on the board and no ship tile touches it |
| Battleship.OverlapImpliesCrowded | HW0/src/Main.java:198-208 | an overlapping ship is also adjacent to a ship tile |
| Battleship.AddShipToBoard | HW0/src/Main.java:272-287 | exactly the ship's tiles, along y if horizontal and along x otherwise, become `TILE_SHIP`; every other cell is unchanged |
| Battleship.IsAttackValid | HW0/src/Main.java:399-418 | valid iff the cell is on the board and empty on the guessing board |
| Battleship.ResolveAttack | HW0/src/Main.java:379-388 | hit iff the enemy cell is not empty; the guessing cell becomes `TILE_HIT` or `TILE_MISS`; the enemy cell becomes `TILE_SHIP_DAMAGED` on a hit; no other cell changes |
| Battleship.SunkCount | HW0/src/Main.java:427-459 | the number of sunk ships lies between 0 and the number of ships |
| Battleship.CountSunkShips | HW0/src/Main.java:427-459 | the count of ships whose every tile is `TILE_SHIP_DAMAGED`, between 0 and the number of ships |
| Helper.Absolute | HW1/src/Helper.java:9-14 | x for x ≥ 0, −x otherwise, never negative |
| Helper.Absolute32 | HW1/src/Helper.java:9-14 | the helper with 32-bit negation stays a 32-bit value |
| Helper.Absolute32Agrees | HW1/src/Helper.java:9-14 | with 32 bits it agrees with the exact value for every x except `Integer.MIN_VALUE` |
| Helper.Absolute32NonNegative | HW1/src/Helper.java:10-12 | with 32 bits the result is non-negative iff x is not `Integer.MIN_VALUE` |
| Helper.AbsoluteSymmetric | HW1/src/Helper.java:9-14 | absolute(−x) = absolute(x) |
| Helper.AbsoluteIdempotent | HW1/src/Helper.java:9-14 | absolute(absolute(x)) = absolute(x) |
| Tile.Tile.GetValue | HW1/src/Tile.java:15-26 | the tile made from the returned value is this tile |
| Tile.TileEqualsIff | HW1/src/Tile.java:29-35 | equal iff the other object is a tile with the same value; never equal to null or to another class |
| Tile.EqualTilesHashEqual | HW1/src/Tile.java:38-40 | equal tiles have equal hash codes |
| Action.Action.GetTile | HW1/src/Action.java:13-25 | the returned tile together with this direction rebuilds the action |
| Action.Action.GetDirection | HW1/src/Action.java:13-34 | this tile together with the returned direction rebuilds the action |
| Action.DirectionNamesLower | HW1/src/Action.java:42-44 | the four direction names print as "up", "down", "right", "left" |
| Action.SplitPrinted | HW1/src/Action.java:42-44 | "Move p x" determines p and x when p has no space |
| Action.ToStringInjective | HW1/src/Action.java:42-44 | two actions that print the same are the same action |
| BoardText.SplitOnSpace | HW1/src/Board.java:23 | `split(" ")` yields pieces without spaces |
| BoardText.DropTrailingEmpty | HW1/src/Board.java:23 | trailing empty pieces are dropped, and only those |
| BoardText.Widen | HW1/src/Board.java:23 | no underscore is left, every bar has a space on each side, so `split(" ")` makes it a piece of its own, and a string without bars or underscores is unchanged |
| BoardText.ReadTokens | HW1/src/Board.java:41-46 | parsing fails iff some piece is neither a bar nor a number; otherwise one token per piece, a bar exactly where the piece is "\|" |
| BoardText.Rows | HW1/src/Board.java:26-35 | there is one row more than there are bars |
| BoardText.JoinRows | HW1/src/Board.java:26-54 | the rows read from the tokens give those tokens back when joined with bars |
| BoardText.RowsOfPrefix | HW1/src/Board.java:41-54 | reading a prefix of the tokens gives a prefix of the final rows |
| BoardText.ReadBar | HW1/src/Board.java:42-44 | a bar starts a new empty row and completes the current one |
| BoardText.ReadNumber | HW1/src/Board.java:45-52 | a number fills the next cell of the current row; a 0 becomes the empty-tile location |
| BoardText.LastZeroIsEmpty | HW1/src/Board.java:46-51 | when the board has a 0, the recorded empty-tile location is on the board and holds 0 |
| Board.GoalPositions | HW1/src/Board.java:57-62 | entry v−1 is ((v−1)/columns, (v−1)%columns) for every v in 1..rows·columns |
| Board.CountRowsAndColumns | HW1/src/Board.java:26-35 | rows is one more than the number of bars and columns is the length of the first row |
| Board.FillTiles | HW1/src/Board.java:36-54 | the new grid holds the parsed rows, and the empty-tile location is that of the last 0 |
| Board.ReadToken | HW1/src/Board.java:41-54 | one pass of the fill loop keeps the filling invariant for one more token |
| Board.Board.Grid | HW1/src/Board.java:9 | the grid is the tile values, row by row |
| Board.Board.FromString | HW1/src/Board.java:21-63 | the rows, the column count, the tiles and the empty-tile location are those parsed from the string |
| Board.Board.Copy | HW1/src/Board.java:70-82 | fresh tiles with the same grid and empty-tile location, so later writes to the copy leave the original unchanged |
| Board.Board.IsInOrder | HW1/src/Board.java:90-107 | true iff the empty tile is bottom-right, all other values strictly increase in row-major order, and the bottom-right value is not above its predecessor |
| BoardGrid.SolvedInOrder | HW1/src/Board.java:90-107 | the solved board passes the goal test |
| BoardGrid.AscendingBreaks | HW1/src/Board.java:96-103 | one value not above its predecessor breaks the order for every later cell |
| BoardGrid.ScanStops | HW1/src/Board.java:96-103 | where the scan first meets a value not above its predecessor, the board is in order iff that is the last cell |
| Board.Board.GetTile | HW1/src/Board.java:117-122 | nothing iff the cell is off the board, otherwise the stored tile |
| Board.Board.SetTile | HW1/src/Board.java:131-133 | only that cell of the grid changes, to the given tile |
| Board.Board.UpdateEmptyTileLocation | HW1/src/Board.java:160-163 | the empty-tile location becomes the given cell |
| BoardGrid.GoalOfCell | HW1/src/Board.java:57-62 | the goal of value r·columns + c + 1 is cell (r, c) |
| BoardGrid.GoalOnBoard | HW1/src/Board.java:57-62 | every value 1..rows·columns has its goal on the board |
| BoardGrid.Distance | HW1/src/Board.java:179-184 | a tile's Manhattan distance is never negative and is 0 on its goal |
| BoardGrid.RowConflicts | HW1/src/Board.java:189-201 | the row conflicts of a tile are at most the number of tiles to its right |
| BoardGrid.ColumnConflicts | HW1/src/Board.java:204-217 | the column conflicts of a tile are at most the number of tiles below it |
| BoardGrid.Heuristic | HW1/src/Board.java:171-221 | the heuristic is never negative |
| BoardGrid.SolvedHeuristicZero | HW1/src/Board.java:171-221 | the heuristic of the solved board is 0 |
| Board.Board.RowConflictsOf | HW1/src/Board.java:189-201 | the inner row loop counts the tile's row conflicts; it throws iff a later value in the row has no goal-table entry |
| Board.Board.ColumnConflictsOf | HW1/src/Board.java:204-217 | the inner column loop counts the tile's column conflicts; it throws iff a later value in the column has no goal-table entry |
| Board.Board.CalculateHeuristicValue | HW1/src/Board.java:171-221 | throws `ArrayIndexOutOfBoundsException` iff some tile value is neither 0 nor in 1..(goal-table length); otherwise the total distance plus twice the conflicts, equal to the heuristic of the grid |
| Board.Board.RowCost | HW1/src/Board.java:175-219 | one pass of the outer loop carries the distance and conflict totals over a row, and returns normally only when every value in the row has a goal-table entry |
| Board.Board.CellCost | HW1/src/Board.java:178-215 | one cell: the empty tile costs nothing, any other its Manhattan distance from its goal and the conflicts charged to it; it throws only when some value has no goal-table entry, and returns normally only when this cell's value has one |
| Board.Board.HashCode | HW1/src/Board.java:233-235 | the deep hash of the grid is a 32-bit value |
| Board.Board.Equals | HW1/src/Board.java:224-230 | the definition of `equals`: the other object is a board whose tile arrays are deeply equal to these; Board.BoardEqualsIff states what it means |
| Board.BoardEqualsIff | HW1/src/Board.java:224-230 | equal iff the other object is a board with the same grid; the empty-tile location is not compared |
| Board.EqualBoardsHashAlike | HW1/src/Board.java:224-235 | equal boards have equal hash codes |
| State.AvailableActions | HW1/src/State.java:35-65 | at most four moves, each with its neighbour cell on the board |
| State.ActionsFromMeaning | HW1/src/State.java:42-63 | each move carries its neighbour's tile and a listed direction, and every direction with a neighbour on the board is offered |
| State.AvailableActionsMeaning | HW1/src/State.java:42-63 | a direction is offered iff its neighbour cell (UP row+1, DOWN row−1, RIGHT column−1, LEFT column+1) is on the board |
| State.ActionsFromPrefix | HW1/src/State.java:58-63 | the moves found in the first k directions come first, in direction order |
| State.CountPresent | HW1/src/State.java:48-53 | the size loop counts exactly the moves that will be offered |
| State.MovesFromTiles | HW1/src/State.java:56-64 | the fill loop lists exactly the available moves, in direction order |
| State.ApplyMove | HW1/src/State.java:82-105 | a move keeps the board's shape |
| State.MoveIsSwap | HW1/src/State.java:82-105 | a move swaps the empty cell with its neighbour and leaves every other cell unchanged |
| State.MoveKeepsTiles | HW1/src/State.java:82-105 | a move keeps the multiset of tiles |
| State.CellsUpdate | HW1/src/State.java:85 | overwriting one cell swaps one value in the multiset of tiles |
| State.ActionTakesNeighbour | HW1/src/State.java:42-45 | an offered move carries the tile of the cell it moves |
| State.GetTileIsLookup | HW1/src/State.java:42-45 | the board's `getTile` is a lookup in its grid |
| State.State.constructor | HW1/src/State.java:14-16 | the state holds the given board |
| State.State.IsGoal | HW1/src/State.java:23-25 | a goal iff the board is in order |
| State.State.Actions | HW1/src/State.java:35-65 | the moves are exactly the available moves, in the order UP, DOWN, RIGHT, LEFT |
| State.State.Result | HW1/src/State.java:73-109 | a fresh state on a fresh board whose grid is the swap and whose empty tile is at the neighbour; the receiver is unchanged |
| State.State.GetHeuristicValue | HW1/src/State.java:117-119 | the heuristic of its board, throwing iff a tile value has no goal-table entry |
| State.State.HashCode | HW1/src/State.java:131-133 | the board's 32-bit hash |
| State.State.Equals | HW1/src/State.java:122-128 | the definition of `equals`: the other object is a state whose board equals this one's; State.StateEqualsIff states what it means |
| State.StateEqualsIff | HW1/src/State.java:122-128 | equal iff the other object is a state whose board has the same grid |
| State.EqualStatesHashAlike | HW1/src/State.java:122-133 | equal states have equal hash codes |
| Node.Node.Root | HW1/src/Node.java:16-18 | a root node has no action and no parent |
| Node.Node.Child | HW1/src/Node.java:27-31 | an expanded node records its state, action and parent |
| Node.Node.Expand | HW1/src/Node.java:65-72 | throws iff the empty-tile location is off the board and some move is available; otherwise one child per available move, in move order, child i holding the state the i-th move leads to, that move and this node as parent (an empty array when no move exists, as on a board with no columns) |
| Node.Node.ExpandAll | HW1/src/Node.java:67-70 | the loop makes a fresh array with one child per listed move, child i built from move i |
| Node.Node.ExpandBy | HW1/src/Node.java:69 | a fresh child for one move |
| Node.Node.HeuristicValue | HW1/src/Node.java:81-83 | the heuristic of the node's state, throwing iff a tile value has no goal-table entry |
| Calendar.ClampDay | HW2/src/Date.java:79-85 | a day in [1, 31] is kept and anything else becomes 1 |
| Calendar.ClampMonth | HW2/src/Date.java:92-98 | a month in [1, 12] is kept and anything else becomes 1 |
| Calendar.ClampYear | HW2/src/Date.java:105-111 | a year in [−3999, 3999] is kept and anything else becomes 0 |
| Calendar.ClampHour | HW2/src/DateTime.java:81-87 | an hour in [0, 23] is kept and anything else becomes 0 |
| Calendar.ClampMinute | HW2/src/DateTime.java:94-100 | a minute in [0, 59] is kept and anything else becomes 0 |
| Calendar.DateHash | HW2/src/Date.java:46-58 | the date hash is negative iff the year is, and is bounded |
| Calendar.DateHashInjective | HW2/src/Date.java:39-58 | two valid dates with the same hash are the same date |
| Calendar.DateTimeHash | HW2/src/DateTime.java:49-64 | the date-time hash has the sign of the year |
| Calendar.DateTimeHashRange | HW2/src/DateTime.java:41-64 | a date-time hash fits in 32 bits and its magnitude is at least the shift, which exceeds every date hash |
| Calendar.DateTimeHashInjective | HW2/src/DateTime.java:41-64 | two valid date-times with the same hash are the same date-time |
| Calendar.DateString | HW2/src/Date.java:66-72 | the definition of `Date.toString`; Calendar.DateStringLayout and Calendar.DateStringInjective state its layout and that it tells dates apart |
| Calendar.DateStringLayout | HW2/src/Date.java:66-72 | DD/MM/YYYY with two-digit day and month and a four-digit year after a '-' when negative |
| Calendar.DateStringInjective | HW2/src/Date.java:66-72 | two valid dates that print the same are the same date |
| Calendar.TimeString | HW2/src/DateTime.java:72-74 | the definition of the time part `DateTime.toString` appends; Calendar.TimeStringLayout states its layout |
| Calendar.TimeStringLayout | HW2/src/DateTime.java:72-74 | " hh:mm" with two-digit hour and minute |
| Calendar.DateTimeStringInjective | HW2/src/DateTime.java:72-74 | two valid date-times that print the same are the same date-time |
| Date.Date.constructor | HW2/src/Date.java:13-17 | the fields are the clamped arguments, so the date is in range |
| Date.Date.SetDay | HW2/src/Date.java:79-85 | the day becomes the clamped value; month and year are unchanged |
| Date.Date.SetMonth | HW2/src/Date.java:92-98 | the month becomes the clamped value; day and year are unchanged |
| Date.Date.SetYear | HW2/src/Date.java:105-111 | the year becomes the clamped value; day and month are unchanged |
| Date.Date.HashCode | HW2/src/Date.java:46-58 | negative iff the year is negative, and bounded |
| Date.Date.Equals | HW2/src/Date.java:27-36 | the definition of `equals`: a date whose hash code, dispatched on its class, and whose fields match; Date.DateEqualsIff states what it means |
| Date.DateEqualsIff | HW2/src/Date.java:27-36 | equal iff the other object is of class `Date` with the same year, month and day |
| Date.DateToStringInjective | HW2/src/Date.java:66-72 | dates that print the same are equal |
| DateTime.DateTime.constructor | HW2/src/DateTime.java:15-19 | a fresh date of the clamped date fields and the clamped hour and minute |
| DateTime.DateTime.SetHour | HW2/src/DateTime.java:81-87 | the hour becomes the clamped value; the minute is unchanged |
| DateTime.DateTime.SetMinute | HW2/src/DateTime.java:94-100 | the minute becomes the clamped value; the hour is unchanged |
| DateTime.DateTime.HashCode | HW2/src/DateTime.java:49-64 | the sign of the year, a 32-bit value, magnitude at least the shift |
| DateTime.DateTime.Equals | HW2/src/DateTime.java:29-38 | the definition of `equals`; DateTime.DateTimeEqualsIff states what it means |
| DateTime.DateTimeEqualsIff | HW2/src/DateTime.java:29-38 | equal iff the other object is of class `DateTime` with the same date, hour and minute |
| DateTime.DateTimeToStringInjective | HW2/src/DateTime.java:72-74 | date-times that print the same are equal |
| DateTime.DateNeverEqualsDateTime | HW2/src/DateTime.java:29-38 | a `Date` and a `DateTime` never equal each other, in either direction |
| Polynomials.PolyDerivative | HW2/src/Polynomial.java:84-94 | the derivative of a constant has one coefficient, otherwise one fewer |
| Polynomials.IntegrateDerivative | HW2/src/Polynomial.java:89-93 | integrating the derivative back with the constant term restores the polynomial, so the derivative loses nothing else |
| Polynomials.DerivativeCoefficients | HW2/src/Polynomial.java:84-94 | the loop computes `[0]` for a constant and i·c[i] at index i−1 otherwise |
| Polynomials.AppendTerm | HW2/src/Polynomial.java:43-71 | one term: the operator, the coefficient text and the power text |
| Polynomials.PolynomialToString | HW2/src/Polynomial.java:32-81 | the loop builds the printed form of the coefficients |
| Polynomials.BodyStep | HW2/src/Polynomial.java:35-75 | each coefficient adds its term if non-zero, and the "first term" flag stays on only while all coefficients so far are 0 |
| Polynomials.PolyBodyAppend | HW2/src/Polynomial.java:39-74 | a further coefficient appends its term, or nothing when it is 0 |
| Polynomials.PolyString | HW2/src/Polynomial.java:32-81 | the definition of `toString`; Polynomials.PolyStringZeroIff and the term lemmas state what it prints |
| Polynomials.PolyStringZeroIff | HW2/src/Polynomial.java:77-80 | "(0)" is printed iff every coefficient is 0 |
| Polynomials.BodyNotZero | HW2/src/Polynomial.java:39-74 | the terms of a polynomial with a non-zero coefficient are neither empty nor "0" |
| Polynomials.BodyOfZeros | HW2/src/Polynomial.java:39-41 | zero coefficients print nothing |
| Polynomials.ConstantString | HW2/src/Polynomial.java:32-81 | a constant prints as its value in parentheses, or as "(0)" |
| Polynomials.MinusOneFirstTerm | HW2/src/Polynomial.java:53-69 | a leading −1·xⁿ (n ≥ 2, all lower coefficients 0) prints as "(x^n)": the coefficient is dropped with its sign |
| Polynomials.FirstTermNotZero | HW2/src/Polynomial.java:53-69 | a first non-zero term is neither empty nor "0" |
| Polynomials.MinusOneLaterTerm | HW2/src/Polynomial.java:44-69 | a later −1·xⁿ (n ≥ 2) appends " - x^n" to the front's terms inside the parentheses |
| Polynomials.LastTermText | HW2/src/Polynomial.java:35-80 | a polynomial ending in a non-zero coefficient prints its front's terms and then that term, in parentheses |
| Expression.Exclude | HW2/src/MultiProduct.java:37-48 | `excludeFunction` returns n−2 operands |
| Expression.ExcludeWellFormed | HW2/src/MultiProduct.java:37-48 | the excluded operands are well formed when all operands are |
| Expression.Derivative | HW2/src/MultiSum.java:15-21 | a derivative of a well-formed function is well formed |
| Expression.OperatorRule | HW2/src/MultiSum.java:15-21 | the derivative of an operator node from its operands' derivatives is well formed |
| Expression.OperatorDerivativeShape | HW2/src/MultiSum.java:15-21 | each operator's derivative is of its declared class; `MultiSum`, `Sum` and `Difference` keep their arity with each operand differentiated in place |
| Expression.MultiProductDerivativeTerms | HW2/src/MultiProduct.java:15-27 | an n-factor product gives n terms; term i starts with fᵢ′ and holds every other factor once |
| Expression.ProductTermFactors | HW2/src/MultiProduct.java:16-25 | each term has n factors: the originals with fᵢ replaced by fᵢ′ |
| Expression.TwoFactorDerivative | HW2/src/MultiProduct.java:16-19 | a two-factor product gives the sum of (f0′·f1) and (f1′·f0) |
| Expression.ProductDerivative | HW2/src/Product.java:14-18 | `Product` gives `Sum(Product(f0′, f1), Product(f1′, f0))` |
| Expression.ProductAgreesWithMultiProduct | HW2/src/Product.java:14-18 | `Product` and a two-factor `MultiProduct` print the same derivative |
| Expression.SumAgreesWithMultiSum | HW2/src/Sum.java:14-16 | `Sum` and a two-operand `MultiSum` print the same derivative |
| Expression.ToString | HW2/src/MultiFunction.java:34-40 | the definition of `toString` for every class; Expression.Parenthesised and Expression.SameOperatorSameString state what it prints |
| Expression.SameOperatorSameString | HW2/src/MultiFunction.java:34-40 | printing depends only on the operator and the operands' texts |
| Expression.QuotientRule | HW2/src/Quotient.java:14-20 | the numerator subtracts the two products the product rule adds, and the denominator is g^2 |
| Expression.PowerDerivative | HW2/src/Power.java:28-33 | exponent 1 gives f′; any other exponent, 0 included, gives `MultiProduct(Constant(n), Power(f, n−1), f′)` |
| Expression.NegationSecondDerivative | HW2/src/Negation.java:25-27 | the second derivative of a negation is the negated second derivative |
| Expression.Parenthesised | HW2/src/Negation.java:20-22 | every printed function, including negations and powers, is wrapped in parentheses |
| MultiFunctions.NewMulti | HW2/src/MultiFunction.java:14-22 | the operands are the first, the second and the rest in argument order, n+2 in all |
| MultiFunctions.OperandStrings | HW2/src/MultiFunction.java:34-38 | the text of each operand, in order |
| MultiFunctions.MultiToString | HW2/src/MultiFunction.java:34-40 | the loop prints "(f0 op f1 … op fn−1)" |
| MultiSums.MultiSumDerivative | HW2/src/MultiSum.java:15-21 | the loop builds the derivative of the sum |
| MultiProducts.ExcludeFunction | HW2/src/MultiProduct.java:37-48 | the loop skips index 0 and the given index and keeps the order |
| MultiProducts.MultiProductDerivative | HW2/src/MultiProduct.java:15-27 | the loop builds the n-ary product rule |
| MultiProducts.LaterTerm | HW2/src/MultiProduct.java:22-25 | the term for factor i ≥ 2 is fᵢ′, then f0, then the others |
| MultiProducts.ProductRuleSum | HW2/src/MultiProduct.java:16-26 | the sum of the n terms is the derivative of the product |
| ArrayStack.NewArrayStack | HW3/src/ArrayStack.java:22-28 | a negative capacity fails with `NegativeCapacity`; otherwise a fresh empty stack of that capacity |
| ArrayStack.ArrayStack.constructor | HW3/src/ArrayStack.java:22-28 | an empty stack over a fresh array of the capacity |
| ArrayStack.ArrayStack.Push | HW3/src/ArrayStack.java:37-42 | full: `StackOverflow` and the whole array unchanged; otherwise the element is the new top and the array changes only in the slot above the old top |
| ArrayStack.ArrayStack.Pop | HW3/src/ArrayStack.java:51-56 | empty: `EmptyStack` and no change; otherwise the top is returned and removed |
| ArrayStack.ArrayStack.Peek | HW3/src/ArrayStack.java:65-70 | empty: `EmptyStack`; otherwise the top, with the stack unchanged |
| ArrayStack.ArrayStack.Size | HW3/src/ArrayStack.java:78-80 | the number of elements, between 0 and the capacity |
| ArrayStack.ArrayStack.IsEmpty | HW3/src/ArrayStack.java:88-90 | true iff the stack has no elements |
| ArrayStack.ArrayStack.Clone | HW3/src/ArrayStack.java:98-110 | a fresh stack on a fresh array with the same capacity and contents |
| ArrayStack.ArrayStack.Iterator | HW3/src/ArrayStack.java:119-121 | the iterator will yield the contents from top to bottom |
| ArrayStack.StackIterator.constructor | HW3/src/ArrayStack.java:128-130 | an iterator that starts at the top |
| ArrayStack.StackIterator.HasNext | HW3/src/ArrayStack.java:133-135 | true iff elements remain |
| ArrayStack.StackIterator.Next | HW3/src/ArrayStack.java:138-140 | the next array slot going down, as the array holds it now, which is then consumed |
| ArrayStack.IteratorAfterPop | HW3/src/ArrayStack.java:51-56 | an iterator taken before a `pop` still yields the popped element, since `pop` leaves the slot in place |
| ArrayStack.Elements | HW3/src/ArrayStack.java:124-141 | iterating to the end yields exactly the contents, top to bottom |
| ArrayStack.Reversed | HW3/src/ArrayStack.java:124-141 | element i of the iteration is element size−1−i of the stack |
| ArrayStack.PushThenPop | HW3/src/ArrayStack.java:37-56 | pushing onto a stack that is not full and then popping returns the element and restores the stack |
| Song.Song.constructor | HW3/src/Song.java:26-31 | the fields are the arguments |
| Song.SongEqualsEquivalence | HW3/src/Song.java:88-94 | song equality, by name and artist only, is an equivalence |
| Song.Song.HashCode | HW3/src/Song.java:102-104 | a 32-bit string hash |
| Song.EqualSongsHashAlike | HW3/src/Song.java:88-104 | equal songs have equal hash codes |
| Song.Song.ToString | HW3/src/Song.java:76-78 | at least the name, the artist and ten characters of separators, genre and duration |
| Song.ToStringLayout | HW3/src/Song.java:76-78 | the layout `name, artist, GENRE, m:ss`: the name and then the artist, each followed by ", ", and at the end ", " and the duration text that Song.DurationTextReadsBack reads back |
| JavaLang.JavaDiv | HW3/src/Song.java:77 | Java division, which truncates toward zero, agrees with floor division on non-negative operands |
| JavaLang.JavaRem | HW3/src/Song.java:77 | Java remainder: a = b·(a/b) + r, with r of the sign of a and smaller than b in magnitude |
| Song.DurationText | HW3/src/Song.java:77 | the definition of the `%d:%02d` duration text; Song.DurationTextReadsBack states that it reads back |
| Song.DurationTextReadsBack | HW3/src/Song.java:77 | "m:ss" reads back: the minutes before the colon, then two digits of seconds, together the duration |
| Song.GenreName | HW3/src/Song.java:9-16 | every genre name has at least three letters |
| Song.Song.SetDuration | HW3/src/Song.java:125-127 | only the duration changes |
| Song.Song.Clone | HW3/src/Song.java:112-118 | a fresh song with the same fields, equal to the original both ways |
| Filter.Filter.constructor | HW3/src/Filter.java:8-12 | no artist, no genre and maximum duration `Integer.MAX_VALUE` |
| Filter.DefaultMatchesEvery | HW3/src/Filter.java:8-12 | the default filter matches every song |
| Filter.Matches | HW3/src/Filter.java:47-51 | the definition of `match`; Filter.DefaultMatchesEvery and Filter.BoundInclusive state what it accepts |
| Filter.BoundInclusive | HW3/src/Filter.java:47-51 | with only a duration bound, a song matches iff its duration is at most the bound |
| Filter.Filter.SetArtist | HW3/src/Filter.java:19-21 | only the artist criterion changes |
| Filter.Filter.SetGenre | HW3/src/Filter.java:28-30 | only the genre criterion changes |
| Filter.Filter.SetDuration | HW3/src/Filter.java:37-39 | only the duration bound changes |
| Filter.Filter.Clone | HW3/src/Filter.java:59-65 | a fresh filter with the same criteria |
| StringOrder.LexLeqTotal | HW3/src/Playlist.java:177-178 | string comparison orders any two strings |
| StringOrder.LexLeqAntisymmetric | HW3/src/Playlist.java:177-178 | strings that compare both ways are equal |
| StringOrder.LexLeqTransitive | HW3/src/Playlist.java:177-178 | string comparison is transitive |
| SongOrder.LeqTotal | HW3/src/Playlist.java:172-184 | each scanning order compares any two songs |
| SongOrder.LeqTransitive | HW3/src/Playlist.java:172-184 | each scanning order is transitive |
| SongOrder.LeqAntisymmetric | HW3/src/Playlist.java:176-183 | NAME and DURATION tie only on songs that are equal |
| SongOrder.SortBy | HW3/src/Playlist.java:176-183 | sorting keeps the multiset of songs |
| SongOrder.SortBySorted | HW3/src/Playlist.java:176-183 | the sort result is sorted |
| SongOrder.SortedUnique | HW3/src/Playlist.java:176-183 | a list without equal songs has one sorted arrangement, so any correct sort gives the same order |
| SongOrder.SortByNoEqual | HW3/src/Playlist.java:176-183 | sorting keeps a list free of equal songs |
| Playlist.IndexOfSong | HW3/src/Playlist.java:25 | the index of the first equal song, or −1 iff there is none |
| Playlist.RemovedAbsent | HW3/src/Playlist.java:37-39 | removal from a list without equal songs leaves no equal song and shrinks the list by one iff one was present |
| Playlist.Selected | HW3/src/Playlist.java:166-170 | filtering never adds songs |
| Playlist.SelectedMembers | HW3/src/Playlist.java:166-170 | the filtered list holds exactly the matching songs, each once |
| Playlist.OrderedMembers | HW3/src/Playlist.java:172-184 | ordering keeps the same songs |
| Playlist.Iteration | HW3/src/Playlist.java:162-195 | iteration yields exactly the matching songs, each once; ADDING keeps insertion order and NAME or DURATION sorts |
| Playlist.FilterSongs | HW3/src/Playlist.java:166-170 | the filter loop keeps the songs the filter matches, in order |
| Playlist.AccumulateSongs | HW3/src/Playlist.java:49-58 | the loop appends "(text), " for each song after "[" |
| Playlist.AccumulatedJoined | HW3/src/Playlist.java:49-60 | the accumulated text is the joined text plus one trailing ", " |
| Playlist.CutSeparator | HW3/src/Playlist.java:55-59 | cutting the last two characters leaves "[" and the joined texts |
| Playlist.PlaylistString | HW3/src/Playlist.java:49-60 | the definition of `toString`; Playlist.AccumulatedJoined, Playlist.CutSeparator and Playlist.PlaylistStringEmptyIff state what it prints |
| Playlist.PlaylistStringEmptyIff | HW3/src/Playlist.java:49-60 | "[]" iff the playlist is empty; otherwise it starts with "[(" |
| Playlist.KeySetMembers | HW3/src/Playlist.java:70-84 | (name, artist) is among the keys iff an equal song is in the list |
| Playlist.KeySetSize | HW3/src/Playlist.java:70-84 | a list without equal songs has one key per song |
| Playlist.ContainsAllSymmetric | HW3/src/Playlist.java:70-84 | for lists without equal songs of one size, containment one way gives it the other way |
| Playlist.Playlist.constructor | HW3/src/Playlist.java:12-16 | empty, with the default filter and order ADDING |
| Playlist.Playlist.AddSong | HW3/src/Playlist.java:24-29 | an equal song present: `SongAlreadyExists` and no change; otherwise the song is appended; the list keeps no equal songs |
| Playlist.Playlist.RemoveSong | HW3/src/Playlist.java:37-39 | true iff an equal song was present; it is removed, and none is left |
| Playlist.Playlist.ToString | HW3/src/Playlist.java:49-60 | "[(s1), (s2), …]" of the songs' texts |
| Playlist.Playlist.Equals | HW3/src/Playlist.java:70-84 | true iff the other playlist has as many songs and contains each of these; filter and order are ignored |
| Playlist.Playlist.FilterArtist | HW3/src/Playlist.java:122-124 | only the filter's artist changes |
| Playlist.Playlist.FilterGenre | HW3/src/Playlist.java:127-129 | only the filter's genre changes |
| Playlist.Playlist.FilterDuration | HW3/src/Playlist.java:132-134 | only the filter's duration bound changes |
| Playlist.Playlist.SetScanningOrder | HW3/src/Playlist.java:137-139 | only the order changes |
| Playlist.Playlist.Iterator | HW3/src/Playlist.java:148-150 | the iterator will yield the matching songs in the scanning order |
| Playlist.PlaylistIterator.constructor | HW3/src/Playlist.java:162-185 | the iterator holds the filtered list in the scanning order |
| Playlist.PlaylistIterator.HasNext | HW3/src/Playlist.java:188-190 | true iff songs remain |
| Playlist.PlaylistIterator.Next | HW3/src/Playlist.java:193-195 | the next song, which is then consumed |
| BinTree.Height | HW4/src/LevelLargestSum.java:25-47 | a non-empty tree has at least one level |
| PathFromRoot.PathEdgeCases | HW4/src/PathFromRoot.java:10-26 | "" is always found, a non-empty string never in the empty tree nor after a wrong first character |
| PathFromRoot.DoesPathExist | HW4/src/PathFromRoot.java:10-26 | the definition of `doesPathExist`; PathFromRoot.DoesPathExistIff states what it finds, in both directions |
| PathFromRoot.DoesPathExistIff | HW4/src/PathFromRoot.java:10-26 | true iff some downward path from the root, not necessarily to a leaf, spells the string |
| PathFromRoot.FoundIsSpelled | HW4/src/PathFromRoot.java:20-22 | a found string is spelled by a path |
| PathFromRoot.SpelledIsFound | HW4/src/PathFromRoot.java:20-22 | a string spelled by a path is found |
| PathFromRoot.Walk | HW4/src/PathFromRoot.java:20-22 | a walk of k turns spells at most k+1 characters |
| PathFromRoot.PrefixHasPath | HW4/src/PathFromRoot.java:10-26 | when a string has a path, so does every prefix of it |
| LevelLargestSum.LevelNodes | HW4/src/LevelLargestSum.java:25-46 | the queue holds only real nodes |
| LevelLargestSum.NextLevel | HW4/src/LevelLargestSum.java:30-35 | enqueuing children, left before right, of level d gives level d+1 |
| LevelLargestSum.LevelSumOfNodes | HW4/src/LevelLargestSum.java:26-36 | summing the queue gives the level's sum |
| LevelLargestSum.LevelEmptyIff | HW4/src/LevelLargestSum.java:25 | a level is empty iff it is at or below the height |
| LevelLargestSum.SumLevel | HW4/src/LevelLargestSum.java:26-36 | the inner loop sums the level and enqueues the next one |
| LevelLargestSum.GetLevelWithLargestSum | HW4/src/LevelLargestSum.java:12-49 | −1 for the empty tree; otherwise a level below the height whose sum is at least every level's and above every shallower level's |
| Database.TryRead | HW4/src/Database.java:60-71 | granted iff fewer than the maximum read and nobody writes; then the caller reads; otherwise no change |
| Database.TryWrite | HW4/src/Database.java:138-149 | granted iff nobody reads or writes; then the caller alone writes; otherwise no change |
| Database.ReleaseRead | HW4/src/Database.java:97-112 | fails iff the caller does not read; otherwise exactly the caller stops reading |
| Database.ReleaseWrite | HW4/src/Database.java:156-168 | fails iff the caller is not the writer; otherwise nobody writes |
| Database.TryReadSafe | HW4/src/Database.java:63-66 | a read attempt keeps the two invariants |
| Database.TryWriteSafe | HW4/src/Database.java:141-144 | a write attempt keeps the two invariants |
| Database.ReleaseReadSafe | HW4/src/Database.java:101-104 | a read release keeps the two invariants |
| Database.ReleaseWriteSafe | HW4/src/Database.java:159-162 | a write release keeps the two invariants |
| Database.WriterExcludes | HW4/src/Database.java:63 | while someone writes, no read is granted |
| Database.NoReadersAllowed | HW4/src/Database.java:63 | with a maximum of 0 or less, no read is ever granted |
| Database.ReadReentry | HW4/src/Database.java:63-66 | a reader asking again leaves the state as it was, granted iff a slot is free |
| Database.ReadThenRelease | HW4/src/Database.java:60-112 | a granted read by a new reader, then its release, restores the state |
| Database.WriteThenRelease | HW4/src/Database.java:138-168 | a granted write, then its release, restores the state |
| Database.Database.constructor | HW4/src/Database.java:27-35 | empty data, nobody reading or writing, the given maximum |
| Database.Database.Put | HW4/src/Database.java:42-44 | the key maps to the value; other keys and the permissions are unchanged |
| Database.Database.Get | HW4/src/Database.java:51-53 | the stored value, or none |
| Database.Database.ReadTryAcquire | HW4/src/Database.java:60-71 | the result and the new permissions are those of a read attempt |
| Database.Database.ReadAcquire | HW4/src/Database.java:78-90 | once a slot is free and nobody writes, the caller reads |
| Database.Database.ReadRelease | HW4/src/Database.java:97-112 | the outcome and the new permissions are those of a read release |
| Database.Database.WriteAcquire | HW4/src/Database.java:119-131 | once nobody reads or writes, the caller writes |
| Database.Database.WriteTryAcquire | HW4/src/Database.java:138-149 | the result and the new permissions are those of a write attempt |
| Database.Database.WriteRelease | HW4/src/Database.java:156-168 | the outcome and the new permissions are those of a write release |
| Database.PutThenGet | HW4/src/Database.java:42-53 | after a put, get returns the value and other keys keep theirs |

## Left out

- Console and file I/O and randomness in the Battleship game are not modelled. This covers reading the board size, ship sizes and locations, the retry loops, `printBoard`, `battleshipGame` and `main`.
- `parseInput` is not modelled, because it wraps a regular-expression split. `countDigits` is not modelled, because it only serves printing.
- Floating point is not modelled: `Function.java` (bisection, Newton–Raphson, Taylor series), every `valueAt` and `operateOn`, and `TwoFunction.java`, whose only behaviour is `double` arithmetic.
- Polynomials.PolynomialToString: coefficients are integers printed in decimal. The code prints a coefficient in `double` form when it differs from its `(int)` cast. That happens for a non-integer value, and for an integral value outside the 32-bit range such as 3000000000, which prints as "3.0E9". Neither case is modelled.
- Expression.Derivative: a polynomial must have a coefficient, because the empty one makes `derivative` allocate an array of length −1.
- Concurrency in `Database` is not modelled: the lock, the conditions, `await`, the signalling policy, the swallowed `InterruptedException`, and liveness/starvation. `Thread.currentThread()` becomes a caller parameter.
- Database.Database.ReadAcquire: requires the wait condition. It models only the state on a normal return from the wait.
- Database.Database.WriteAcquire: requires the wait condition, as ReadAcquire does.
- Battleship.CountSunkShips: requires every ship tile to lie on the board, where the code only needs the tiles it reads to be in bounds.
- Battleship.GetLocationError, Battleship.IsRadiusOccupied and Battleship.IsAttackValid return normally on a board with no rows. The code reads `board[0].length` and throws there. The game never builds such a board.
- Battleship.ParseShips: requires non-negative counts, and an even length or a last count of 0. A negative count makes the code either allocate a negative size or write more ships than it allocated, and a positive last count with no size after it makes the code read past the array.
- Battleship.CountShips: requires the same input as ParseShips, whose first loop it is.
- Board.Board.FromString: requires parsable, rectangular input. A string that does not parse, or a row longer than the first, makes the code throw; a row shorter than the first leaves its last cells unset and the code returns normally.
- Board.Board.HashCode: `Arrays.deepHashCode` is modelled with 32-bit wrap-around. Only "equal boards hash alike" is stated about it.
- Song.Song.HashCode: `String.hashCode` is modelled. Only "equal songs hash alike" is stated about it.
- ArrayStack.ArrayStack.Clone copies the element values. It does not model the reflective `clone` call on each element.
- ArrayStack.StackIterator.Next: requires an element to remain. The code would throw past the end.
- Playlist.PlaylistIterator.Next: requires a song to remain. Past the end, the code's `ArrayList.get` throws `IndexOutOfBoundsException`, after `index` has already been incremented.
- Strings are sequences of Unicode code points, not of UTF-16 code units. `String.compareTo`, `charAt` and `String.hashCode` agree with Java on text inside the Basic Multilingual Plane only, and a `Character` that is half of a surrogate pair cannot be stored. Lower-casing of the direction names assumes a locale without special case rules, such as the Turkish dotless i.
- SongOrder.SortBy: the library's stable sort is modelled as an insertion sort. SortedUnique shows that every correct sort gives the same order on a playlist.
- The `hashCode` and `clone` of `Playlist` are not modelled.
- LevelLargestSum.GetLevelWithLargestSum: level sums and Battleship counters are unbounded integers, so 32-bit overflow of a sum is not modelled.
- `Integer.parseInt` in the board string is modelled without its 32-bit range check, and on ASCII digits only: the other Unicode decimal digits Java also accepts are read as a parse failure.
- Declarations without logic become datatypes: `Direction`, `ScanningOrder`, `Song.Genre`, the exception classes, and the iterable interfaces.
- The static `rows`, `columns` and `goalPositions` of `Board` are the array dimensions and a parameter, not shared static fields.
