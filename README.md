# Battleships puzzle: a verified model of the puzzle and its step solver

This project models the core of a Battleships (Bimaru) puzzle program in Dafny. The puzzle is a
grid of `num_cols` x `num_rows` cells, a fleet of ship lengths, and the number of occupied cells
each column and row must hold. The model covers:

- the nine cell states and their one-character symbols (`CellStates`, `cell_state.dfy`);
- the dense cell store `CellGrid`, a class over a two-dimensional array (`Grids`, `cell_grid.dfy`);
- the neighbourhood and ship-geometry list builders of `Puzzle` (`Geometry`, `geometry.dfy`);
- how `Puzzle.__init__` turns ship placements into a solution grid: the collision check on the
  ship's bounding box, the cell-by-cell writes, the water fill and the derived line sums
  (`Solutions`, `solution.dfy`);
- the constructor's argument checks, the `Puzzle` class and `set_cell` (`Puzzles`, `puzzle.dfy`);
- the read-only queries `is_valid`, `is_incorrect`, `is_solved`, `is_cell_known`, the guard of
  `set_cell` and `can_place_ship` (`PuzzleQueries`, `puzzle_queries.dfy`);
- the seven inference rules of the solver and the order `solve_step` tries them in (`Rules`,
  `rules.dfy`);
- the `Solver` class with its ship-length bookkeeping, `calculate_ship_possibles`, `solve_step`
  and `do_step` (`Solvers`, `solver.dfy`);
- the depth-first search of `generate_solved_puzzles` as a `PuzzleGenerator` class
  (`Generation`, `generator.dfy`).

`seqs.dfy` (`Seqs`) holds sequence helpers: ranges, products, `any`, counting. `wrappers.dfy`
(`Wrappers`) holds `Option`, `Result`, `Outcome` and the error kinds the source raises as
`ValueError`/`IndexError`.

The grid contents are a value `Board = seq<seq<CellState>>`, indexed `b[c][r]` like the source's
`(c, r)` keys. The queries and rules read a `PuzzleView` snapshot of a puzzle. The stateful parts
are classes whose methods are proved against those functions:

- `CellGrid.Set`, `Puzzle.SetCell` and `Solver.DoStep` change the grid in place;
- `PuzzleGenerator` adds and removes cells of a shared occupied set while it searches.

Exceptions the source raises become `Result`/`Outcome` values that carry the error kind. Every
lemma carries `{:induction false}`, so each induction in the project is written out by hand.

Where the description of the program and its code differ, the model follows the code:

- The middle-cell loop of the solution builder runs over `range(start + 1, end - 1)`. The cell
  just before the far end of a ship of three or more cells is therefore never written as
  `OccupiedMid`, and the water fill makes it `Water` (`Solutions.DerivedLongShip`).
- As a result, a known grid that marks that cell occupied is rejected. So is a known grid with
  any `OccupiedUnknown` cell (`Puzzles.KnownOccupiedUnknownRejected`).
- The forced-ship rule proposes `OccupiedUnknown` for every cell of the ship, including cells
  already refined to an end, a middle or a whole ship.

## Model

| member | source | states |
|---|---|---|
| CellStates.Classification | puzzle.py:18-38 | every state is exactly one of unknown, water and occupied; whole, mid and end are occupied and mutually exclusive |
| CellStates.FindSymbol | puzzle.py:47-52 | the search over the members finds a member with the symbol, or reports that no member has it |
| CellStates.MembersComplete | puzzle.py:7-16 | the member list searched by `from_symbol` contains every state |
| CellStates.SymbolInjective | puzzle.py:7-16 | distinct states have distinct symbols |
| CellStates.SymbolRoundTrip | puzzle.py:43-52 | decoding the symbol of any state gives that state back |
| CellStates.FromSymbolInverse | puzzle.py:47-52 | a character decodes to a state only if it is that state's symbol, and to nothing exactly when it is no state's symbol |
| CellStates.UnrecognisedSymbol | puzzle.py:47-52 | a character outside the nine symbols decodes to nothing |
| CellStates.IsUnknown | puzzle.py:18-19 | `is_unknown`; `CellStates.Classification` states how the classes relate |
| CellStates.IsWater | puzzle.py:21-22 | `is_water`; `CellStates.Classification` states that no water cell is unknown or occupied |
| CellStates.IsOccupied | puzzle.py:24-26 | `is_occupied`; `CellStates.Classification` states that whole, mid and end cells are occupied and that occupied excludes unknown and water |
| CellStates.IsMid | puzzle.py:28-29 | `is_mid`; `CellStates.Classification` states that it excludes whole and end |
| CellStates.IsWhole | puzzle.py:31-32 | `is_whole`; `CellStates.Classification` states that it excludes mid and end |
| CellStates.IsEnd | puzzle.py:34-38 | `is_end`; `CellStates.Classification` states that it excludes whole and mid |
| CellStates.Symbol | puzzle.py:43-45 | `symbol`; `CellStates.SymbolInjective` states that distinct states have distinct symbols |
| CellStates.FromSymbol | puzzle.py:47-52 | `from_symbol`; `CellStates.SymbolRoundTrip` and `CellStates.FromSymbolInverse` state that it inverts `CellStates.Symbol` and gives nothing for any other character |
| Grids.CheckInRange | puzzle.py:84-88 | passes exactly for in-grid cells; the row is checked before the column, so the error names the row whenever the row is out of range |
| Grids.Blank | puzzle.py:60-69 | a fresh grid has the requested shape with every cell `Unknown` |
| Grids.SetAt | puzzle.py:75-82 | the board with one cell replaced: same shape, that cell holds the new state, every other cell is unchanged |
| Grids.GridSet | puzzle.py:75-82 | `set` raises exactly for cells out of range, with the range error; it returns false, changing nothing, exactly when an expected state is given and differs; otherwise it writes that one cell only |
| Grids.BoardsEqual | puzzle.py:55-69 | two boards of the same shape that agree on every cell are equal |
| Grids.CellGrid.constructor | puzzle.py:60-69 | a new grid has the given dimensions, a fresh array and every cell `Unknown` |
| Grids.CellGrid.Copy | puzzle.py:142-150 | a deep copy: a fresh array holding exactly the given board |
| Grids.CellGrid.Create | puzzle.py:60-69 | fails with the dimension error exactly when a dimension is below one; otherwise a fresh blank grid |
| Grids.CellGrid.Board | puzzle.py:71-73 | the array read as a board: same shape, the same state at every cell |
| Grids.CellGrid.Get | puzzle.py:71-73 | succeeds exactly for in-grid cells, with the cell's state; otherwise the range error `_check_in_range` gives |
| Grids.CellGrid.Set | puzzle.py:75-82 | the result and the new array are those of `Grids.GridSet` on the old contents |
| Geometry.RectangleCells | puzzle.py:519-537 | the product of two ranges holds exactly the cells of that rectangle |
| Geometry.AllCells | solver.py:225-226 | the nested column and row scans visit exactly the in-grid cells |
| Geometry.ColumnMajor | solver.py:225-226 | the scan order is strictly column-major, so each cell is visited once |
| Geometry.NeighbourCells | puzzle.py:437-446 | exactly the in-grid cells within one step of the cell, diagonals and the cell itself included |
| Geometry.NondiagonalNeighbourCells | puzzle.py:448-454 | at most four cells: exactly the in-grid cells to the right, left, below and above |
| Geometry.NondiagonalNeighbourList | puzzle.py:448-454 | the list holds exactly the in-grid orthogonal neighbours |
| Geometry.DiagonalNeighbourCells | puzzle.py:456-462 | at most four cells: exactly the in-grid diagonal neighbours |
| Geometry.StripOutOfBoundCells | puzzle.py:539-543 | keeps exactly the listed cells that are in the grid, and never lengthens the list |
| Geometry.ShipCells | puzzle.py:464-475 | raises exactly when the ship runs past the last column (row-aligned) or the last row (column-aligned); otherwise the cells from the start along the axis, exactly the ship's cells |
| Geometry.ShipAllCells | puzzle.py:519-537 | exactly the in-grid cells of the ship's bounding box: the ship and the ring around it |
| Geometry.ShipBoxBounds | puzzle.py:519-537 | the clipped min/max bounds computed by `get_ship_all_cells` enclose exactly the in-grid bounding-box cells |
| Geometry.RowShipNeighbours | puzzle.py:494-505 | for a row-aligned ship: the rows above and below, one column wider at each side, and the cells before and after, each clipped |
| Geometry.ColShipNeighbours | puzzle.py:506-517 | for a column-aligned ship: the columns to the left and right, one row longer at each end, and the cells above and below, each clipped |
| Geometry.RowNeighbourExact | puzzle.py:494-505 | a row-aligned ship's neighbour cells are exactly its in-grid box cells that are not on the ship |
| Geometry.ColNeighbourExact | puzzle.py:506-517 | a column-aligned ship's neighbour cells are exactly its in-grid box cells that are not on the ship |
| Geometry.ShipNeighbourCellsExact | puzzle.py:477-517 | for a ship inside the grid, its neighbour cells are exactly the in-grid bounding-box cells that are not on the ship |
| Geometry.ShipNeighbourCells | puzzle.py:477-517 | `get_ship_neighbour_cells`; `Geometry.ShipNeighbourCellsExact` states which cells it lists |
| Geometry.ShipAllCellsSplit | puzzle.py:519-537 | the bounding box is the union of the ship's cells and its neighbour cells |
| Solutions.ShipWrites | puzzle.py:209-226 | one write for a ship of one or two cells per cell, and one write fewer than the length for longer ships |
| Solutions.MidWrites | puzzle.py:216-217 | one `OccupiedMid` write per index of the range, in order, along the ship's axis |
| Solutions.ShipWritesOrder | puzzle.py:209-226 | the first write is the whole cell or the start end, the last the far end, and those between are middle cells in order |
| Solutions.StateAt | puzzle.py:209-226 | every state a ship write gives is occupied and refined, never `OccupiedUnknown` |
| Solutions.ShipWriteAt | puzzle.py:209-226 | the k-th write targets a ship cell other than the skipped one, with that cell's state |
| Solutions.ShipWriteCovers | puzzle.py:209-226 | every ship cell except the skipped one is written, with its state |
| Solutions.ShipWritesDistinct | puzzle.py:209-226 | no cell is written twice by one ship |
| Solutions.LastWrite | puzzle.py:75-82 | nothing exactly when no write targets the cell; otherwise the state of some write to that cell |
| Solutions.LastWriteUnique | puzzle.py:75-82 | when no cell is written twice, the last write to a cell is its only write |
| Solutions.LastWriteShip | puzzle.py:209-226 | one ship's writes leave each cell in its ship state: end, middle or whole, and nothing on the skipped or off-ship cells |
| Solutions.ApplyWrites | puzzle.py:75-88 | a sequence of `set` calls succeeds exactly when every target is in the grid |
| Solutions.ApplyWritesContents | puzzle.py:75-82 | after the writes, a cell holds the state of the last write to it, or its old state |
| Solutions.ApplyWritesError | puzzle.py:84-88 | a failed sequence reports the range error of its first out-of-grid write |
| Solutions.Collision | puzzle.py:199-207 | an occupied cell of the clipped bounding box, or nothing when no cell of the box is occupied; `Solutions.PlaceShipCollides` states that the scan stops at the first one |
| Solutions.PlaceShip | puzzle.py:199-226 | one pass of the ship loop: an accepted ship leaves a grid of the same shape; `Solutions.PlaceShipCollides`, `Solutions.PlaceShipGuard` and `Solutions.PlaceShipCell` state when it is rejected and what it writes |
| Solutions.PlaceShipCollides | puzzle.py:199-207 | the box scan rejects the ship at the first occupied cell, naming that cell |
| Solutions.PlaceShipClear | puzzle.py:199-226 | with an empty box the ship's writes go ahead unchanged |
| Solutions.PlaceShipAccepts | puzzle.py:199-226 | a ship that fits in the grid, with no occupied cell in its clipped box, is accepted |
| Solutions.PlaceShipGuard | puzzle.py:199-226 | an accepted ship fits in the grid and its whole clipped box was empty; a collision names an occupied cell of the box |
| Solutions.PlaceShipCell | puzzle.py:209-226 | an accepted ship leaves each cell it writes in that cell's ship state and every other cell as it was |
| Solutions.FillWater | puzzle.py:228-231 | every `Unknown` cell becomes `Water`; every other cell keeps its state |
| Solutions.ColSumsOf | puzzle.py:234-241 | one count per column: its occupied solution cells |
| Solutions.RowSumsOf | puzzle.py:234-241 | one count per row: its occupied solution cells |
| Solutions.PlaceShips | puzzle.py:197-226 | the ship loop: a grid of the same shape when every ship is accepted; `Solutions.PlaceShipsContents` and `Solutions.PlaceShipsApart` state what it holds |
| Solutions.PlaceShipsContents | puzzle.py:197-226 | after the ship loop, a cell holds the state the last ship writing it gave it, else its old state |
| Solutions.ShipsWriteRefined | puzzle.py:209-226 | no ship writes `OccupiedUnknown`, and all ship writes are occupied states |
| Solutions.ShipsWriteOff | puzzle.py:197-226 | no ship writes a cell that lies on no ship |
| Solutions.ShipsWriteSole | puzzle.py:197-226 | when only one ship lies on a cell, the fleet writes the cell exactly as that ship does |
| Solutions.BoxSymmetric | puzzle.py:199-207 | if a cell of one ship lies in another's box, some cell of the other lies in the first one's box |
| Solutions.GapFlanked | puzzle.py:211-226 | a box that holds the unwritten cell holds a written neighbour of it along the ship |
| Solutions.BoxMeetsWrites | puzzle.py:199-226 | a box that holds any cell of a ship holds a cell that the ship writes |
| Solutions.PlaceShipStep | puzzle.py:199-226 | placing a ship keeps occupied cells occupied and makes every cell it writes occupied |
| Solutions.FirstShipOutside | puzzle.py:199-207 | once a later ship's box is empty on the grid holding the first ship, no cell of the first ship lies in that box |
| Solutions.TailFacts | puzzle.py:197-226 | fitting and box-clearance facts about the fleet's tail carry over to the whole fleet's later ships |
| Solutions.PlaceShipsApart | puzzle.py:197-226 | an accepted fleet fits in the grid, no ship cell lies in a later ship's box, and every box was empty on the starting grid |
| Solutions.BoxesStayEmpty | puzzle.py:197-226 | after the first ship of a fleet that lies apart is placed, the other ships' boxes are still empty |
| Solutions.PlaceShipsAccepts | puzzle.py:197-226 | a fleet that fits and lies apart, on a grid where every box is empty, is accepted ship after ship |
| Solutions.Derive | puzzle.py:195-231 | the solution built from the ships: a grid of the puzzle's shape when every ship is accepted; `Solutions.DeriveSucceedsIff` states that it accepts exactly the fleets that fit and lie apart, and `Solutions.DeriveCell` and `Solutions.DerivedSolutionSettled` state what it holds |
| Solutions.DeriveApart | puzzle.py:195-231 | a derived solution's ships all fit and none overlaps or touches another, not even at a corner |
| Solutions.DeriveAccepts | puzzle.py:195-231 | every fleet of positive lengths whose ships fit and neither overlap nor touch is accepted |
| Solutions.DeriveSucceedsIff | puzzle.py:195-231 | the derivation succeeds exactly when the ships all fit and none overlaps or touches another |
| Solutions.DeriveCell | puzzle.py:195-231 | a derived cell holds the last ship state written to it, or `Water` |
| Solutions.DerivedShipCell | puzzle.py:195-231 | a cell of ship i holds that ship's state for it, and the skipped cell is `Water` |
| Solutions.DerivedOpenCell | puzzle.py:228-231 | a cell on no ship is `Water` in the derived solution |
| Solutions.DerivedWholeShip | puzzle.py:209-210 | a ship of length one is a single `OccupiedWhole` cell |
| Solutions.DerivedLongShip | puzzle.py:211-226 | a ship of three or more cells has its two end states, and its second-to-last cell is `Water` as written |
| Solutions.SolvedView | puzzle.py:234-241 | a view with the sums counted off a solution and that solution as the current grid is well formed |
| Solutions.SolvedViewValid | puzzle.py:318-342 | such a view meets every line's targets |
| Solutions.DerivedSolutionSettled | puzzle.py:228-231 | the derived solution leaves no cell `Unknown` or `OccupiedUnknown` |
| Solutions.DerivedSolutionSolves | puzzle.py:362-374 | filling in the derived solution solves the puzzle: valid, not incorrect, every cell settled |
| Puzzles.Validate | puzzle.py:138-183 | passes exactly for acceptable arguments; each error implies its own condition, and the dimension error occurs exactly when a dimension is below one |
| Puzzles.Construct | puzzle.py:106-257 | a built puzzle had acceptable arguments, keeps the dimensions and fleet, copies the known grid (or a blank one) and the current grid (or the known one), and has a solution exactly when ships were given |
| Puzzles.ConstructWithoutShips | puzzle.py:138-183 | without ships the puzzle is built exactly when the arguments are acceptable, keeps the sums given and has no solution |
| Puzzles.ConstructWithShips | puzzle.py:195-252 | with ships the puzzle is built exactly when the arguments are acceptable, the solution derives and the known grid matches it; the ships then lie apart, the sums are counted off the solution, and filling it in solves the puzzle |
| Puzzles.KnownOccupiedUnknownRejected | puzzle.py:245-252 | a known `OccupiedUnknown` cell never matches a derived solution, so such a puzzle with ships is always rejected |
| Puzzles.Snapshot | puzzle.py:55-69 | a given `CellGrid` read as its dimensions and contents |
| Puzzles.ApplyWritesFailureStays | puzzle.py:199-226 | once a prefix of the writes fails, the whole sequence fails with the same error |
| Puzzles.ApplyWritesOn | puzzle.py:209-226 | the `set` calls on a grid object pass or fail, and leave the array, as `Solutions.ApplyWrites` says |
| Puzzles.FirstOccupiedOn | puzzle.py:199-207 | the index of the first occupied listed cell, or the list's length when none is occupied |
| Puzzles.PlaceShipOn | puzzle.py:199-226 | one pass of the ship loop on a grid object matches `Solutions.PlaceShip` |
| Puzzles.PlaceFleetOn | puzzle.py:197-226 | the ship loop on a grid object matches `Solutions.PlaceShips` |
| Puzzles.FillWaterOn | puzzle.py:228-231 | the compare-and-set fill on a grid object leaves `Solutions.FillWater` of its old contents |
| Puzzles.DeriveOn | puzzle.py:195-231 | the solution grid built on a fresh `CellGrid` equals `Solutions.Derive` |
| Puzzles.KnownMatches | puzzle.py:245-252 | the agreement scan: every cell the known grid does not leave `Unknown` equals the solution's; `Puzzles.KnownMatchesOn` states the scan accepts exactly then |
| Puzzles.KnownMatchesOn | puzzle.py:245-252 | the scan accepts exactly when every known non-`Unknown` cell equals the solution's |
| Puzzles.Build | puzzle.py:106-257 | the constructor's body equals `Puzzles.Construct` and keeps only positive ship lengths |
| Puzzles.Puzzle.View | puzzle.py:259-299 | the puzzle's fields and current grid read as a well-formed view |
| Puzzles.Puzzle.constructor | puzzle.py:187-257 | the fields hold the accepted view, with a fresh copy of the current grid |
| Puzzles.Puzzle.New | puzzle.py:106-257 | `Puzzle(...)` succeeds or fails, with the same error, exactly as `Puzzles.Construct` on its arguments' contents; on success the puzzle shows that view |
| Puzzles.Puzzle.SetCell | puzzle.py:376-392 | the outcome is the `set_cell` guard on the puzzle before the call; a pass writes only that cell, and a rejection changes nothing |
| PuzzleQueries.ColCells | puzzle.py:419-423 | a column's current states, top to bottom |
| PuzzleQueries.RowCells | puzzle.py:413-417 | a row's current states, left to right |
| PuzzleQueries.CellAt | puzzle.py:292-299 | `get_cell`: the current state of an in-grid cell, read from the current grid without changing it |
| PuzzleQueries.RowOccupiedSum | puzzle.py:413-417 | `get_row_occupied_sum`; `PuzzleQueries.RowCounts` states its bounds and when it is zero or full |
| PuzzleQueries.ColOccupiedSum | puzzle.py:419-423 | `get_col_occupied_sum`; `PuzzleQueries.ColCounts` states its bounds and when it is zero or full |
| PuzzleQueries.RowWaterSum | puzzle.py:425-429 | `get_row_water_sum`; `PuzzleQueries.RowCounts` states its bounds and when it is zero or full |
| PuzzleQueries.ColWaterSum | puzzle.py:431-435 | `get_col_water_sum`; `PuzzleQueries.ColCounts` states its bounds and when it is zero or full |
| PuzzleQueries.ColCounts | puzzle.py:419-435 | a column's occupied and water counts add up to at most its length; each is zero, or full, exactly when no cell, or every cell, has that kind |
| PuzzleQueries.RowCounts | puzzle.py:413-429 | a row's occupied and water counts add up to at most its length; each is zero, or full, exactly when no cell, or every cell, has that kind |
| PuzzleQueries.RowOver | puzzle.py:324-326 | the test holds exactly for rows whose occupied count exceeds the target |
| PuzzleQueries.ColOver | puzzle.py:328-331 | the test holds exactly for columns whose occupied count exceeds the target |
| PuzzleQueries.RowWater | puzzle.py:333-336 | the test holds exactly for rows with more water than cells left over by the target |
| PuzzleQueries.ColWater | puzzle.py:338-341 | the test holds exactly for columns with more water than cells left over by the target |
| PuzzleQueries.RowsWithinTargets | puzzle.py:318-342 | the two row scans find nothing exactly when every row is within its targets |
| PuzzleQueries.ColsWithinTargets | puzzle.py:318-342 | the two column scans find nothing exactly when every column is within its targets |
| PuzzleQueries.IsValid | puzzle.py:318-342 | valid exactly when every row and every column is within its occupied and water targets |
| PuzzleQueries.AnyCell | puzzle.py:344-360 | a scan of all cells finds one passing the test exactly when some in-grid cell passes it |
| PuzzleQueries.IsIncorrect | puzzle.py:344-360 | never incorrect without a solution; with one, incorrect exactly when some current cell is occupied over a non-occupied solution cell or water over a non-water one |
| PuzzleQueries.IsSolved | puzzle.py:362-374 | solved exactly when valid, not incorrect and no cell is `Unknown` or `OccupiedUnknown` |
| PuzzleQueries.IsCellKnown | puzzle.py:310-316 | fails exactly out of range; otherwise true exactly when the known grid's cell is not `Unknown` |
| PuzzleQueries.SetCellGuard | puzzle.py:376-392 | passes exactly for in-grid cells known as `Unknown`, or known as `OccupiedUnknown` and set to an occupied state; each rejection carries its error |
| PuzzleQueries.SetCellKeepsAgreement | puzzle.py:100-103 | a write the guard passes keeps the current grid in agreement with the known one |
| PuzzleQueries.WaterTest | puzzle.py:565-567 | the test holds exactly for water cells |
| PuzzleQueries.OccupiedTest | puzzle.py:569-575 | the test holds exactly for occupied cells |
| PuzzleQueries.ShipDryScan | puzzle.py:565-567 | the scan for water over the ship's cells finds none exactly when no ship cell is water |
| PuzzleQueries.WetCellScanned | puzzle.py:565-567 | a ship with a water cell is found by the scan |
| PuzzleQueries.ShipClearScan | puzzle.py:569-575 | the scan of the neighbour cells finds no occupied cell exactly when none around the ship is occupied |
| PuzzleQueries.CanPlaceShip | puzzle.py:545-577 | `can_place_ship`; `PuzzleQueries.CanPlaceShipIff` states exactly when it accepts |
| PuzzleQueries.CanPlaceShipIff | puzzle.py:545-577 | a ship can be placed exactly when it fits, its line's target is at least its length, none of its cells is water and no cell around it is occupied |
| Rules.Fill | solver.py:124-126 | one assignment per listed cell, in order, each of the given state, and nothing else |
| Rules.UnknownTest | solver.py:118-120 | the test holds exactly for `Unknown` cells |
| Rules.UnknownAmong | solver.py:118-120 | exactly the listed cells that are `Unknown`, and no more cells than were listed |
| Rules.Lines | solver.py:118-138 | the scan order: every column left to right, then every row top to bottom |
| Rules.LineCells | solver.py:118-130 | exactly the cells of the line; a column's cells by row and a row's cells by column, from zero upward |
| Rules.UnknownCells | solver.py:118-130 | exactly the line's `Unknown` cells |
| Rules.LineOccupied | solver.py:122-133 | `get_col_occupied_sum` / `get_row_occupied_sum` for either kind of line; `PuzzleQueries.ColCounts` and `PuzzleQueries.RowCounts` state its bounds |
| Rules.LineSum | solver.py:122-133 | `get_col_sum` / `get_row_sum` for either kind of line: the line's target count |
| Rules.Qualifies | solver.py:119-137 | the per-line test: the line has an unknown cell and its occupied count (plus its unknowns, for the second rule) equals its target; `Rules.LineWorkIff` states that work is proposed exactly then |
| Rules.LineWork | solver.py:119-137 | the list built for one line; `Rules.LineWorkIff` states it is non-empty exactly when the line qualifies and is then the rule's state on exactly the line's `Unknown` cells |
| Rules.LineWorkIff | solver.py:102-187 | a line's work is non-empty exactly when it qualifies, and is then the rule's state on exactly its `Unknown` cells |
| Rules.LineScanFindsNone | solver.py:118-139 | a line scan that finds nothing rules out every column and every row |
| Rules.LineScanFindsFirst | solver.py:118-138 | the line scan's first hit comes after every line it passed over |
| Rules.FirstLineWhere | solver.py:118-139 | the first line passing the test in scan order, or none |
| Rules.FirstLineFirst | solver.py:102-187 | the chosen line qualifies and no earlier column or row does; none is chosen exactly when no line qualifies |
| Rules.LineRule | solver.py:102-187 | the line rules; `Rules.LineRuleNone`, `Rules.LineScanFindsFirst`, `Rules.LineWorkIff` and `Rules.LineRuleOpen` state what they propose |
| Rules.LineRuleNone | solver.py:102-187 | a line rule proposes nothing exactly when no line qualifies |
| Rules.ScanFindsNone | solver.py:225-269 | a cell scan that finds nothing rules out every in-grid cell |
| Rules.ScanFindsFirst | solver.py:225-269 | the cell scan's first hit has no other hit before it in column-major order |
| Rules.FirstCellWhere | solver.py:225-269 | the first in-grid cell in column-major order passing the test, or none |
| Rules.StatesAt | solver.py:233-248 | the current states of the listed cells, in order |
| Rules.RefineAmong | solver.py:230-269 | a refinement given is occupied and refined |
| Rules.EndAmong | solver.py:250-269 | finds an end state or nothing, trying the left, upper, right and lower neighbours in turn; `Rules.EndAmongOnly` states that, with a single occupied neighbour, the end faces away from it |
| Rules.NeighbourScans | solver.py:233-248 | over the neighbour list, the water count is full exactly when every in-grid orthogonal neighbour is water, the unknown count is zero exactly when none is unknown, and the occupied count is zero exactly when none is occupied |
| Rules.OneOccupiedNeighbour | solver.py:245-269 | with exactly one occupied orthogonal neighbour, that neighbour exists, and no other neighbour is occupied |
| Rules.EndFacingAway | solver.py:250-269 | the end state whose ship continues into the given neighbour |
| Rules.RefineAmongEnd | solver.py:245-269 | with one occupied neighbour, not all water and none unknown, the refinement is the end facing away from it |
| Rules.EndAmongOnly | solver.py:250-269 | with a single occupied neighbour, the end found faces away from it |
| Rules.RefineAmongCases | solver.py:233-243 | `Whole` exactly when all neighbours are water, `Mid` exactly when not and two are occupied |
| Rules.RefineAmongEnds | solver.py:245-269 | an end exactly when not all neighbours are water, one is occupied and none is unknown |
| Rules.Refine | solver.py:217-271 | the refinement of an `OccupiedUnknown` cell from its neighbours; `Rules.RefineCases` states each case |
| Rules.RefineCases | solver.py:217-271 | over the real neighbour list: `Whole`, `Mid` and an end each exactly in their case, and the end faces away from its one occupied neighbour and from no other |
| Rules.EndWaterCells | solver.py:313-332 | an end's water cells are exactly the cells behind it and beside it |
| Rules.EndWaterList | solver.py:313-336 | after out-of-bound cells are stripped, exactly the in-grid cells behind and beside the end |
| Rules.EndWorkAmong | solver.py:338-359 | the end rule's list at one end cell; `Rules.EndWorkAmongIff` states it is water on the unknown flank cells and `OccupiedUnknown` on the unknown in-grid cell ahead, at most four entries |
| Rules.EndWorkAmongIff | solver.py:338-359 | given the in-grid flank cells, an end's work is at most four assignments: water on its unknown flank cells and `OccupiedUnknown` on the unknown cell ahead |
| Rules.EndWork | solver.py:299-361 | the end rule at one cell; `Rules.EndWorkIff` states its assignments |
| Rules.EndWorkIff | solver.py:299-361 | the end rule at an end cell: at most four assignments, water on exactly the unknown in-grid cells behind and beside it, `OccupiedUnknown` on exactly the unknown in-grid cell ahead |
| Rules.HasWork | solver.py:189-361 | the test holds exactly for cells where the rule has work |
| Rules.CellScan | solver.py:189-361 | the scan of every cell for a cell rule; `Rules.CellScanFirst` and `Rules.CellScanOpen` state what it proposes |
| Rules.CellScanFirst | solver.py:189-361 | a cell rule proposes nothing exactly when no cell has work; otherwise it proposes the work of a cell with no working cell before it |
| Rules.StateWork | solver.py:217-271 | the state rule at one cell; `Rules.StateWorkIff` states its assignment |
| Rules.StateWorkIff | solver.py:217-271 | the state rule sets at most the cell itself, only an `OccupiedUnknown` cell that can be refined, and sets it to a refined occupied state |
| Rules.DiagonalWork | solver.py:189-215 | the diagonal rule at one cell; `Rules.DiagonalWorkIff` states its assignments |
| Rules.DiagonalWorkIff | solver.py:189-215 | water on exactly the unknown in-grid diagonal neighbours of an occupied cell |
| Rules.AroundWork | solver.py:273-297 | the whole-ship rule at one cell; `Rules.AroundWorkIff` states its assignments |
| Rules.AroundWorkIff | solver.py:273-297 | water on exactly the unknown in-grid cells around a whole ship |
| Rules.PlacementsAt | solver.py:374-377 | the innermost `for direction in [True, False]` loop; `Rules.PlacementsAtHas` states it lists exactly the placements at the start cell that pass the test |
| Rules.ColumnPlacements | solver.py:373-377 | the `for r` loop over one column; `Rules.ColumnPlacementsHas` states its contents |
| Rules.PlacementsBefore | solver.py:372-377 | the `for c` loop over the columns; `Rules.PlacementsBeforeHas` states its contents |
| Rules.PlacementsAtHas | solver.py:374-377 | the placements listed at a start cell are exactly those there that pass the test |
| Rules.ColumnPlacementsHas | solver.py:373-377 | the placements listed in a column up to a row are exactly those starting there that pass the test |
| Rules.PlacementsBeforeHas | solver.py:372-377 | the scan lists a placement exactly when it starts in the scanned columns and passes the test |
| Rules.Candidates | solver.py:363-377 | the possible positions of one length; `Rules.CandidatesIff` states which they are |
| Rules.CandidatesIff | solver.py:363-377 | a length's possible positions are exactly the placements `can_place_ship` accepts, each fitting, on a line with a target at least the length, on no water and touching no occupied cell |
| Rules.CandidateMap | solver.py:363-377 | one entry per ship length, holding its possible positions |
| Rules.CandidateMapAdd | solver.py:363-377 | one more length adds its possible positions to the map |
| Rules.CandidateMapFits | solver.py:363-377 | every possible position in the map lies inside the grid |
| Rules.ForcedShip | solver.py:379-411 | the chosen length has as many possible positions as ships, and the chosen position is one of them with an unknown cell; nothing exactly when no such length has such a position. `Rules.ForcedShipFirst` and `Rules.ForcedShipFirstPosition` state that it is the first in scan order |
| Rules.ForcedShipFirst | solver.py:379-411 | the forced ship's length is the first in `modes` with as many possible positions as ships and one of them holding an unknown cell; no length before it qualifies |
| Rules.ForcedShipFirstPosition | solver.py:379-411 | the forced ship's position is the first of its length's possible positions with an unknown cell |
| Rules.ForcedShipHead | solver.py:379-411 | the first length is chosen when it qualifies, and is passed over, leaving the choice to the later lengths, when it does not |
| Rules.ForcedShipStep | solver.py:379-411 | the forced-ship rule; `Rules.ForcedShipStepIff` states its assignments |
| Rules.ForcedShipStepIff | solver.py:379-411 | the forced-ship rule proposes nothing exactly when no ship is forced, and otherwise exactly `OccupiedUnknown` on every cell of the forced ship |
| Rules.RuleAt | solver.py:60-100 | the rules in `solve_step`'s order, each at its own position |
| Rules.FirstRuleFrom | solver.py:60-100 | the first rule from a position on with cells to set, which has none before it |
| Rules.FirstRuleAtStep | solver.py:60-100 | the search from a position is the rule there if it has work, else the search from the next position |
| Rules.RankBelowLarge | solver.py:60-100 | every rule but the forced-ship one comes before it |
| Rules.ReachesForcedShipIff | solver.py:60-95 | `solve_step` reaches the forced-ship rule exactly when the puzzle is valid, unsolved and no earlier rule has work |
| Rules.NextStepOfFirst | solver.py:60-100 | for a valid unsolved puzzle, the step is the first rule with work, or none found |
| Rules.NextStep | solver.py:60-100 | `solve_step`'s result, a `PuzzleSolveStep` value (the class at solver.py:6-19, modelled as the datatype `Rules.PuzzleSolveStep`: the outcome and the cells it solves); `Rules.NextStepFirst` states which outcome and which rule |
| Rules.NextStepFirst | solver.py:60-100 | invalid exactly when not valid, solved exactly when valid and solved, cells exactly when a rule applies, and it is the first rule in order with work; none found exactly when no rule has any |
| Rules.LineRuleOpen | solver.py:102-187 | the line rules set only unknown in-grid cells, each to the rule's state |
| Rules.CellWorkOpen | solver.py:189-361 | a cell rule's work at one cell only sets unknown cells, or an `OccupiedUnknown` cell to an occupied state, and never to `Unknown` |
| Rules.CellScanOpen | solver.py:189-361 | the cell rules only set open cells, and never to `Unknown` |
| Rules.RuleStep | solver.py:60-100 | one rule of `solve_step`'s chain; `Rules.RuleStepOpen` states which cells it may set |
| Rules.RuleStepOpen | solver.py:60-100 | the first six rules only set open cells; the forced-ship rule may name settled cells |
| Rules.RuleStepKnown | solver.py:60-100 | every one of the seven rules, the forced-ship rule included, proposes only known states: water or an occupied state, never `Unknown` |
| Solvers.Insert | solver.py:41-43 | inserting keeps the list strictly increasing and adds exactly the new length |
| Solvers.Modes | solver.py:41-43 | `sorted(set(lengths))`: strictly increasing and holding exactly the lengths that occur |
| Solvers.CountLengths | solver.py:46-50 | the dictionary has exactly the lengths that occur, each mapped to its number of ships |
| Solvers.Without | solver.py:41-50 | the fleet with the ships of one length taken out: exactly the other lengths remain, each with as many ships as before, so the list shrinks by that length's count; `Solvers.TotalShips` uses it to count the dictionary one length at a time |
| Solvers.TotalShips | solver.py:41-50 | over the distinct lengths, the counts add up to the number of ships |
| Solvers.DropMode | solver.py:41-50 | dropping the shortest length keeps the rest strictly increasing and counted alike |
| Solvers.CountsTotal | solver.py:41-50 | the solver's counts add up to the number of ships |
| Solvers.ApplyAssigns | solver.py:56-58 | setting the step's cells in order keeps the grid's shape |
| Solvers.ApplyPassIff | solver.py:56-58 | a step goes through exactly when `set_cell` accepts every one of its cells on the starting puzzle |
| Solvers.ApplyKeepsAgreement | solver.py:56-58 | a step, whether it goes through or stops, keeps the current grid in agreement with the known one |
| Solvers.ApplyFrame | solver.py:56-58 | a step changes no cell it does not name |
| Solvers.ApplyFill | solver.py:56-58 | a step setting one state that goes through leaves every cell it names in that state, and keeps that state wherever it already was |
| Solvers.OpenStepPasses | solver.py:56-58 | on a grid that agrees with the known one, a step on open cells goes through |
| Solvers.NextStepApplies | solver.py:56-100 | every step of the first six rules goes through on a grid that agrees with the known one |
| Solvers.SettledCellsKept | solver.py:56-100 | the first six rules never overwrite a settled cell: a cell neither `Unknown` nor `OccupiedUnknown` keeps its state through their steps |
| Solvers.ApplyKeepsKnown | solver.py:56-58 | applying assignments none of which is `Unknown` leaves every known in-grid cell known, whichever cells they name |
| Solvers.StepKeepsKnown | solver.py:56-100 | the solver's progress is monotone under all seven rules: no proposed assignment is `Unknown`, and every cell known before a step is still known after it |
| Solvers.ColumnStep | solver.py:372-377 | one more start cell extends the column scanned so far |
| Solvers.PlacementsOf | solver.py:372-377 | the loops list every start cell and direction that passes the test, columns left to right, rows top to bottom, row-aligned first |
| Solvers.Solver.constructor | solver.py:34-54 | a new solver keeps the puzzle, has bookkept lengths and no possible positions yet |
| Solvers.Solver.ValidBookkept | solver.py:41-50 | the lengths the solver keeps are positive, and each is counted |
| Solvers.Solver.CalculateShipPossibles | solver.py:363-377 | the possible positions of each length become `Rules.CandidateMap` of the puzzle; the puzzle does not change |
| Solvers.Solver.SolveStep | solver.py:60-100 | the step is `Rules.NextStep` of the puzzle; the possible positions are recomputed exactly when the forced-ship rule is reached |
| Solvers.Solver.FirstRuleCells | solver.py:60-100 | from a position on, the first rule with cells to set and those cells |
| Solvers.Solver.RuleCells | solver.py:60-100 | one rule's cells to set, with the possible positions recomputed before the forced-ship rule |
| Solvers.Solver.DoStep | solver.py:56-58 | the outcome and the new current grid are those of `Solvers.ApplyAssigns` on the puzzle before the call |
| Generation.NominalCells | puzzle.py:682-683 | the ship's cells from its start along its axis, in or out of the grid: exactly the cells on the ship |
| Generation.KnownState | puzzle.py:658-660 | `cell_state` of `make_puzzle`; `Generation.KnownGrid` and `Generation.GeneratedGrid` state the grid it fills |
| Generation.KnownGrid | puzzle.py:655-669 | `OccupiedUnknown` on occupied cells and `Water` elsewhere |
| Generation.Directions | puzzle.py:677 | `direction_list`, 0 meaning column-aligned and 1 row-aligned; `Generation.TriesAtHas` states which placements it makes the search try |
| Generation.TriesAtHas | puzzle.py:677-681 | at a start cell the search tries both directions for ships longer than one cell, and only row-aligned otherwise |
| Generation.TriesColumnHas | puzzle.py:680-688 | the placements tried in a column up to a row are exactly those starting there in a tried direction |
| Generation.TriesBeforeHas | puzzle.py:679-688 | the placements tried in the columns before a column are exactly those starting there in a tried direction |
| Generation.OccupiedIff | puzzle.py:647-653 | a cell is occupied exactly when some placed ship covers it |
| Generation.CanPlace | puzzle.py:635-642 | `can_place`; `Generation.PlaceableFree` and `Generation.ApartFromPlaced` state what an accepted cell means |
| Generation.CanPlaceShip | puzzle.py:644-645 | `can_place_ship`; `Generation.PlaceableInGrid` and `Generation.ApartFromPlaced` state what an accepted ship means |
| Generation.PlaceableFree | puzzle.py:635-645 | cells that can be placed are not occupied yet |
| Generation.PlaceKeepsPlaced | puzzle.py:671-688 | placing a placeable next ship keeps the placed ships valid |
| Generation.PlaceableInGrid | puzzle.py:635-645 | a scanned ship whose cells can be placed lies in the grid |
| Generation.ApartFromPlaced | puzzle.py:635-645 | a placeable ship neither overlaps nor touches any ship already in the grid |
| Generation.ContinueSound | puzzle.py:671-688 | every layout emitted after placed ships places the whole fleet |
| Generation.Layouts | puzzle.py:679-688 | the loop over start cells and directions for one ship; `Generation.LayoutsSound`, `Generation.LayoutsHas` and `Generation.LayoutsStep` state what it emits |
| Generation.TryLayouts | puzzle.py:682-688 | the loop body for one placement: recurse when `can_place_ship` accepts its cells, else nothing; `Generation.LayoutsStep` and `Generation.LayoutsSound` state its part in the output |
| Generation.LayoutsSound | puzzle.py:671-688 | every layout emitted from a list of tried placements places the whole fleet |
| Generation.GeneratedSound | puzzle.py:580-690 | every layout emitted has one ship per fleet length, each in the grid and none on or next to another |
| Generation.LayoutsHas | puzzle.py:671-688 | what a tried placement leads to is among what the whole list of tries leads to |
| Generation.NextPlaceable | puzzle.py:671-688 | in a complete placement, each next ship can be placed on the cells of the ships before it |
| Generation.Continue | puzzle.py:671-688 | `try_place_ship_and_continue`; `Generation.ContinueSound` and `Generation.ContinueComplete` state what it emits |
| Generation.ContinueComplete | puzzle.py:671-688 | a complete placement is emitted after any of its prefixes is down |
| Generation.Generated | puzzle.py:580-690 | the placements behind `generate_solved_puzzles`; `Generation.GeneratedSound` and `Generation.GeneratedComplete` state that they are exactly the non-touching placements of the fleet |
| Generation.GeneratedComplete | puzzle.py:580-690 | every placement of the whole fleet whose ships lie in the grid and neither overlap nor touch is emitted |
| Generation.GeneratedGrid | puzzle.py:655-669 | the known grid of an emitted placement is `OccupiedUnknown` exactly on the ships' cells and `Water` elsewhere |
| Generation.KnownGridsAppend | puzzle.py:655-669 | the grids of two lists of layouts are the grids of each, in order |
| Generation.LayoutsStep | puzzle.py:681-688 | trying one more placement appends what it leads to after what the earlier ones led to |
| Generation.SearchStep | puzzle.py:681-688 | the grids found after trying one more placement are those before it followed by those it leads to |
| Generation.PuzzleGenerator.constructor | puzzle.py:580-581 | the search starts with no occupied cells and no grids found |
| Generation.PuzzleGenerator.PlaceShip | puzzle.py:647-649 | adds exactly the ship's cells to the occupied set |
| Generation.PuzzleGenerator.RemoveShip | puzzle.py:651-653 | removes exactly the ship's cells from the occupied set |
| Generation.PuzzleGenerator.MakePuzzle | puzzle.py:655-669 | a fresh grid holding `Generation.KnownGrid` of the occupied set |
| Generation.PuzzleGenerator.TryPlacement | puzzle.py:682-688 | one pass of the innermost loop appends the grids the placement leads to, and leaves the occupied set as it was |
| Generation.PuzzleGenerator.TryDirections | puzzle.py:681-688 | the directions at one start cell append, in order, the grids each leads to |
| Generation.PuzzleGenerator.TryColumn | puzzle.py:680-688 | the rows of one column append, in order, the grids each start cell leads to |
| Generation.PuzzleGenerator.TryPlaceShipAndContinue | puzzle.py:671-688 | appends the grids of every layout reachable from the placed ships, in search order, and leaves the occupied set as it was |
| Generation.GenerateSolvedPuzzles | puzzle.py:580-690 | the known grids of exactly the placements the search emits, in order; with `Generation.GeneratedSound` and `Generation.GeneratedComplete`, these are the non-touching placements of the fleet |

## Left out

- Text: `describe`, `__str__` of the puzzle and of a solve step, `__eq__`, and the wrapped descriptions of solve steps. A step reports a `Rules.Verdict` tag instead of its text.
- `solve_partial_fill_ship` (solver.py:413-420) returns an empty step and is never called by `solve_step`, so it is not modelled.
- Deep copies (`copy.deepcopy`) of the grids given to the constructor are modelled as fresh `CellGrid` copies of their contents.
- The exceptions raised by `set_cell` and the constructor are modelled as `Outcome`/`Result` values carrying the error kind. `do_step` stops at the first rejection, as the exception would stop it.
- The solver calls `get_ship_lengths()`, `get_num_cols()` and `get_num_rows()`, while the puzzle exposes the properties `ship_lengths`, `num_cols` and `num_rows`. The model reads those values directly.
- `can_place_ship` calls the property `num_rows` as a function (puzzle.py:548 and puzzle.py:560). The model compares against the number of rows, as the surrounding checks on columns do.
- `Rules.ForcedShip` visits the lengths in the order of the sorted distinct lengths. The source iterates over `ship_possibles`, a dictionary whose insertion order `calculate_ship_possibles` makes exactly that order.
- The `solve_step` chain of `if` statements is modelled as a search over the rules' positions (`Rules.FirstRuleFrom`).
- `Solvers.PlacementsOf` takes the `can_place_ship` test as a function argument; `Solvers.Solver.CalculateShipPossibles` passes the puzzle's own test.
- `PuzzleQueries.CanPlaceShip` requires a length of at least one. The solver only passes lengths the constructor has accepted, and those are positive.
- `Generation.GenerateSolvedPuzzles` requires both dimensions to be at least one. Smaller dimensions are not covered: with a non-empty fleet the scan loops are empty and nothing is yielded, and with an empty fleet `make_puzzle`'s `CellGrid` raises. The only caller, battleships_puzzle.py:41, passes a 3 by 3 grid.
- `Generation.PuzzleGenerator.RemoveShip` requires its cells to be distinct members of the occupied set, where the source's `set.remove` would raise. The search only removes cells it has just added.
- `generate_solved_puzzles` calls `get_ship_cells`, which the repository does not define for the generator. The model uses the ship's nominal cells from its start along its axis, in or out of the grid. `can_place` then rejects cells outside the grid.
- `generate_solved_puzzles` uses a set `occupied_cells` that it never creates. The model starts the search with an empty occupied set.
- `generate_solved_puzzles` calls `self.get_neighbour_cells` outside any class. The model uses the clipped neighbourhood of `Geometry.NeighbourCells`.
- `make_puzzle` builds a `Puzzle` from the known grid, and puzzle.py:163 would reject that call. Only the known grid it fills is modelled. The generator yields that grid in a returned sequence rather than through `yield`.
- The bounding-box helpers defined inside `generate_solved_puzzles` (puzzle.py:596-633) are never called. They are not modelled.
- The command-line front end (battleships_puzzle.py), the example puzzles (example_puzzles.py) and the tests (tests/puzzle_test.py) are not part of this model.
