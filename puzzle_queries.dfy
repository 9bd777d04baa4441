/** The read-only queries of `Puzzle` (puzzle.py), stated over a snapshot of the puzzle's
    state: the line counts, `is_valid`, `is_incorrect`, `is_solved`, the known-cell guard of
    `set_cell` and `can_place_ship`. */
module PuzzleQueries {
  import opened Wrappers
  import opened CellStates
  import opened Seqs
  import opened Grids
  import opened Geometry

  /** A puzzle's state at one moment: its dimensions, fleet, line targets, the known grid,
      the current grid and, when ships were given, the solution grid. */
  datatype PuzzleView = PuzzleView(
    numCols: int,
    numRows: int,
    shipLengths: seq<int>,
    colSums: seq<int>,
    rowSums: seq<int>,
    known: Board,
    curr: Board,
    solution: Option<Board>)

  /** The shape every constructed puzzle has. */
  predicate Wf(v: PuzzleView) {
    1 <= v.numCols && 1 <= v.numRows &&
    |v.colSums| == v.numCols && |v.rowSums| == v.numRows &&
    Shaped(v.known, v.numCols, v.numRows) && Shaped(v.curr, v.numCols, v.numRows) &&
    (v.solution.Some? ==> Shaped(v.solution.value, v.numCols, v.numRows))
  }

  /** `get_cell`: the current state of an in-grid cell. */
  function CellAt(v: PuzzleView, x: Cell): CellState
    requires Wf(v) && InGrid(v.numCols, v.numRows, x.0, x.1)
  {
    v.curr[x.0][x.1]
  }

  /** The current states of column `c`, top to bottom. */
  function ColCells(v: PuzzleView, c: int): (cells: seq<CellState>)
    requires Wf(v) && 0 <= c < v.numCols
    ensures |cells| == v.numRows && forall r :: 0 <= r < v.numRows ==> cells[r] == v.curr[c][r]
  {
    v.curr[c]
  }

  /** The current states of row `r`, left to right. */
  function RowCells(v: PuzzleView, r: int): (cells: seq<CellState>)
    requires Wf(v) && 0 <= r < v.numRows
    ensures |cells| == v.numCols && forall c :: 0 <= c < v.numCols ==> cells[c] == v.curr[c][r]
  {
    RowOf(v.curr, v.numCols, v.numRows, r)
  }

  /** `get_col_occupied_sum`. */
  function ColOccupiedSum(v: PuzzleView, c: int): nat
    requires Wf(v) && 0 <= c < v.numCols
  {
    CountIf(ColCells(v, c), IsOccupied)
  }

  /** `get_row_occupied_sum`. */
  function RowOccupiedSum(v: PuzzleView, r: int): nat
    requires Wf(v) && 0 <= r < v.numRows
  {
    CountIf(RowCells(v, r), IsOccupied)
  }

  /** `get_col_water_sum`. */
  function ColWaterSum(v: PuzzleView, c: int): nat
    requires Wf(v) && 0 <= c < v.numCols
  {
    CountIf(ColCells(v, c), IsWater)
  }

  /** `get_row_water_sum`. */
  function RowWaterSum(v: PuzzleView, r: int): nat
    requires Wf(v) && 0 <= r < v.numRows
  {
    CountIf(RowCells(v, r), IsWater)
  }

  /** A line's occupied and water counts together never exceed its length; a count is zero
      exactly when no cell of the line has that kind, and full exactly when every cell has. */
  lemma {:induction false} ColCounts(v: PuzzleView, c: int)
    requires Wf(v) && 0 <= c < v.numCols
    ensures ColOccupiedSum(v, c) + ColWaterSum(v, c) <= v.numRows
    ensures ColOccupiedSum(v, c) == 0 <==> forall r :: 0 <= r < v.numRows ==> !IsOccupied(v.curr[c][r])
    ensures ColWaterSum(v, c) == v.numRows <==> forall r :: 0 <= r < v.numRows ==> IsWater(v.curr[c][r])
  {
    CountIfDisjoint(ColCells(v, c), IsOccupied, IsWater);
    CountIfNone(ColCells(v, c), IsOccupied);
    CountIfAll(ColCells(v, c), IsWater);
  }

  lemma {:induction false} RowCounts(v: PuzzleView, r: int)
    requires Wf(v) && 0 <= r < v.numRows
    ensures RowOccupiedSum(v, r) + RowWaterSum(v, r) <= v.numCols
    ensures RowOccupiedSum(v, r) == 0 <==> forall c :: 0 <= c < v.numCols ==> !IsOccupied(v.curr[c][r])
    ensures RowWaterSum(v, r) == v.numCols <==> forall c :: 0 <= c < v.numCols ==> IsWater(v.curr[c][r])
  {
    CountIfDisjoint(RowCells(v, r), IsOccupied, IsWater);
    CountIfNone(RowCells(v, r), IsOccupied);
    CountIfAll(RowCells(v, r), IsWater);
  }

  /** A row within its targets: occupied count at most the target, water count at most the
      cells left over. */
  predicate RowWithinTarget(v: PuzzleView, r: int)
    requires Wf(v) && 0 <= r < v.numRows
  {
    RowOccupiedSum(v, r) <= v.rowSums[r] && RowWaterSum(v, r) <= v.numCols - v.rowSums[r]
  }

  predicate ColWithinTarget(v: PuzzleView, c: int)
    requires Wf(v) && 0 <= c < v.numCols
  {
    ColOccupiedSum(v, c) <= v.colSums[c] && ColWaterSum(v, c) <= v.numRows - v.colSums[c]
  }

  /** A scan of `range(0, n)` finds an index satisfying `p` exactly when one exists. */
  lemma {:induction false} AnyIndex(n: int, p: int --> bool)
    requires forall i :: 0 <= i < n ==> p.requires(i)
    ensures forall i :: i in Range(0, n) ==> p.requires(i)
    ensures !Any(Range(0, n), p) <==> forall i :: 0 <= i < n ==> !p(i)
  {
    AllInRange(0, n);
    if exists i :: 0 <= i < n && p(i) {
      var i :| 0 <= i < n && p(i);
      assert Range(0, n)[i] == i;
    }
  }

  /** A row whose occupied count exceeds its target. */
  function RowOver(v: PuzzleView): (p: int --> bool)
    requires Wf(v)
    ensures forall r :: 0 <= r < v.numRows ==> p.requires(r)
    ensures forall r :: 0 <= r < v.numRows ==> (p(r) <==> RowOccupiedSum(v, r) > v.rowSums[r])
  {
    r requires 0 <= r < v.numRows => RowOccupiedSum(v, r) > v.rowSums[r]
  }

  /** A column whose occupied count exceeds its target. */
  function ColOver(v: PuzzleView): (p: int --> bool)
    requires Wf(v)
    ensures forall c :: 0 <= c < v.numCols ==> p.requires(c)
    ensures forall c :: 0 <= c < v.numCols ==> (p(c) <==> ColOccupiedSum(v, c) > v.colSums[c])
  {
    c requires 0 <= c < v.numCols => ColOccupiedSum(v, c) > v.colSums[c]
  }

  /** A row with more water than its non-ship cells. */
  function RowWater(v: PuzzleView): (p: int --> bool)
    requires Wf(v)
    ensures forall r :: 0 <= r < v.numRows ==> p.requires(r)
    ensures forall r :: 0 <= r < v.numRows ==> (p(r) <==> RowWaterSum(v, r) > v.numCols - v.rowSums[r])
  {
    r requires 0 <= r < v.numRows => RowWaterSum(v, r) > v.numCols - v.rowSums[r]
  }

  /** A column with more water than its non-ship cells. */
  function ColWater(v: PuzzleView): (p: int --> bool)
    requires Wf(v)
    ensures forall c :: 0 <= c < v.numCols ==> p.requires(c)
    ensures forall c :: 0 <= c < v.numCols ==> (p(c) <==> ColWaterSum(v, c) > v.numRows - v.colSums[c])
  {
    c requires 0 <= c < v.numCols => ColWaterSum(v, c) > v.numRows - v.colSums[c]
  }

  /** The two row scans find nothing exactly when every row is within its targets. */
  lemma {:induction false} RowsWithinTargets(v: PuzzleView)
    requires Wf(v)
    ensures forall i :: i in Range(0, v.numRows) ==> RowOver(v).requires(i) && RowWater(v).requires(i)
    ensures (!Any(Range(0, v.numRows), RowOver(v)) && !Any(Range(0, v.numRows), RowWater(v))) <==>
            forall r :: 0 <= r < v.numRows ==> RowWithinTarget(v, r)
  {
    var over, water := RowOver(v), RowWater(v);
    AnyIndex(v.numRows, over);
    AnyIndex(v.numRows, water);
    assert forall r :: 0 <= r < v.numRows ==> (RowWithinTarget(v, r) <==> !over(r) && !water(r));
  }

  /** The two column scans find nothing exactly when every column is within its targets. */
  lemma {:induction false} ColsWithinTargets(v: PuzzleView)
    requires Wf(v)
    ensures forall i :: i in Range(0, v.numCols) ==> ColOver(v).requires(i) && ColWater(v).requires(i)
    ensures (!Any(Range(0, v.numCols), ColOver(v)) && !Any(Range(0, v.numCols), ColWater(v))) <==>
            forall c :: 0 <= c < v.numCols ==> ColWithinTarget(v, c)
  {
    var over, water := ColOver(v), ColWater(v);
    AnyIndex(v.numCols, over);
    AnyIndex(v.numCols, water);
    assert forall c :: 0 <= c < v.numCols ==> (ColWithinTarget(v, c) <==> !over(c) && !water(c));
  }

  /** `is_valid`: four `any` scans, rows' occupied counts, columns' occupied counts, rows'
      water counts, columns' water counts. */
  function IsValid(v: PuzzleView): (ok: bool)
    requires Wf(v)
    ensures ok <==> (forall r :: 0 <= r < v.numRows ==> RowWithinTarget(v, r)) &&
                    (forall c :: 0 <= c < v.numCols ==> ColWithinTarget(v, c))
  {
    RowsWithinTargets(v);
    ColsWithinTargets(v);
    !Any(Range(0, v.numRows), RowOver(v)) && !Any(Range(0, v.numCols), ColOver(v)) &&
    !Any(Range(0, v.numRows), RowWater(v)) && !Any(Range(0, v.numCols), ColWater(v))
  }

  /** A current state that the solution state refutes: occupied over non-occupied, or water
      over non-water. */
  predicate Contradicts(current: CellState, solved: CellState) {
    if IsOccupied(current) then !IsOccupied(solved)
    else if IsWater(current) then !IsWater(solved)
    else false
  }

  /** A scan of all cells finds one satisfying `p` exactly when some in-grid cell does. */
  lemma {:induction false} AnyCell(cols: int, rows: int, p: Cell --> bool)
    requires forall x :: InGridCell(cols, rows, x) ==> p.requires(x)
    ensures forall x :: x in AllCells(cols, rows) ==> p.requires(x)
    ensures Any(AllCells(cols, rows), p) <==>
              exists c, r :: InGrid(cols, rows, c, r) && p((c, r))
  {
    var cells := AllCells(cols, rows);
    if Any(cells, p) {
      var i :| 0 <= i < |cells| && p(cells[i]);
      assert cells[i] in cells;
      assert InGrid(cols, rows, cells[i].0, cells[i].1) && p((cells[i].0, cells[i].1));
    }
    if exists c, r :: InGrid(cols, rows, c, r) && p((c, r)) {
      var c, r :| InGrid(cols, rows, c, r) && p((c, r));
      assert (c, r) in cells;
      var i :| 0 <= i < |cells| && cells[i] == (c, r);
    }
  }

  /** `is_incorrect`: a solution exists and some current cell contradicts it. */
  function IsIncorrect(v: PuzzleView): (wrong: bool)
    requires Wf(v)
    ensures v.solution.None? ==> !wrong
    ensures v.solution.Some? ==>
              (wrong <==> exists c, r :: InGrid(v.numCols, v.numRows, c, r) &&
                                         Contradicts(v.curr[c][r], v.solution.value[c][r]))
  {
    match v.solution
    case None => false
    case Some(sol) =>
      var p := (x: Cell) requires InGridCell(v.numCols, v.numRows, x) =>
        Contradicts(v.curr[x.0][x.1], sol[x.0][x.1]);
      AnyCell(v.numCols, v.numRows, p);
      Any(AllCells(v.numCols, v.numRows), p)
  }

  /** A state that `is_solved` accepts as final. */
  predicate Settled(s: CellState) {
    !IsUnknown(s) && s != OccupiedUnknown
  }

  /** `is_solved`: valid, not incorrect, and no cell is still `Unknown` or `OccupiedUnknown`. */
  function IsSolved(v: PuzzleView): (solved: bool)
    requires Wf(v)
    ensures solved <==> IsValid(v) && !IsIncorrect(v) &&
                        forall c, r :: InGrid(v.numCols, v.numRows, c, r) ==> Settled(v.curr[c][r])
  {
    if !IsValid(v) || IsIncorrect(v) then false
    else
      var p := (x: Cell) requires InGridCell(v.numCols, v.numRows, x) => !Settled(v.curr[x.0][x.1]);
      AnyCell(v.numCols, v.numRows, p);
      !Any(AllCells(v.numCols, v.numRows), p)
  }

  /** `is_cell_known`. */
  function IsCellKnown(v: PuzzleView, c: int, r: int): (res: Result<bool, Error>)
    requires Wf(v)
    ensures res.Failure? <==> !InGrid(v.numCols, v.numRows, c, r)
    ensures res.Success? ==> (res.value <==> v.known[c][r] != Unknown)
  {
    match CheckInRange(v.numCols, v.numRows, c, r)
    case Fail(e) => Failure(e)
    case Pass => Success(!IsUnknown(v.known[c][r]))
  }

  /** The guard of `set_cell`: the known grid's range check, then a known `OccupiedUnknown`
      cell accepts only occupied states and any other known cell accepts nothing. */
  function SetCellGuard(v: PuzzleView, c: int, r: int, s: CellState): (res: Outcome<Error>)
    requires Wf(v)
    ensures res.Pass? <==>
              (InGrid(v.numCols, v.numRows, c, r) &&
               (v.known[c][r] == Unknown || (v.known[c][r] == OccupiedUnknown && IsOccupied(s))))
    ensures res.Fail? && !InGrid(v.numCols, v.numRows, c, r) ==>
              res.error == CheckInRange(v.numCols, v.numRows, c, r).error
    ensures res.Fail? && InGrid(v.numCols, v.numRows, c, r) ==>
              res.error == (if v.known[c][r] == OccupiedUnknown then KnownOccupiedCell else KnownCell)
  {
    match CheckInRange(v.numCols, v.numRows, c, r)
    case Fail(e) => Fail(e)
    case Pass =>
      if v.known[c][r] == OccupiedUnknown then
        if !IsOccupied(s) then Fail(KnownOccupiedCell) else Pass
      else if v.known[c][r] != Unknown then Fail(KnownCell)
      else Pass
  }

  /** The class comment's agreement between the current and the known grid: every known cell
      is shown as known, except that a known `OccupiedUnknown` may be refined to any occupied
      state. */
  ghost predicate Agrees(known: Board, curr: Board, cols: int, rows: int)
    requires Shaped(known, cols, rows) && Shaped(curr, cols, rows)
  {
    forall c, r :: InGrid(cols, rows, c, r) ==>
      known[c][r] == Unknown || curr[c][r] == known[c][r] ||
      (known[c][r] == OccupiedUnknown && IsOccupied(curr[c][r]))
  }

  /** A write that passes the guard keeps the current grid in agreement with the known one. */
  lemma {:induction false} SetCellKeepsAgreement(v: PuzzleView, c: int, r: int, s: CellState)
    requires Wf(v) && Agrees(v.known, v.curr, v.numCols, v.numRows)
    requires SetCellGuard(v, c, r, s).Pass?
    ensures Shaped(SetAt(v.curr, c, r, s), v.numCols, v.numRows)
    ensures Agrees(v.known, SetAt(v.curr, c, r, s), v.numCols, v.numRows)
  {
  }

  /** The target of the line a ship lies along: its row's for a row-aligned ship, else its
      column's. */
  function LineTarget(v: PuzzleView, p: Placement): int
    requires Wf(v) && 0 <= p.col < v.numCols && 0 <= p.row < v.numRows
  {
    if p.rowAligned then v.rowSums[p.row] else v.colSums[p.col]
  }

  /** The test `x is water` over in-grid cells. */
  function WaterTest(v: PuzzleView): (t: Cell --> bool)
    requires Wf(v)
    ensures forall x :: InGridCell(v.numCols, v.numRows, x) ==> t.requires(x)
    ensures forall x :: InGridCell(v.numCols, v.numRows, x) ==> (t(x) <==> IsWater(v.curr[x.0][x.1]))
  {
    CellTest(v.curr, v.numCols, v.numRows, IsWater)
  }

  /** The test `x is occupied` over in-grid cells. */
  function OccupiedTest(v: PuzzleView): (t: Cell --> bool)
    requires Wf(v)
    ensures forall x :: InGridCell(v.numCols, v.numRows, x) ==> t.requires(x)
    ensures forall x :: InGridCell(v.numCols, v.numRows, x) ==> (t(x) <==> IsOccupied(v.curr[x.0][x.1]))
  {
    CellTest(v.curr, v.numCols, v.numRows, IsOccupied)
  }

  /** `can_place_ship`: the start cell's row and column checks, the fit and line-target checks
      for the ship's direction, then no ship cell water and no surrounding cell occupied. */
  function CanPlaceShip(v: PuzzleView, len: int, p: Placement): bool
    requires Wf(v) && 1 <= len
  {
    if p.row < 0 || p.row >= v.numRows then false
    else if p.col < 0 || p.col >= v.numCols then false
    else if p.rowAligned && (p.col + len > v.numCols || v.rowSums[p.row] < len) then false
    else if !p.rowAligned && (p.row + len > v.numRows || v.colSums[p.col] < len) then false
    else
      ShipNeighbourCellsExact(v.numCols, v.numRows, len, p);
      !Any(ShipCells(v.numCols, v.numRows, len, p).value, WaterTest(v)) &&
      !Any(ShipNeighbourCells(v.numCols, v.numRows, len, p), OccupiedTest(v))
  }

  /** No cell of the ship is water. */
  ghost predicate ShipDry(v: PuzzleView, len: int, p: Placement)
    requires Wf(v) && Fits(v.numCols, v.numRows, len, p)
  {
    forall x: Cell :: OnShip(len, p, x) ==> !IsWater(v.curr[x.0][x.1])
  }

  /** No in-grid cell around the ship is occupied. */
  ghost predicate ShipClear(v: PuzzleView, len: int, p: Placement)
    requires Wf(v)
  {
    forall x: Cell ::
      (InGridCell(v.numCols, v.numRows, x) && InShipBox(len, p, x) && !OnShip(len, p, x))
      ==> !IsOccupied(v.curr[x.0][x.1])
  }

  lemma {:induction false} ShipDryScan(v: PuzzleView, len: int, p: Placement)
    requires Wf(v) && 1 <= len && Fits(v.numCols, v.numRows, len, p)
    ensures forall x :: x in ShipCells(v.numCols, v.numRows, len, p).value ==> WaterTest(v).requires(x)
    ensures !Any(ShipCells(v.numCols, v.numRows, len, p).value, WaterTest(v)) <==> ShipDry(v, len, p)
  {
    var cells := ShipCells(v.numCols, v.numRows, len, p).value;
    if !ShipDry(v, len, p) {
      WetCellScanned(v, len, p, cells);
    }
    if Any(cells, WaterTest(v)) {
      var i :| 0 <= i < |cells| && WaterTest(v)(cells[i]);
      assert cells[i] in cells;
    }
  }

  lemma {:induction false} WetCellScanned(v: PuzzleView, len: int, p: Placement, cells: seq<Cell>)
    requires Wf(v) && 1 <= len && Fits(v.numCols, v.numRows, len, p)
    requires cells == ShipCells(v.numCols, v.numRows, len, p).value
    requires !ShipDry(v, len, p)
    ensures forall x :: x in cells ==> WaterTest(v).requires(x)
    ensures Any(cells, WaterTest(v))
  {
    var x: Cell :| OnShip(len, p, x) && IsWater(v.curr[x.0][x.1]);
    assert x in cells;
    var i :| 0 <= i < |cells| && cells[i] == x;
  }

  lemma {:induction false} ShipClearScan(v: PuzzleView, len: int, p: Placement)
    requires Wf(v) && 1 <= len && Fits(v.numCols, v.numRows, len, p)
    ensures forall x :: x in ShipNeighbourCells(v.numCols, v.numRows, len, p) ==> OccupiedTest(v).requires(x)
    ensures !Any(ShipNeighbourCells(v.numCols, v.numRows, len, p), OccupiedTest(v)) <==> ShipClear(v, len, p)
  {
    var around := ShipNeighbourCells(v.numCols, v.numRows, len, p);
    ShipNeighbourCellsExact(v.numCols, v.numRows, len, p);
    if !ShipClear(v, len, p) {
      var x: Cell :| InGridCell(v.numCols, v.numRows, x) && InShipBox(len, p, x) &&
                     !OnShip(len, p, x) && IsOccupied(v.curr[x.0][x.1]);
      assert x in around;
      var i :| 0 <= i < |around| && around[i] == x;
    }
    if Any(around, OccupiedTest(v)) {
      var i :| 0 <= i < |around| && OccupiedTest(v)(around[i]);
      assert around[i] in around;
    }
  }

  /** A ship can be placed exactly when it lies in the grid, its line's target is at least its
      length, none of its cells is water and none of the cells around it is occupied. */
  lemma {:induction false} CanPlaceShipIff(v: PuzzleView, len: int, p: Placement)
    requires Wf(v) && 1 <= len
    ensures CanPlaceShip(v, len, p) <==>
              Fits(v.numCols, v.numRows, len, p) && LineTarget(v, p) >= len &&
              ShipDry(v, len, p) && ShipClear(v, len, p)
  {
    if Fits(v.numCols, v.numRows, len, p) {
      ShipDryScan(v, len, p);
      ShipClearScan(v, len, p);
    }
  }
}
