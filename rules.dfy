/** The inference rules of `Solver` (solver.py): each is a read-only scan of the current grid
    that returns the cell assignments it can justify, or none. */
module Rules {
  import opened Wrappers
  import opened CellStates
  import opened Seqs
  import opened Grids
  import opened Geometry
  import opened PuzzleQueries

  /** One solved cell of a step: the `(c, r, state)` tuples of `PuzzleSolveStep`. */
  datatype Assign = Assign(c: int, r: int, state: CellState)

  /** The assignments setting each of `cells`, in order, to `s`. */
  function Fill(cells: seq<Cell>, s: CellState): (step: seq<Assign>)
    ensures |step| == |cells|
    ensures forall i :: 0 <= i < |cells| ==> step[i] == Assign(cells[i].0, cells[i].1, s)
    ensures forall a: Assign :: a in step <==> a.state == s && (a.c, a.r) in cells
  {
    var step := Map(cells, (x: Cell) => Assign(x.0, x.1, s));
    assert forall a: Assign :: a.state == s && (a.c, a.r) in cells ==> a in step by {
      forall a: Assign | a.state == s && (a.c, a.r) in cells ensures a in step {
        var i :| 0 <= i < |cells| && cells[i] == (a.c, a.r);
        assert step[i] == a;
      }
    }
    step
  }

  /** The test `x is unknown` over in-grid cells. */
  function UnknownTest(v: PuzzleView): (t: Cell --> bool)
    requires Wf(v)
    ensures forall x :: InGridCell(v.numCols, v.numRows, x) ==> t.requires(x)
    ensures forall x :: InGridCell(v.numCols, v.numRows, x) ==>
              (t(x) <==> IsUnknown(v.curr[x.0][x.1]))
  {
    CellTest(v.curr, v.numCols, v.numRows, IsUnknown)
  }

  /** The currently `Unknown` cells among in-grid `cells`. */
  function UnknownAmong(v: PuzzleView, cells: seq<Cell>): (u: seq<Cell>)
    requires Wf(v) && forall x :: x in cells ==> InGridCell(v.numCols, v.numRows, x)
    ensures |u| <= |cells|
    ensures forall x :: x in u <==>
              x in cells && InGridCell(v.numCols, v.numRows, x) && IsUnknown(v.curr[x.0][x.1])
  {
    if cells == [] then []
    else
      assert cells[0] in cells && InGridCell(v.numCols, v.numRows, cells[0]);
      (if IsUnknown(v.curr[cells[0].0][cells[0].1]) then [cells[0]] else []) + UnknownAmong(v, cells[1..])
  }

  // ---------------------------------------------------------------------------------------
  // Rules 1 and 2: a line whose target is reached.

  /** A column or a row of the grid. */
  datatype Line = Col(c: int) | Row(r: int)

  predicate ValidLine(cols: int, rows: int, l: Line) {
    match l
    case Col(c) => 0 <= c < cols
    case Row(r) => 0 <= r < rows
  }

  predicate OnLine(l: Line, x: Cell) {
    match l
    case Col(c) => x.0 == c
    case Row(r) => x.1 == r
  }

  /** The order both line rules scan in: every column left to right, then every row top to
      bottom. */
  function Lines(cols: nat, rows: nat): (ls: seq<Line>)
    ensures |ls| == cols + rows
    ensures forall i :: 0 <= i < cols ==> ls[i] == Col(i)
    ensures forall i :: 0 <= i < rows ==> ls[cols + i] == Row(i)
    ensures forall l :: l in ls <==> ValidLine(cols, rows, l)
  {
    var ls := seq(cols, c => Col(c)) + seq(rows, r => Row(r));
    assert forall l :: ValidLine(cols, rows, l) ==> l in ls by {
      forall l | ValidLine(cols, rows, l) ensures l in ls {
        if l.Col? { assert ls[l.c] == l; } else { assert ls[cols + l.r] == l; }
      }
    }
    ls
  }

  /** The cells of a line in scan order. */
  function LineCells(cols: int, rows: int, l: Line): (cells: seq<Cell>)
    requires ValidLine(cols, rows, l)
    ensures forall x :: x in cells <==> InGrid(cols, rows, x.0, x.1) && OnLine(l, x)
    ensures l.Col? ==> forall i :: 0 <= i < |cells| ==> cells[i] == (l.c, i)
    ensures l.Row? ==> forall i :: 0 <= i < |cells| ==> cells[i] == (i, l.r)
  {
    match l
    case Col(c) => ColRun(c, 0, rows)
    case Row(r) => RowRun(0, cols, r)
  }

  /** `get_col_occupied_sum` / `get_row_occupied_sum`. */
  function LineOccupied(v: PuzzleView, l: Line): nat
    requires Wf(v) && ValidLine(v.numCols, v.numRows, l)
  {
    match l
    case Col(c) => ColOccupiedSum(v, c)
    case Row(r) => RowOccupiedSum(v, r)
  }

  /** `get_col_sum` / `get_row_sum`. */
  function LineSum(v: PuzzleView, l: Line): int
    requires Wf(v) && ValidLine(v.numCols, v.numRows, l)
  {
    match l
    case Col(c) => v.colSums[c]
    case Row(r) => v.rowSums[r]
  }

  /** The line's `Unknown` cells in scan order. */
  function UnknownCells(v: PuzzleView, l: Line): (u: seq<Cell>)
    requires Wf(v) && ValidLine(v.numCols, v.numRows, l)
    ensures forall x :: x in u <==>
              InGrid(v.numCols, v.numRows, x.0, x.1) && OnLine(l, x) && IsUnknown(v.curr[x.0][x.1])
  {
    UnknownAmong(v, LineCells(v.numCols, v.numRows, l))
  }

  /** The two line rules: `solve_line_occupied_total_reached` (the occupied cells already
      reach the target, so the unknown ones are water) and `solve_line_unknowns_total_reached`
      (only with every unknown cell occupied can the target be reached). */
  datatype LineTest = TotalReached | UnknownsReach

  function LineState(test: LineTest): CellState {
    match test
    case TotalReached => Water
    case UnknownsReach => OccupiedUnknown
  }

  /** The line has an unknown cell and meets the rule's count condition. */
  predicate Qualifies(v: PuzzleView, test: LineTest, l: Line)
    requires Wf(v) && ValidLine(v.numCols, v.numRows, l)
  {
    var unknown := |UnknownCells(v, l)|;
    unknown > 0 &&
    match test
    case TotalReached => LineOccupied(v, l) == LineSum(v, l)
    case UnknownsReach => unknown + LineOccupied(v, l) == LineSum(v, l)
  }

  /** What a line rule sets on line `l`: all its unknown cells, when it qualifies. */
  function LineWork(v: PuzzleView, test: LineTest, l: Line): (step: seq<Assign>)
    requires Wf(v) && ValidLine(v.numCols, v.numRows, l)
  {
    if Qualifies(v, test, l) then Fill(UnknownCells(v, l), LineState(test)) else []
  }

  /** A line's work is exactly the rule's state on each of its unknown cells, if the line
      qualifies, and nothing otherwise. */
  lemma {:induction false} LineWorkIff(v: PuzzleView, test: LineTest, l: Line)
    requires Wf(v) && ValidLine(v.numCols, v.numRows, l)
    ensures LineWork(v, test, l) != [] <==> Qualifies(v, test, l)
    ensures forall a: Assign :: a in LineWork(v, test, l) <==>
              Qualifies(v, test, l) && a.state == LineState(test) &&
              InGrid(v.numCols, v.numRows, a.c, a.r) && OnLine(l, (a.c, a.r)) &&
              IsUnknown(v.curr[a.c][a.r])
  {
  }

  /** A scan of every line that finds nothing rules out every line. */
  lemma {:induction false} LineScanFindsNone(cols: nat, rows: nat, q: Line --> bool)
    requires forall l :: ValidLine(cols, rows, l) ==> q.requires(l)
    requires forall j :: 0 <= j < |Lines(cols, rows)| ==>
               ValidLine(cols, rows, Lines(cols, rows)[j]) && !q(Lines(cols, rows)[j])
    ensures forall l :: ValidLine(cols, rows, l) ==> !q(l)
  {
    var ls := Lines(cols, rows);
    forall l | ValidLine(cols, rows, l) ensures !q(l) {
      var i :| 0 <= i < |ls| && ls[i] == l;
    }
  }

  /** The line scan's first hit comes after every column, and every row, it passed over. */
  lemma {:induction false} LineScanFindsFirst(cols: nat, rows: nat, q: Line --> bool, i: nat)
    requires forall l :: ValidLine(cols, rows, l) ==> q.requires(l)
    requires i < |Lines(cols, rows)|
    requires forall j :: 0 <= j < i ==>
               ValidLine(cols, rows, Lines(cols, rows)[j]) && !q(Lines(cols, rows)[j])
    ensures var l := Lines(cols, rows)[i];
            forall c :: 0 <= c < cols && (l.Row? || c < l.c) ==> ValidLine(cols, rows, Col(c)) && !q(Col(c))
    ensures var l := Lines(cols, rows)[i];
            forall r :: 0 <= r < rows && l.Row? && r < l.r ==> ValidLine(cols, rows, Row(r)) && !q(Row(r))
  {
    var ls := Lines(cols, rows);
    forall c | 0 <= c < cols && (ls[i].Row? || c < ls[i].c) ensures !q(Col(c)) {
      assert ls[c] == Col(c);
    }
    forall r | 0 <= r < rows && ls[i].Row? && r < ls[i].r ensures !q(Row(r)) {
      assert ls[cols + r] == Row(r);
    }
  }

  /** The first line satisfying `q`, in the line rules' scan order. */
  function FirstLineWhere(cols: nat, rows: nat, q: Line --> bool): (res: Option<Line>)
    requires forall l :: ValidLine(cols, rows, l) ==> q.requires(l)
    ensures res.Some? ==> ValidLine(cols, rows, res.value) && q(res.value)
    ensures res.Some? ==> forall c :: 0 <= c < cols && (res.value.Row? || c < res.value.c) ==>
              ValidLine(cols, rows, Col(c)) && !q(Col(c))
    ensures res.Some? ==> forall r :: 0 <= r < rows && res.value.Row? && r < res.value.r ==>
              ValidLine(cols, rows, Row(r)) && !q(Row(r))
    ensures res.None? <==> forall l :: ValidLine(cols, rows, l) ==> !q(l)
  {
    var ls := Lines(cols, rows);
    match FirstWhere(ls, q)
    case None =>
      LineScanFindsNone(cols, rows, q);
      None
    case Some(i) =>
      LineScanFindsFirst(cols, rows, q, i);
      Some(ls[i])
  }

  /** The first line, columns left to right and then rows top to bottom, that qualifies. */
  function FirstLine(v: PuzzleView, test: LineTest): Option<Line>
    requires Wf(v)
  {
    FirstLineWhere(v.numCols, v.numRows,
      (l: Line) requires ValidLine(v.numCols, v.numRows, l) => Qualifies(v, test, l))
  }

  /** The line a line rule picks qualifies and no line before it does; it picks none exactly
      when no line qualifies. */
  lemma {:induction false} FirstLineFirst(v: PuzzleView, test: LineTest)
    requires Wf(v)
    ensures FirstLine(v, test).Some? ==>
              var l := FirstLine(v, test).value;
              ValidLine(v.numCols, v.numRows, l) && Qualifies(v, test, l) &&
              (forall c :: 0 <= c < v.numCols && (l.Row? || c < l.c) ==> !Qualifies(v, test, Col(c))) &&
              (forall r :: 0 <= r < v.numRows && l.Row? && r < l.r ==> !Qualifies(v, test, Row(r)))
    ensures FirstLine(v, test).None? <==>
              forall l :: ValidLine(v.numCols, v.numRows, l) ==> !Qualifies(v, test, l)
  {
  }

  /** A line rule: the work of the first qualifying line, or nothing. */
  function LineRule(v: PuzzleView, test: LineTest): (step: seq<Assign>)
    requires Wf(v)
  {
    match FirstLine(v, test)
    case None => []
    case Some(l) => LineWork(v, test, l)
  }

  /** A line rule does nothing exactly when no line qualifies. */
  lemma {:induction false} LineRuleNone(v: PuzzleView, test: LineTest)
    requires Wf(v)
    ensures LineRule(v, test) == [] <==>
              forall l :: ValidLine(v.numCols, v.numRows, l) ==> !Qualifies(v, test, l)
  {
    FirstLineFirst(v, test);
    if FirstLine(v, test).Some? {
      LineWorkIff(v, test, FirstLine(v, test).value);
    }
  }

  // ---------------------------------------------------------------------------------------
  // Rules 3 to 6: scans of every cell, columns outermost.

  /** A scan of every cell that finds nothing rules out every in-grid cell. */
  lemma {:induction false} ScanFindsNone(cols: int, rows: int, q: Cell --> bool)
    requires forall x :: InGridCell(cols, rows, x) ==> q.requires(x)
    requires forall j :: 0 <= j < |AllCells(cols, rows)| ==>
               InGridCell(cols, rows, AllCells(cols, rows)[j]) && !q(AllCells(cols, rows)[j])
    ensures forall y :: InGridCell(cols, rows, y) ==> !q(y)
  {
    var cells := AllCells(cols, rows);
    forall y | InGridCell(cols, rows, y) ensures !q(y) {
      var j :| 0 <= j < |cells| && cells[j] == y;
    }
  }

  /** The scan's first hit comes before, in column-major order, no other hit. */
  lemma {:induction false} ScanFindsFirst(cols: int, rows: int, q: Cell --> bool, i: nat)
    requires forall x :: InGridCell(cols, rows, x) ==> q.requires(x)
    requires i < |AllCells(cols, rows)|
    requires forall j :: 0 <= j < i ==>
               InGridCell(cols, rows, AllCells(cols, rows)[j]) && !q(AllCells(cols, rows)[j])
    ensures forall y :: InGridCell(cols, rows, y) && Before(y, AllCells(cols, rows)[i]) ==> !q(y)
  {
    var cells := AllCells(cols, rows);
    ColumnMajor(cols, rows);
    forall y | InGridCell(cols, rows, y) && Before(y, cells[i]) ensures !q(y) {
      var j :| 0 <= j < |cells| && cells[j] == y;
      assert j < i;
    }
  }

  /** The first in-grid cell satisfying `q`, scanning columns left to right and each column
      top to bottom: the nested `for c ... for r` loops that return on their first match. */
  function FirstCellWhere(cols: int, rows: int, q: Cell --> bool): (res: Option<Cell>)
    requires forall x :: InGridCell(cols, rows, x) ==> q.requires(x)
    ensures res.Some? ==> InGridCell(cols, rows, res.value) && q(res.value)
    ensures res.Some? ==> forall y :: InGridCell(cols, rows, y) && Before(y, res.value) ==> !q(y)
    ensures res.None? <==> forall y :: InGridCell(cols, rows, y) ==> !q(y)
  {
    var cells := AllCells(cols, rows);
    assert forall x :: x in cells ==> InGridCell(cols, rows, x);
    match FirstWhere(cells, q)
    case None =>
      ScanFindsNone(cols, rows, q);
      None
    case Some(i) =>
      assert cells[i] in cells;
      ScanFindsFirst(cols, rows, q, i);
      Some(cells[i])
  }

  /** `x` is occupied and in the grid: the `c > 0 and get_cell(c - 1, r).is_occupied()`
      tests of `solve_ship_state_updates`. */
  predicate OccupiedAt(v: PuzzleView, x: Cell)
    requires Wf(v)
  {
    InGridCell(v.numCols, v.numRows, x) && IsOccupied(v.curr[x.0][x.1])
  }

  /** The step from an end cell towards the rest of its ship. */
  function Toward(s: CellState): (int, int) {
    match s
    case OccupiedEndDown => (0, -1)
    case OccupiedEndUp => (0, 1)
    case OccupiedEndLeft => (1, 0)
    case _ => (-1, 0)
  }

  function Shift(x: Cell, d: (int, int)): Cell {
    (x.0 + d.0, x.1 + d.1)
  }

  /** The current states of in-grid `cells`, in order. */
  function StatesAt(v: PuzzleView, cells: seq<Cell>): (states: seq<CellState>)
    requires Wf(v) && forall y :: y in cells ==> InGridCell(v.numCols, v.numRows, y)
    ensures |states| == |cells|
    ensures forall i :: 0 <= i < |cells| ==>
              InGridCell(v.numCols, v.numRows, cells[i]) && states[i] == v.curr[cells[i].0][cells[i].1]
  {
    if cells == [] then []
    else
      assert cells[0] in cells && InGridCell(v.numCols, v.numRows, cells[0]);
      [v.curr[cells[0].0][cells[0].1]] + StatesAt(v, cells[1..])
  }

  /** The more specific state an `OccupiedUnknown` cell can be given from its in-grid
      orthogonal neighbours `ns`: `Whole` when all are water, `Mid` when two are occupied, and
      when exactly one is occupied and none unknown an end facing away from it, the
      neighbours tried left, up, right, down. */
  function RefineAmong(v: PuzzleView, x: Cell, ns: seq<Cell>): (r: Option<CellState>)
    requires Wf(v) && InGridCell(v.numCols, v.numRows, x)
    requires forall y :: y in ns ==> InGridCell(v.numCols, v.numRows, y)
    ensures r.Some? ==> IsOccupied(r.value) && r.value != OccupiedUnknown
  {
    var states := StatesAt(v, ns);
    var occupied := CountIf(states, IsOccupied);
    if CountIf(states, IsWater) == |states| then Some(OccupiedWhole)
    else if occupied == 2 then Some(OccupiedMid)
    else if occupied == 1 && CountIf(states, IsUnknown) == 0 then EndAmong(v, x)
    else None
  }

  /** The end state facing away from the first occupied orthogonal neighbour, tried left, up,
      right, down. */
  function EndAmong(v: PuzzleView, x: Cell): (r: Option<CellState>)
    requires Wf(v)
    ensures r.Some? ==> IsEnd(r.value)
  {
    if OccupiedAt(v, (x.0 - 1, x.1)) then Some(OccupiedEndRight)
    else if OccupiedAt(v, (x.0, x.1 - 1)) then Some(OccupiedEndDown)
    else if OccupiedAt(v, (x.0 + 1, x.1)) then Some(OccupiedEndLeft)
    else if OccupiedAt(v, (x.0, x.1 + 1)) then Some(OccupiedEndUp)
    else None
  }

  /** `RefineAmong` over `get_nondiagonal_neighbour_cells`. */
  function Refine(v: PuzzleView, x: Cell): Option<CellState>
    requires Wf(v) && InGridCell(v.numCols, v.numRows, x)
  {
    NondiagonalNeighbourList(v.numCols, v.numRows, x);
    RefineAmong(v, x, NondiagonalNeighbourCells(v.numCols, v.numRows, x.0, x.1))
  }

  /** The number of in-grid orthogonal neighbours of `x` that are occupied. */
  function OccupiedAround(v: PuzzleView, x: Cell): nat
    requires Wf(v) && InGridCell(v.numCols, v.numRows, x)
  {
    NondiagonalNeighbourList(v.numCols, v.numRows, x);
    CountIf(StatesAt(v, NondiagonalNeighbourCells(v.numCols, v.numRows, x.0, x.1)), IsOccupied)
  }

  /** Every in-grid orthogonal neighbour of `x` is water. */
  ghost predicate AllWaterAround(v: PuzzleView, x: Cell)
    requires Wf(v)
  {
    forall y :: Orthogonal(x, y) && InGridCell(v.numCols, v.numRows, y) ==> IsWater(v.curr[y.0][y.1])
  }

  /** No in-grid orthogonal neighbour of `x` is unknown. */
  ghost predicate NoUnknownAround(v: PuzzleView, x: Cell)
    requires Wf(v)
  {
    forall y :: Orthogonal(x, y) && InGridCell(v.numCols, v.numRows, y) ==> !IsUnknown(v.curr[y.0][y.1])
  }

  /** The `all(...)` scans of `solve_ship_state_updates` over the orthogonal neighbours: the
      water count is full, and the unknown and occupied counts are zero, exactly when every
      in-grid neighbour is water, none is unknown, and none is occupied. */
  lemma {:induction false} NeighbourScans(v: PuzzleView, x: Cell, ns: seq<Cell>)
    requires Wf(v) && InGridCell(v.numCols, v.numRows, x)
    requires OrthogonalList(v.numCols, v.numRows, x, ns)
    ensures CountIf(StatesAt(v, ns), IsWater) == |ns| <==> AllWaterAround(v, x)
    ensures CountIf(StatesAt(v, ns), IsUnknown) == 0 <==> NoUnknownAround(v, x)
    ensures CountIf(StatesAt(v, ns), IsOccupied) == 0 <==>
              forall y :: Orthogonal(x, y) && InGridCell(v.numCols, v.numRows, y) ==> !OccupiedAt(v, y)
  {
    var states := StatesAt(v, ns);
    CountIfAll(states, IsWater);
    CountIfNone(states, IsUnknown);
    CountIfNone(states, IsOccupied);
    assert forall i :: 0 <= i < |ns| ==> ns[i] in ns;
    forall y | Orthogonal(x, y) && InGridCell(v.numCols, v.numRows, y)
      ensures exists i :: 0 <= i < |ns| && ns[i] == y && states[i] == v.curr[y.0][y.1]
    {
      assert y in ns;
    }
  }

  /** With exactly one occupied in-grid orthogonal neighbour, that neighbour exists and is
      the only one. */
  lemma {:induction false} OneOccupiedNeighbour(v: PuzzleView, x: Cell, ns: seq<Cell>) returns (y: Cell)
    requires Wf(v) && InGridCell(v.numCols, v.numRows, x)
    requires OrthogonalList(v.numCols, v.numRows, x, ns)
    requires CountIf(StatesAt(v, ns), IsOccupied) == 1
    ensures Orthogonal(x, y) && OccupiedAt(v, y)
    ensures forall z :: Orthogonal(x, z) && z != y ==> !OccupiedAt(v, z)
  {
    var states := StatesAt(v, ns);
    CountIfNone(states, IsOccupied);
    var i :| 0 <= i < |ns| && IsOccupied(states[i]);
    y := ns[i];
    assert y in ns;
    forall z | Orthogonal(x, z) && z != y ensures !OccupiedAt(v, z) {
      if OccupiedAt(v, z) {
        assert z in ns;
        var j :| 0 <= j < |ns| && ns[j] == z;
        if i < j { CountIfTwo(states, IsOccupied, i, j); } else { CountIfTwo(states, IsOccupied, j, i); }
      }
    }
  }

  /** The end state of a cell whose ship continues into its orthogonal neighbour `y`. */
  function EndFacingAway(x: Cell, y: Cell): (e: CellState)
    requires Orthogonal(x, y)
    ensures IsEnd(e) && Shift(x, Toward(e)) == y
  {
    if y == (x.0 - 1, x.1) then OccupiedEndRight
    else if y == (x.0, x.1 - 1) then OccupiedEndDown
    else if y == (x.0 + 1, x.1) then OccupiedEndLeft
    else OccupiedEndUp
  }

  /** With one occupied orthogonal neighbour `y`, not all water and none unknown,
      `RefineAmong` gives the end facing away from `y`. */
  lemma {:induction false} RefineAmongEnd(v: PuzzleView, x: Cell, ns: seq<Cell>, y: Cell)
    requires Wf(v) && InGridCell(v.numCols, v.numRows, x)
    requires forall z :: z in ns ==> InGridCell(v.numCols, v.numRows, z)
    requires CountIf(StatesAt(v, ns), IsWater) != |ns| && CountIf(StatesAt(v, ns), IsOccupied) == 1
    requires CountIf(StatesAt(v, ns), IsUnknown) == 0
    requires Orthogonal(x, y) && OccupiedAt(v, y)
    requires forall z :: Orthogonal(x, z) && z != y ==> !OccupiedAt(v, z)
    ensures RefineAmong(v, x, ns) == Some(EndFacingAway(x, y))
  {
    EndAmongOnly(v, x, y);
  }

  /** With `y` the only occupied orthogonal neighbour, the end found faces away from `y`. */
  lemma {:induction false} EndAmongOnly(v: PuzzleView, x: Cell, y: Cell)
    requires Wf(v)
    requires Orthogonal(x, y) && OccupiedAt(v, y)
    requires forall z :: Orthogonal(x, z) && z != y ==> !OccupiedAt(v, z)
    ensures EndAmong(v, x) == Some(EndFacingAway(x, y))
  {
    var left, up, right := (x.0 - 1, x.1), (x.0, x.1 - 1), (x.0 + 1, x.1);
    if y == left {
    } else if y == up {
      assert !OccupiedAt(v, left);
    } else if y == right {
      assert !OccupiedAt(v, left) && !OccupiedAt(v, up);
    } else {
      assert !OccupiedAt(v, left) && !OccupiedAt(v, up) && !OccupiedAt(v, right);
    }
  }

  /** `RefineAmong` gives `Whole` exactly when every in-grid orthogonal neighbour is water,
      `Mid` exactly when not all are water and two are occupied, and an end exactly when not
      all are water, one is occupied and none is unknown; that end faces away from the one
      occupied neighbour, into which its ship continues. */
  lemma {:induction false} RefineAmongCases(v: PuzzleView, x: Cell, ns: seq<Cell>)
    requires Wf(v) && InGridCell(v.numCols, v.numRows, x)
    requires OrthogonalList(v.numCols, v.numRows, x, ns)
    ensures var res := RefineAmong(v, x, ns);
            var occupied := CountIf(StatesAt(v, ns), IsOccupied);
            (res == Some(OccupiedWhole) <==> AllWaterAround(v, x)) &&
            (res == Some(OccupiedMid) <==> !AllWaterAround(v, x) && occupied == 2) &&
            (res.Some? && IsEnd(res.value) <==>
               !AllWaterAround(v, x) && occupied == 1 && NoUnknownAround(v, x)) &&
            (res.Some? && IsEnd(res.value) ==>
               OccupiedAt(v, Shift(x, Toward(res.value))) &&
               forall y :: Orthogonal(x, y) && y != Shift(x, Toward(res.value)) ==> !OccupiedAt(v, y))
  {
    NeighbourScans(v, x, ns);
    RefineAmongEnds(v, x, ns);
  }

  /** `RefineAmong` gives an end exactly when not all neighbours are water, one is occupied
      and none is unknown, and that end faces the occupied one. */
  lemma {:induction false} RefineAmongEnds(v: PuzzleView, x: Cell, ns: seq<Cell>)
    requires Wf(v) && InGridCell(v.numCols, v.numRows, x)
    requires OrthogonalList(v.numCols, v.numRows, x, ns)
    ensures var res := RefineAmong(v, x, ns);
            var states := StatesAt(v, ns);
            (res.Some? && IsEnd(res.value) <==>
               CountIf(states, IsWater) != |ns| && CountIf(states, IsOccupied) == 1 &&
               CountIf(states, IsUnknown) == 0) &&
            (res.Some? && IsEnd(res.value) ==>
               OccupiedAt(v, Shift(x, Toward(res.value))) &&
               forall y :: Orthogonal(x, y) && y != Shift(x, Toward(res.value)) ==> !OccupiedAt(v, y))
  {
    var states := StatesAt(v, ns);
    if CountIf(states, IsWater) != |ns| && CountIf(states, IsOccupied) == 1 && CountIf(states, IsUnknown) == 0 {
      var y := OneOccupiedNeighbour(v, x, ns);
      RefineAmongEnd(v, x, ns, y);
    }
  }

  /** `solve_ship_state_updates`' cases: `Whole` exactly when every in-grid orthogonal
      neighbour is water, `Mid` exactly when not all are water and two are occupied, an end
      exactly when not all are water, one is occupied and none is unknown; an end faces away
      from the one occupied neighbour, into which its ship continues, and from no other. */
  lemma {:induction false} RefineCases(v: PuzzleView, x: Cell)
    requires Wf(v) && InGridCell(v.numCols, v.numRows, x)
    ensures Refine(v, x) == Some(OccupiedWhole) <==> AllWaterAround(v, x)
    ensures Refine(v, x) == Some(OccupiedMid) <==> !AllWaterAround(v, x) && OccupiedAround(v, x) == 2
    ensures Refine(v, x).Some? && IsEnd(Refine(v, x).value) <==>
              !AllWaterAround(v, x) && OccupiedAround(v, x) == 1 && NoUnknownAround(v, x)
    ensures Refine(v, x).Some? && IsEnd(Refine(v, x).value) ==>
              var d := Toward(Refine(v, x).value);
              OccupiedAt(v, Shift(x, d)) &&
              forall y :: Orthogonal(x, y) && y != Shift(x, d) ==> !OccupiedAt(v, y)
  {
    NondiagonalNeighbourList(v.numCols, v.numRows, x);
    RefineAmongCases(v, x, NondiagonalNeighbourCells(v.numCols, v.numRows, x.0, x.1));
  }

  /** `solve_ship_state_updates` at one cell: an `OccupiedUnknown` cell that `Refine` can
      settle gets that state. */
  function StateWork(v: PuzzleView, x: Cell): (step: seq<Assign>)
    requires Wf(v) && InGridCell(v.numCols, v.numRows, x)
  {
    if v.curr[x.0][x.1] != OccupiedUnknown then []
    else match Refine(v, x)
      case None => []
      case Some(s) => [Assign(x.0, x.1, s)]
  }

  /** `solve_ship_diagonals` at one cell: water on the unknown diagonal neighbours of an
      occupied cell. */
  function DiagonalWork(v: PuzzleView, x: Cell): (step: seq<Assign>)
    requires Wf(v) && InGridCell(v.numCols, v.numRows, x)
  {
    if !IsOccupied(v.curr[x.0][x.1]) then []
    else Fill(UnknownAmong(v, DiagonalNeighbourCells(v.numCols, v.numRows, x.0, x.1)), Water)
  }

  /** `solve_ship_1_around` at one cell: water on the unknown neighbours of a whole ship. */
  function AroundWork(v: PuzzleView, x: Cell): (step: seq<Assign>)
    requires Wf(v) && InGridCell(v.numCols, v.numRows, x)
  {
    if !IsWhole(v.curr[x.0][x.1]) then []
    else Fill(UnknownAmong(v, NeighbourCells(v.numCols, v.numRows, x.0, x.1)), Water)
  }

  /** `y` is behind or beside an end cell `x` in state `s`: where the end needs water. */
  predicate Flank(s: CellState, x: Cell, y: Cell) {
    var d := Toward(s);
    y == (x.0 - d.0, x.1 - d.1) || y == (x.0 + d.1, x.1 + d.0) || y == (x.0 - d.1, x.1 - d.0)
  }

  /** The three cells an end must have water on: the cell behind it and the two beside it
      (its flanks). Only which cells are listed matters to the callers. */
  function EndWaterCells(s: CellState, x: Cell): (cells: seq<Cell>)
    ensures |cells| == 3
    ensures forall y :: y in cells <==> Flank(s, x, y)
  {
    var (c, r) := x;
    match s
    case OccupiedEndDown => [(c, r + 1), (c + 1, r), (c - 1, r)]
    case OccupiedEndUp => [(c, r - 1), (c + 1, r), (c - 1, r)]
    case OccupiedEndLeft => [(c - 1, r), (c, r + 1), (c, r - 1)]
    case _ => [(c + 1, r), (c, r + 1), (c, r - 1)]
  }

  /** The end's water cells once `strip_out_of_bound_cells` has removed those off the grid. */
  lemma {:induction false} EndWaterList(cols: int, rows: int, s: CellState, x: Cell)
    ensures |StripOutOfBoundCells(cols, rows, EndWaterCells(s, x))| <= 3
    ensures forall y :: y in StripOutOfBoundCells(cols, rows, EndWaterCells(s, x)) <==>
              InGridCell(cols, rows, y) && Flank(s, x, y)
  {
  }

  /** The end rule's work at an end cell `x` whose in-grid flank cells are `flank`: water on
      those that are unknown, then `OccupiedUnknown` on the cell the ship continues into when
      that is in the grid and unknown. */
  function EndWorkAmong(v: PuzzleView, x: Cell, flank: seq<Cell>): (step: seq<Assign>)
    requires Wf(v) && InGridCell(v.numCols, v.numRows, x) && IsEnd(v.curr[x.0][x.1])
    requires forall y :: y in flank ==> InGridCell(v.numCols, v.numRows, y)
  {
    var water := Fill(UnknownAmong(v, flank), Water);
    var next := Shift(x, Toward(v.curr[x.0][x.1]));
    if InGridCell(v.numCols, v.numRows, next) && IsUnknown(v.curr[next.0][next.1]) then
      water + [Assign(next.0, next.1, OccupiedUnknown)]
    else water
  }

  /** `solve_ship_end_around` at one cell: nothing unless the cell is an end. */
  function EndWork(v: PuzzleView, x: Cell): (step: seq<Assign>)
    requires Wf(v) && InGridCell(v.numCols, v.numRows, x)
  {
    var s := v.curr[x.0][x.1];
    if !IsEnd(s) then []
    else
      EndWaterList(v.numCols, v.numRows, s, x);
      EndWorkAmong(v, x, StripOutOfBoundCells(v.numCols, v.numRows, EndWaterCells(s, x)))
  }

  /** Given its in-grid flank cells (at most three), an end's work is at most four
      assignments: water on exactly the unknown in-grid cells behind and beside it, and
      `OccupiedUnknown` on exactly the cell ahead when it is unknown and in the grid. */
  lemma {:induction false} EndWorkAmongIff(v: PuzzleView, x: Cell, flank: seq<Cell>)
    requires Wf(v) && InGridCell(v.numCols, v.numRows, x) && IsEnd(v.curr[x.0][x.1])
    requires |flank| <= 3
    requires forall y :: y in flank <==> InGridCell(v.numCols, v.numRows, y) && Flank(v.curr[x.0][x.1], x, y)
    ensures |EndWorkAmong(v, x, flank)| <= 4
    ensures forall a: Assign :: a in EndWorkAmong(v, x, flank) <==>
              InGrid(v.numCols, v.numRows, a.c, a.r) && IsUnknown(v.curr[a.c][a.r]) &&
              ((a.state == Water && Flank(v.curr[x.0][x.1], x, (a.c, a.r))) ||
               (a.state == OccupiedUnknown && (a.c, a.r) == Shift(x, Toward(v.curr[x.0][x.1]))))
  {
    var s := v.curr[x.0][x.1];
    var next := Shift(x, Toward(s));
    assert !Flank(s, x, next);
  }

  /** `solve_ship_end_around`'s work at an end: at most four assignments, water on exactly
      the unknown in-grid cells behind and beside it, and `OccupiedUnknown` on exactly the
      cell ahead when it is unknown and in the grid. */
  lemma {:induction false} EndWorkIff(v: PuzzleView, x: Cell)
    requires Wf(v) && InGridCell(v.numCols, v.numRows, x) && IsEnd(v.curr[x.0][x.1])
    ensures |EndWork(v, x)| <= 4
    ensures forall a: Assign :: a in EndWork(v, x) <==>
              InGrid(v.numCols, v.numRows, a.c, a.r) && IsUnknown(v.curr[a.c][a.r]) &&
              ((a.state == Water && Flank(v.curr[x.0][x.1], x, (a.c, a.r))) ||
               (a.state == OccupiedUnknown && (a.c, a.r) == Shift(x, Toward(v.curr[x.0][x.1]))))
  {
    var s := v.curr[x.0][x.1];
    EndWaterList(v.numCols, v.numRows, s, x);
    EndWorkAmongIff(v, x, StripOutOfBoundCells(v.numCols, v.numRows, EndWaterCells(s, x)));
  }

  /** The four scans over cells. */
  datatype CellRule = StateUpdates | Diagonals | OneAround | EndAround

  function CellWork(v: PuzzleView, rule: CellRule, x: Cell): seq<Assign>
    requires Wf(v) && InGridCell(v.numCols, v.numRows, x)
  {
    match rule
    case StateUpdates => StateWork(v, x)
    case Diagonals => DiagonalWork(v, x)
    case OneAround => AroundWork(v, x)
    case EndAround => EndWork(v, x)
  }

  /** A cell rule: the work at the first cell, in scan order, that has any. */
  function CellScan(v: PuzzleView, rule: CellRule): (step: seq<Assign>)
    requires Wf(v)
  {
    match FirstCellWhere(v.numCols, v.numRows, HasWork(v, rule))
    case None => []
    case Some(x) => CellWork(v, rule, x)
  }

  /** The test "the cell has work under `rule`" over the in-grid cells. */
  function HasWork(v: PuzzleView, rule: CellRule): (q: Cell --> bool)
    requires Wf(v)
    ensures forall x :: InGridCell(v.numCols, v.numRows, x) ==> q.requires(x)
    ensures forall x :: InGridCell(v.numCols, v.numRows, x) ==> (q(x) <==> CellWork(v, rule, x) != [])
  {
    (x: Cell) requires InGridCell(v.numCols, v.numRows, x) => CellWork(v, rule, x) != []
  }

  /** A cell rule does nothing exactly when no cell has work, and otherwise does the work of
      a cell before which no cell has any. */
  lemma {:induction false} CellScanFirst(v: PuzzleView, rule: CellRule)
    requires Wf(v)
    ensures CellScan(v, rule) == [] <==>
              forall y :: InGridCell(v.numCols, v.numRows, y) ==> CellWork(v, rule, y) == []
    ensures CellScan(v, rule) != [] ==>
              exists x :: InGridCell(v.numCols, v.numRows, x) && CellScan(v, rule) == CellWork(v, rule, x) &&
                forall y :: InGridCell(v.numCols, v.numRows, y) && Before(y, x) ==> CellWork(v, rule, y) == []
  {
    var first := FirstCellWhere(v.numCols, v.numRows, HasWork(v, rule));
    if first.Some? {
      var x := first.value;
      assert InGridCell(v.numCols, v.numRows, x) && CellScan(v, rule) == CellWork(v, rule, x);
    }
  }

  /** The state-update rule at one cell sets at most that cell, and only an `OccupiedUnknown`
      cell that `Refine` can settle, to the settled occupied state. */
  lemma {:induction false} StateWorkIff(v: PuzzleView, x: Cell)
    requires Wf(v) && InGridCell(v.numCols, v.numRows, x)
    ensures StateWork(v, x) != [] <==> v.curr[x.0][x.1] == OccupiedUnknown && Refine(v, x).Some?
    ensures StateWork(v, x) != [] ==>
              StateWork(v, x) == [Assign(x.0, x.1, Refine(v, x).value)] &&
              IsOccupied(Refine(v, x).value) && Refine(v, x).value != OccupiedUnknown
  {
  }

  /** The diagonal rule at one cell: water on exactly the unknown in-grid diagonal neighbours
      of an occupied cell. */
  lemma {:induction false} DiagonalWorkIff(v: PuzzleView, x: Cell)
    requires Wf(v) && InGridCell(v.numCols, v.numRows, x)
    ensures forall a: Assign :: a in DiagonalWork(v, x) <==>
              IsOccupied(v.curr[x.0][x.1]) && a.state == Water &&
              InGrid(v.numCols, v.numRows, a.c, a.r) && IsUnknown(v.curr[a.c][a.r]) &&
              (a.c == x.0 - 1 || a.c == x.0 + 1) && (a.r == x.1 - 1 || a.r == x.1 + 1)
  {
  }

  /** The one-ship rule at one cell: water on exactly the unknown in-grid cells around a
      whole ship. */
  lemma {:induction false} AroundWorkIff(v: PuzzleView, x: Cell)
    requires Wf(v) && InGridCell(v.numCols, v.numRows, x)
    ensures forall a: Assign :: a in AroundWork(v, x) <==>
              IsWhole(v.curr[x.0][x.1]) && a.state == Water &&
              InGrid(v.numCols, v.numRows, a.c, a.r) && IsUnknown(v.curr[a.c][a.r]) &&
              Near((a.c, a.r), x.0, x.1)
  {
  }

  // ---------------------------------------------------------------------------------------
  // Rule 7: a ship length with as many possible positions as ships.

  /** The placements at `(c, r)` passing `q`, row-aligned first: the innermost
      `for direction in [True, False]` loop. */
  function PlacementsAt(c: int, r: int, q: Placement -> bool): (ps: seq<Placement>)
  {
    (if q(Placement(c, r, true)) then [Placement(c, r, true)] else []) +
    (if q(Placement(c, r, false)) then [Placement(c, r, false)] else [])
  }

  /** The placements passing `q` in column `c` starting in rows before `r`. */
  function ColumnPlacements(c: int, r: nat, q: Placement -> bool): (ps: seq<Placement>)
  {
    if r == 0 then [] else ColumnPlacements(c, r - 1, q) + PlacementsAt(c, r - 1, q)
  }

  /** The placements passing `q` starting in columns before `c` of a grid with `rows` rows,
      column by column. */
  function PlacementsBefore(rows: nat, c: nat, q: Placement -> bool): (ps: seq<Placement>)
  {
    if c == 0 then [] else PlacementsBefore(rows, c - 1, q) + ColumnPlacements(c - 1, rows, q)
  }

  lemma {:induction false} PlacementsAtHas(c: int, r: int, q: Placement -> bool, p: Placement)
    ensures p in PlacementsAt(c, r, q) <==> p.col == c && p.row == r && q(p)
  {
    if p.col == c && p.row == r {
      assert p == Placement(c, r, p.rowAligned);
    }
  }

  lemma {:induction false} ColumnPlacementsHas(c: int, r: nat, q: Placement -> bool, p: Placement)
    ensures p in ColumnPlacements(c, r, q) <==> p.col == c && 0 <= p.row < r && q(p)
  {
    if r > 0 {
      ColumnPlacementsHas(c, r - 1, q, p);
      PlacementsAtHas(c, r - 1, q, p);
    }
  }

  lemma {:induction false} AppendHas(a: seq<Placement>, b: seq<Placement>, p: Placement)
    ensures p in a + b <==> p in a || p in b
  {
  }

  lemma {:induction false} BeforeStep(rows: nat, c: nat, q: Placement -> bool, p: Placement)
    requires c > 0
    requires p in PlacementsBefore(rows, c - 1, q) <==> 0 <= p.col < c - 1 && 0 <= p.row < rows && q(p)
    ensures p in PlacementsBefore(rows, c, q) <==> 0 <= p.col < c && 0 <= p.row < rows && q(p)
  {
    ColumnPlacementsHas(c - 1, rows, q, p);
    AppendHas(PlacementsBefore(rows, c - 1, q), ColumnPlacements(c - 1, rows, q), p);
  }

  /** The scan lists a placement exactly when it starts in the scanned columns and passes
      `q`. */
  lemma {:induction false} PlacementsBeforeHas(rows: nat, c: nat, q: Placement -> bool, p: Placement)
    ensures p in PlacementsBefore(rows, c, q) <==> 0 <= p.col < c && 0 <= p.row < rows && q(p)
  {
    if c > 0 {
      PlacementsBeforeHas(rows, c - 1, q, p);
      BeforeStep(rows, c, q, p);
    }
  }


  /** `can_place_ship` as a total test. */
  predicate Placeable(v: PuzzleView, len: int, p: Placement)
  {
    Wf(v) && 1 <= len && CanPlaceShip(v, len, p)
  }

  function PlaceableTest(v: PuzzleView, len: int): Placement -> bool
  {
    p => Placeable(v, len, p)
  }

  /** The list `calculate_ship_possibles` builds for one ship length: every start cell in
      column-major order, row-aligned before column-aligned. */
  function Candidates(v: PuzzleView, len: int): (ps: seq<Placement>)
    requires Wf(v)
  {
    PlacementsBefore(v.numRows, v.numCols, PlaceableTest(v, len))
  }

  /** The possible positions of a ship length are exactly the placements `can_place_ship`
      accepts: each lies in the grid, on a line whose target is at least the length, on no
      water and touching no occupied cell. */
  lemma {:induction false} CandidatesIff(v: PuzzleView, len: int)
    requires Wf(v) && 1 <= len
    ensures forall p :: p in Candidates(v, len) <==> CanPlaceShip(v, len, p)
    ensures forall p :: p in Candidates(v, len) ==>
              Fits(v.numCols, v.numRows, len, p) && LineTarget(v, p) >= len &&
              ShipDry(v, len, p) && ShipClear(v, len, p)
  {
    forall p ensures p in Candidates(v, len) <==> CanPlaceShip(v, len, p) {
      PlacementsBeforeHas(v.numRows, v.numCols, PlaceableTest(v, len), p);
      if CanPlaceShip(v, len, p) {
        CanPlaceShipIff(v, len, p);
      }
    }
    forall p | p in Candidates(v, len)
      ensures Fits(v.numCols, v.numRows, len, p) && LineTarget(v, p) >= len &&
              ShipDry(v, len, p) && ShipClear(v, len, p)
    {
      CanPlaceShipIff(v, len, p);
    }
  }

  /** The possible positions of every ship length, keyed by length. */
  function CandidateMap(v: PuzzleView, modes: seq<int>): (m: map<int, seq<Placement>>)
    requires Wf(v)
    ensures forall len :: len in m <==> len in modes
    ensures forall len :: len in m ==> m[len] == Candidates(v, len)
  {
    map len | len in modes :: Candidates(v, len)
  }

  /** Some cell of the ship at `p` is currently unknown. */
  predicate HasUnknownCell(v: PuzzleView, len: int, p: Placement)
    requires Wf(v) && 1 <= len && Fits(v.numCols, v.numRows, len, p)
  {
    UnknownAmong(v, ShipCells(v.numCols, v.numRows, len, p).value) != []
  }

  /** Every possible position lies in the grid, so its cells can be listed. */
  ghost predicate PossiblesFit(v: PuzzleView, modes: seq<int>, counts: map<int, int>,
                               possibles: map<int, seq<Placement>>)
    requires Wf(v)
  {
    forall len :: len in modes ==>
      1 <= len && len in counts && len in possibles &&
      forall p :: p in possibles[len] ==> Fits(v.numCols, v.numRows, len, p)
  }

  /** `solve_place_large_ship`'s choice: for the first length (in `modes` order) whose number
      of possible positions equals its number of ships, the first of those positions with an
      unknown cell; lengths where none has one are passed over. */
  function ForcedShip(v: PuzzleView, modes: seq<int>, counts: map<int, int>,
                      possibles: map<int, seq<Placement>>): (res: Option<(int, Placement)>)
    requires Wf(v) && PossiblesFit(v, modes, counts, possibles)
    ensures res.Some? ==> res.value.0 in modes && res.value.0 in counts && res.value.0 in possibles
    ensures res.Some? ==> res.value.1 in possibles[res.value.0]
    ensures res.Some? ==> |possibles[res.value.0]| == counts[res.value.0]
    ensures res.Some? ==> HasUnknownCell(v, res.value.0, res.value.1)
    ensures res.None? <==> forall len :: len in modes && |possibles[len]| == counts[len] ==>
              forall p :: p in possibles[len] ==> !HasUnknownCell(v, len, p)
  {
    if modes == [] then None
    else
      var len := modes[0];
      var ps := possibles[len];
      var rest := ForcedShip(v, modes[1..], counts, possibles);
      var pick := FirstWhere(ps, (p: Placement) requires p in ps => HasUnknownCell(v, len, p));
      if |ps| == counts[len] && pick.Some? then
        assert ps[pick.value] in ps;
        Some((len, ps[pick.value]))
      else
        assert forall p :: p in ps && |ps| == counts[len] ==> !HasUnknownCell(v, len, p) by {
          forall p | p in ps && |ps| == counts[len] ensures !HasUnknownCell(v, len, p) {
            var i :| 0 <= i < |ps| && ps[i] == p;
          }
        }
        assert forall l :: l in modes ==> l == len || l in modes[1..];
        rest
  }

  /** Rule 7 applies to length `len`: its possible positions number its ships and one of
      them still has an unknown cell. */
  predicate Forcing(v: PuzzleView, len: int, counts: map<int, int>,
                    possibles: map<int, seq<Placement>>)
    requires Wf(v)
  {
    1 <= len && len in counts && len in possibles &&
    (forall p :: p in possibles[len] ==> Fits(v.numCols, v.numRows, len, p)) &&
    |possibles[len]| == counts[len] && exists p :: p in possibles[len] && HasUnknownCell(v, len, p)
  }

  /** One step of the choice: the first length is chosen when rule 7 applies to it, and is
      passed over otherwise. */
  lemma {:induction false} ForcedShipHead(v: PuzzleView, modes: seq<int>, counts: map<int, int>,
                                          possibles: map<int, seq<Placement>>)
    requires Wf(v) && PossiblesFit(v, modes, counts, possibles) && modes != []
    ensures PossiblesFit(v, modes[1..], counts, possibles)
    ensures Forcing(v, modes[0], counts, possibles) ==>
              ForcedShip(v, modes, counts, possibles).Some? &&
              ForcedShip(v, modes, counts, possibles).value.0 == modes[0]
    ensures !Forcing(v, modes[0], counts, possibles) ==>
              ForcedShip(v, modes, counts, possibles) == ForcedShip(v, modes[1..], counts, possibles)
  {
    assert forall l :: l in modes[1..] ==> l in modes;
    var len := modes[0];
    var ps := possibles[len];
    var pick := FirstWhere(ps, (p: Placement) requires p in ps => HasUnknownCell(v, len, p));
    if pick.Some? {
      assert ps[pick.value] in ps;
    } else {
      forall p | p in ps ensures !HasUnknownCell(v, len, p) {
        var i :| 0 <= i < |ps| && ps[i] == p;
      }
    }
    assert Forcing(v, len, counts, possibles) <==> |ps| == counts[len] && pick.Some?;
  }

  /** The forced ship's length is the first of `modes` to which rule 7 applies. */
  lemma {:induction false} ForcedShipFirst(v: PuzzleView, modes: seq<int>, counts: map<int, int>,
                                           possibles: map<int, seq<Placement>>)
    requires Wf(v) && PossiblesFit(v, modes, counts, possibles)
    ensures var res := ForcedShip(v, modes, counts, possibles);
            res.Some? ==>
              exists i :: 0 <= i < |modes| && modes[i] == res.value.0 &&
                forall j :: 0 <= j < i ==> !Forcing(v, modes[j], counts, possibles)
    decreases |modes|
  {
    var res := ForcedShip(v, modes, counts, possibles);
    if modes != [] {
      ForcedShipHead(v, modes, counts, possibles);
      if !Forcing(v, modes[0], counts, possibles) {
        ForcedShipFirst(v, modes[1..], counts, possibles);
        assert res == ForcedShip(v, modes[1..], counts, possibles);
        if res.Some? {
          var i :| 0 <= i < |modes[1..]| && modes[1..][i] == res.value.0 &&
                   forall j :: 0 <= j < i ==> !Forcing(v, modes[1..][j], counts, possibles);
          assert modes[i + 1] == res.value.0;
          NoneForcingShift(v, modes, counts, possibles, i);
        }
      }
    }
  }

  /** A length passed over, followed by `i` more, makes `i + 1` lengths passed over. */
  lemma {:induction false} NoneForcingShift(v: PuzzleView, modes: seq<int>, counts: map<int, int>,
                                            possibles: map<int, seq<Placement>>, i: nat)
    requires Wf(v) && i < |modes| && !Forcing(v, modes[0], counts, possibles)
    requires forall j :: 0 <= j < i ==> !Forcing(v, modes[1..][j], counts, possibles)
    ensures forall j :: 0 <= j < i + 1 ==> !Forcing(v, modes[j], counts, possibles)
  {
    forall j | 0 <= j < i + 1 ensures !Forcing(v, modes[j], counts, possibles) {
      if j > 0 {
        assert modes[j] == modes[1..][j - 1];
      }
    }
  }

  /** The forced ship's position is the first of its length's possible positions with an
      unknown cell. */
  lemma {:induction false} ForcedShipFirstPosition(v: PuzzleView, modes: seq<int>, counts: map<int, int>,
                                                   possibles: map<int, seq<Placement>>)
    requires Wf(v) && PossiblesFit(v, modes, counts, possibles)
    ensures var res := ForcedShip(v, modes, counts, possibles);
            res.Some? ==>
              exists k :: 0 <= k < |possibles[res.value.0]| && possibles[res.value.0][k] == res.value.1 &&
                forall k' :: 0 <= k' < k ==> !HasUnknownCell(v, res.value.0, possibles[res.value.0][k'])
    decreases |modes|
  {
    if modes != [] {
      var len := modes[0];
      var ps := possibles[len];
      var pick := FirstWhere(ps, (p: Placement) requires p in ps => HasUnknownCell(v, len, p));
      if !(|ps| == counts[len] && pick.Some?) {
        assert PossiblesFit(v, modes[1..], counts, possibles) by {
          assert forall l :: l in modes[1..] ==> l in modes;
        }
        ForcedShipFirstPosition(v, modes[1..], counts, possibles);
      }
    }
  }

  /** `solve_place_large_ship`: `OccupiedUnknown` on every cell of the forced ship,
      already-occupied cells included. */
  function ForcedShipStep(v: PuzzleView, modes: seq<int>, counts: map<int, int>,
                          possibles: map<int, seq<Placement>>): (step: seq<Assign>)
    requires Wf(v) && PossiblesFit(v, modes, counts, possibles)
  {
    match ForcedShip(v, modes, counts, possibles)
    case None => []
    case Some((len, p)) => Fill(ShipCells(v.numCols, v.numRows, len, p).value, OccupiedUnknown)
  }

  /** The forced-ship rule sets exactly the cells of one ship to `OccupiedUnknown`: a ship of
      a length whose possible positions number its ships, at one of those positions, with an
      unknown cell. */
  lemma {:induction false} ForcedShipStepIff(v: PuzzleView, modes: seq<int>, counts: map<int, int>,
                          possibles: map<int, seq<Placement>>)
    requires Wf(v) && PossiblesFit(v, modes, counts, possibles)
    ensures ForcedShipStep(v, modes, counts, possibles) == [] <==>
              ForcedShip(v, modes, counts, possibles).None?
    ensures ForcedShipStep(v, modes, counts, possibles) != [] ==>
              var (len, p) := ForcedShip(v, modes, counts, possibles).value;
              forall a: Assign :: a in ForcedShipStep(v, modes, counts, possibles) <==>
                a.state == OccupiedUnknown && OnShip(len, p, (a.c, a.r))
  {
  }

  /** Taking one more length of the list adds its possible positions to the map. */
  lemma {:induction false} CandidateMapAdd(v: PuzzleView, modes: seq<int>, k: nat)
    requires Wf(v) && k < |modes|
    ensures CandidateMap(v, modes[..k + 1]) == CandidateMap(v, modes[..k])[modes[k] := Candidates(v, modes[k])]
  {
    assert modes[..k + 1] == modes[..k] + [modes[k]];
    assert forall l :: l in modes[..k + 1] <==> l in modes[..k] || l == modes[k];
  }

  /** Every possible position of a candidate map lies in the grid. */
  lemma {:induction false} CandidateMapFits(v: PuzzleView, modes: seq<int>, counts: map<int, int>)
    requires Wf(v) && forall len :: len in modes ==> 1 <= len && len in counts
    ensures PossiblesFit(v, modes, counts, CandidateMap(v, modes))
  {
    forall len | len in modes
      ensures forall p :: p in CandidateMap(v, modes)[len] ==> Fits(v.numCols, v.numRows, len, p)
    {
      CandidatesIff(v, len);
    }
  }

  // ---------------------------------------------------------------------------------------
  // One solver step: the rules in the order `solve_step` tries them.

  datatype Rule =
    | OccupiedTotalReached  // solve_line_occupied_total_reached
    | UnknownsTotalReached  // solve_line_unknowns_total_reached
    | ShipStateUpdates      // solve_ship_state_updates
    | ShipDiagonals         // solve_ship_diagonals
    | ShipOneAround         // solve_ship_1_around
    | ShipEndAround         // solve_ship_end_around
    | PlaceLargeShip        // solve_place_large_ship

  /** The position of a rule in `solve_step`'s order. */
  function Rank(rule: Rule): nat {
    match rule
    case OccupiedTotalReached => 0
    case UnknownsTotalReached => 1
    case ShipStateUpdates => 2
    case ShipDiagonals => 3
    case ShipOneAround => 4
    case ShipEndAround => 5
    case PlaceLargeShip => 6
  }

  /** What a step reports in place of the source's description text. */
  datatype Verdict = Invalid | Solved | Applied(rule: Rule) | NoneFound

  /** `PuzzleSolveStep`: a description and the cells to set, in order. */
  datatype PuzzleSolveStep = PuzzleSolveStep(verdict: Verdict, cells: seq<Assign>)

  /** The lengths and counts `solve_step` may be run with: each length positive and counted. */
  predicate Bookkept(modes: seq<int>, counts: map<int, int>) {
    forall len :: len in modes ==> 1 <= len && len in counts
  }

  /** The cells one rule proposes; the forced-ship rule reads the possible positions of
      `calculate_ship_possibles`, which `solve_step` recomputes just before it. */
  function RuleStep(v: PuzzleView, modes: seq<int>, counts: map<int, int>, rule: Rule): (step: seq<Assign>)
    requires Wf(v) && Bookkept(modes, counts)
  {
    match rule
    case OccupiedTotalReached => LineRule(v, TotalReached)
    case UnknownsTotalReached => LineRule(v, UnknownsReach)
    case ShipStateUpdates => CellScan(v, StateUpdates)
    case ShipDiagonals => CellScan(v, Diagonals)
    case ShipOneAround => CellScan(v, OneAround)
    case ShipEndAround => CellScan(v, EndAround)
    case PlaceLargeShip =>
      CandidateMapFits(v, modes, counts);
      ForcedShipStep(v, modes, counts, CandidateMap(v, modes))
  }

  /** The rule at a position of `solve_step`'s order. */
  function RuleAt(i: nat): (rule: Rule)
    requires i < 7
    ensures Rank(rule) == i
  {
    [OccupiedTotalReached, UnknownsTotalReached, ShipStateUpdates, ShipDiagonals,
     ShipOneAround, ShipEndAround, PlaceLargeShip][i]
  }

  /** The first rule from position `i` on with cells to set. */
  function FirstRuleFrom(v: PuzzleView, modes: seq<int>, counts: map<int, int>, i: nat): (res: Option<Rule>)
    requires Wf(v) && Bookkept(modes, counts) && i <= 7
    ensures res.Some? ==> i <= Rank(res.value) && RuleStep(v, modes, counts, res.value) != []
    ensures res.Some? ==> forall rule :: i <= Rank(rule) < Rank(res.value) ==> RuleStep(v, modes, counts, rule) == []
    ensures res.None? ==> forall rule :: i <= Rank(rule) ==> RuleStep(v, modes, counts, rule) == []
    decreases 7 - i
  {
    if i == 7 then None
    else
      var rule := RuleAt(i);
      assert forall r: Rule :: Rank(r) == i ==> r == rule;
      if RuleStep(v, modes, counts, rule) != [] then Some(rule)
      else FirstRuleFrom(v, modes, counts, i + 1)
  }

  /** One position of the search: the rule there if it has cells to set, else the rest. */
  lemma {:induction false} FirstRuleAtStep(v: PuzzleView, modes: seq<int>, counts: map<int, int>, i: nat)
    requires Wf(v) && Bookkept(modes, counts) && i < 7
    ensures FirstRuleFrom(v, modes, counts, i) ==
              if RuleStep(v, modes, counts, RuleAt(i)) != [] then Some(RuleAt(i))
              else FirstRuleFrom(v, modes, counts, i + 1)
  {
  }

  /** `solve_step` gets as far as the forced-ship rule, recomputing the possible positions:
      the puzzle is valid and unsolved and no earlier rule has cells to set. */
  predicate ReachesForcedShip(v: PuzzleView, modes: seq<int>, counts: map<int, int>)
    requires Wf(v) && Bookkept(modes, counts)
  {
    IsValid(v) && !IsSolved(v) &&
    var first := FirstRuleFrom(v, modes, counts, 0);
    first.None? || first == Some(PlaceLargeShip)
  }

  /** Every rule but the forced-ship one comes before it. */
  lemma {:induction false} RankBelowLarge(rule: Rule)
    requires rule != PlaceLargeShip
    ensures Rank(rule) < Rank(PlaceLargeShip)
  {
  }

  lemma {:induction false} ReachesForcedShipIff(v: PuzzleView, modes: seq<int>, counts: map<int, int>)
    requires Wf(v) && Bookkept(modes, counts)
    ensures ReachesForcedShip(v, modes, counts) <==>
              IsValid(v) && !IsSolved(v) &&
              forall rule :: Rank(rule) < Rank(PlaceLargeShip) ==> RuleStep(v, modes, counts, rule) == []
  {
    var first := FirstRuleFrom(v, modes, counts, 0);
    if first.Some? && first != Some(PlaceLargeShip) {
      RankBelowLarge(first.value);
    }
  }

  /** `solve_step`: an invalid puzzle, a solved puzzle, else the first rule with cells to set,
      else none found. */
  function NextStep(v: PuzzleView, modes: seq<int>, counts: map<int, int>): (step: PuzzleSolveStep)
    requires Wf(v) && Bookkept(modes, counts)
  {
    if !IsValid(v) then PuzzleSolveStep(Invalid, [])
    else if IsSolved(v) then PuzzleSolveStep(Solved, [])
    else match FirstRuleFrom(v, modes, counts, 0)
      case Some(rule) => PuzzleSolveStep(Applied(rule), RuleStep(v, modes, counts, rule))
      case None => PuzzleSolveStep(NoneFound, [])
  }

  /** The step of a valid, unsolved puzzle follows the first rule with cells to set. */
  lemma {:induction false} NextStepOfFirst(v: PuzzleView, modes: seq<int>, counts: map<int, int>)
    requires Wf(v) && Bookkept(modes, counts) && IsValid(v) && !IsSolved(v)
    ensures var first := FirstRuleFrom(v, modes, counts, 0);
      NextStep(v, modes, counts) ==
        if first.Some? then PuzzleSolveStep(Applied(first.value), RuleStep(v, modes, counts, first.value))
        else PuzzleSolveStep(NoneFound, [])
  {
  }

  /** A step sets cells exactly when it applies a rule; it applies the first rule, in
      `solve_step`'s order, with cells to set, and reports none found only when no rule has
      any; the puzzle's validity and solvedness come first. */
  lemma {:induction false} NextStepFirst(v: PuzzleView, modes: seq<int>, counts: map<int, int>)
    requires Wf(v) && Bookkept(modes, counts)
    ensures var step := NextStep(v, modes, counts);
      (step.verdict == Invalid <==> !IsValid(v)) &&
      (step.verdict == Solved <==> IsValid(v) && IsSolved(v)) &&
      (step.cells != [] <==> step.verdict.Applied?) &&
      (step.verdict.Applied? ==>
         IsValid(v) && !IsSolved(v) &&
         step.cells == RuleStep(v, modes, counts, step.verdict.rule) &&
         forall rule :: Rank(rule) < Rank(step.verdict.rule) ==> RuleStep(v, modes, counts, rule) == []) &&
      (step.verdict == NoneFound <==>
         IsValid(v) && !IsSolved(v) && forall rule :: RuleStep(v, modes, counts, rule) == [])
  {
  }

  /** Every cell a step names is in the grid and either unknown or an `OccupiedUnknown` cell
      given an occupied state: a step `set_cell` accepts on any puzzle whose current grid
      agrees with its known one. */
  ghost predicate OnOpenCells(v: PuzzleView, cells: seq<Assign>)
    requires Wf(v)
  {
    forall a :: a in cells ==>
      InGrid(v.numCols, v.numRows, a.c, a.r) &&
      (IsUnknown(v.curr[a.c][a.r]) || (v.curr[a.c][a.r] == OccupiedUnknown && IsOccupied(a.state)))
  }

  /** No rule ever writes `Unknown`: each assignment settles its cell at least to water or
      to an occupied state. */
  predicate SetsKnown(cells: seq<Assign>) {
    forall a :: a in cells ==> !IsUnknown(a.state)
  }

  /** A line rule sets only unknown in-grid cells, each to the rule's state; so its steps are
      on open cells. */
  lemma {:induction false} LineRuleOpen(v: PuzzleView, test: LineTest)
    requires Wf(v)
    ensures forall a :: a in LineRule(v, test) ==>
              InGrid(v.numCols, v.numRows, a.c, a.r) && IsUnknown(v.curr[a.c][a.r]) &&
              a.state == LineState(test)
    ensures OnOpenCells(v, LineRule(v, test))
  {
    if FirstLine(v, test).Some? {
      FirstLineFirst(v, test);
      LineWorkIff(v, test, FirstLine(v, test).value);
    }
  }

  lemma {:induction false} CellWorkOpen(v: PuzzleView, rule: CellRule, x: Cell)
    requires Wf(v) && InGridCell(v.numCols, v.numRows, x)
    ensures OnOpenCells(v, CellWork(v, rule, x))
    ensures SetsKnown(CellWork(v, rule, x))
  {
    match rule
    case StateUpdates =>
      StateWorkIff(v, x);
    case Diagonals =>
      DiagonalWorkIff(v, x);
    case OneAround =>
      AroundWorkIff(v, x);
    case EndAround =>
      if IsEnd(v.curr[x.0][x.1]) {
        EndWorkIff(v, x);
      }
  }

  lemma {:induction false} CellScanOpen(v: PuzzleView, rule: CellRule)
    requires Wf(v)
    ensures OnOpenCells(v, CellScan(v, rule))
    ensures SetsKnown(CellScan(v, rule))
  {
    CellScanFirst(v, rule);
    if CellScan(v, rule) != [] {
      var x :| InGridCell(v.numCols, v.numRows, x) && CellScan(v, rule) == CellWork(v, rule, x);
      CellWorkOpen(v, rule, x);
    }
  }

  /** The first six rules only set open cells; the forced-ship rule may name any cell of its
      ship, settled ones included. */
  lemma {:induction false} RuleStepOpen(v: PuzzleView, modes: seq<int>, counts: map<int, int>, rule: Rule)
    requires Wf(v) && Bookkept(modes, counts) && rule != PlaceLargeShip
    ensures OnOpenCells(v, RuleStep(v, modes, counts, rule))
  {
    match rule
    case OccupiedTotalReached => LineRuleOpen(v, TotalReached);
    case UnknownsTotalReached => LineRuleOpen(v, UnknownsReach);
    case ShipStateUpdates => CellScanOpen(v, StateUpdates);
    case ShipDiagonals => CellScanOpen(v, Diagonals);
    case ShipOneAround => CellScanOpen(v, OneAround);
    case ShipEndAround => CellScanOpen(v, EndAround);
  }

  /** Every rule, the forced-ship one included, proposes only known states. */
  lemma {:induction false} RuleStepKnown(v: PuzzleView, modes: seq<int>, counts: map<int, int>, rule: Rule)
    requires Wf(v) && Bookkept(modes, counts)
    ensures SetsKnown(RuleStep(v, modes, counts, rule))
  {
    match rule
    case OccupiedTotalReached => LineRuleOpen(v, TotalReached);
    case UnknownsTotalReached => LineRuleOpen(v, UnknownsReach);
    case ShipStateUpdates => CellScanOpen(v, StateUpdates);
    case ShipDiagonals => CellScanOpen(v, Diagonals);
    case ShipOneAround => CellScanOpen(v, OneAround);
    case ShipEndAround => CellScanOpen(v, EndAround);
    case PlaceLargeShip =>
      CandidateMapFits(v, modes, counts);
      ForcedShipStepIff(v, modes, counts, CandidateMap(v, modes));
  }
}
