/** `Puzzle.__init__` and `set_cell` (puzzle.py): the argument checks in the order the
    constructor makes them, the solution grid built ship by ship on a `CellGrid`, the water
    fill, the derived line sums, the check of the known grid against the solution, and the
    guarded write to the current grid. */
module Puzzles {
  import opened Wrappers
  import opened CellStates
  import opened Seqs
  import opened Grids
  import opened Geometry
  import opened PuzzleQueries
  import opened Solutions

  /** A `CellGrid` argument as a value: its own dimensions and contents. */
  datatype GridInput = GridInput(numCols: int, numRows: int, board: Board) {
    /** What every `CellGrid` satisfies: its constructor accepted the dimensions. */
    predicate Wf() {
      1 <= numCols && 1 <= numRows && Shaped(board, numCols, numRows)
    }
  }

  predicate InputsWf(known: Option<GridInput>, curr: Option<GridInput>) {
    (known.Some? ==> known.value.Wf()) && (curr.Some? ==> curr.value.Wf())
  }

  /** The arguments the constructor accepts before it looks at the ships' positions. */
  predicate Acceptable(cols: int, rows: int, lens: seq<int>, colSums: Option<seq<int>>, rowSums: Option<seq<int>>,
                       known: Option<GridInput>, curr: Option<GridInput>, ships: Option<seq<Placement>>)
  {
    1 <= cols && 1 <= rows &&
    (forall i :: 0 <= i < |lens| ==> 1 <= lens[i]) &&
    (known.Some? ==> known.value.numCols == cols && known.value.numRows == rows) &&
    (curr.Some? ==> curr.value.numCols == cols && curr.value.numRows == rows) &&
    colSums.Some? != ships.Some? && rowSums.Some? != ships.Some? &&
    (ships.Some? ==> |ships.value| == |lens|) &&
    (colSums.Some? ==> |colSums.value| == cols && forall c :: 0 <= c < cols ==> 0 <= colSums.value[c]) &&
    (rowSums.Some? ==> |rowSums.value| == rows && forall r :: 0 <= r < rows ==> 0 <= rowSums.value[r])
  }

  /** The argument checks of puzzle.py:138-183, in order; the first that fails names the
      error. */
  function Validate(cols: int, rows: int, lens: seq<int>, colSums: Option<seq<int>>, rowSums: Option<seq<int>>,
                    known: Option<GridInput>, curr: Option<GridInput>, ships: Option<seq<Placement>>): (out: Outcome<Error>)
    ensures out.Pass? <==> Acceptable(cols, rows, lens, colSums, rowSums, known, curr, ships)
    ensures out == Fail(BadDimensions) <==> cols < 1 || rows < 1
    ensures out == Fail(BadShipLength) ==> exists i :: 0 <= i < |lens| && lens[i] < 1
    ensures out == Fail(KnownGridSize) ==>
              known.Some? && (known.value.numCols != cols || known.value.numRows != rows)
    ensures out == Fail(CurrGridSize) ==>
              curr.Some? && (curr.value.numCols != cols || curr.value.numRows != rows)
    ensures out == Fail(ColSumsOrSolution) ==> colSums.Some? == ships.Some?
    ensures out == Fail(RowSumsOrSolution) ==> rowSums.Some? == ships.Some?
    ensures out == Fail(SolutionShipsSize) ==> ships.Some? && |ships.value| != |lens|
    ensures out == Fail(ColSumsSize) ==> colSums.Some? && |colSums.value| != cols
    ensures out == Fail(ColSumsNegative) ==> colSums.Some? && exists c :: 0 <= c < |colSums.value| && colSums.value[c] < 0
    ensures out == Fail(RowSumsSize) ==> rowSums.Some? && |rowSums.value| != rows
    ensures out == Fail(RowSumsNegative) ==> rowSums.Some? && exists r :: 0 <= r < |rowSums.value| && rowSums.value[r] < 0
  {
    if cols < 1 || rows < 1 then Fail(BadDimensions)
    else if exists i :: 0 <= i < |lens| && lens[i] < 1 then Fail(BadShipLength)
    else if known.Some? && (known.value.numRows != rows || known.value.numCols != cols) then Fail(KnownGridSize)
    else if curr.Some? && (curr.value.numRows != rows || curr.value.numCols != cols) then Fail(CurrGridSize)
    else if colSums.None? == ships.None? then Fail(ColSumsOrSolution)
    else if rowSums.None? == ships.None? then Fail(RowSumsOrSolution)
    else if ships.Some? && |ships.value| != |lens| then Fail(SolutionShipsSize)
    else if colSums.Some? && |colSums.value| != cols then Fail(ColSumsSize)
    else if colSums.Some? && exists c :: 0 <= c < |colSums.value| && colSums.value[c] < 0 then Fail(ColSumsNegative)
    else if rowSums.Some? && |rowSums.value| != rows then Fail(RowSumsSize)
    else if rowSums.Some? && exists r :: 0 <= r < |rowSums.value| && rowSums.value[r] < 0 then Fail(RowSumsNegative)
    else Pass
  }

  /** The scan at puzzle.py:245-252: every cell the known grid does not leave `Unknown` has
      exactly the solution's state. */
  predicate KnownMatches(known: Board, s: Board, cols: int, rows: int)
    requires Shaped(known, cols, rows) && Shaped(s, cols, rows)
  {
    forall c, r :: 0 <= c < cols && 0 <= r < rows ==> IsUnknown(known[c][r]) || known[c][r] == s[c][r]
  }

  /** The known grid the puzzle keeps: a copy of the one given, else a blank grid. */
  function KnownBoard(cols: int, rows: int, known: Option<GridInput>): Board
    requires 1 <= cols && 1 <= rows
  {
    if known.Some? then known.value.board else Blank(cols, rows)
  }

  /** The current grid the puzzle keeps: a copy of the one given, else of the known grid. */
  function CurrBoard(cols: int, rows: int, known: Option<GridInput>, curr: Option<GridInput>): Board
    requires 1 <= cols && 1 <= rows
  {
    if curr.Some? then curr.value.board else KnownBoard(cols, rows, known)
  }

  /** What `Puzzle(...)` builds from its arguments, or the error it raises. */
  function Construct(cols: int, rows: int, lens: seq<int>, colSums: Option<seq<int>>, rowSums: Option<seq<int>>,
                     known: Option<GridInput>, curr: Option<GridInput>, ships: Option<seq<Placement>>): (res: Result<PuzzleView, Error>)
    requires InputsWf(known, curr)
    ensures res.Success? ==>
              Acceptable(cols, rows, lens, colSums, rowSums, known, curr, ships) && Wf(res.value) &&
              res.value.numCols == cols && res.value.numRows == rows && res.value.shipLengths == lens &&
              res.value.known == KnownBoard(cols, rows, known) &&
              res.value.curr == CurrBoard(cols, rows, known, curr) &&
              res.value.solution.Some? == ships.Some?
  {
    match Validate(cols, rows, lens, colSums, rowSums, known, curr, ships)
    case Fail(e) => Failure(e)
    case Pass =>
      var knownB := KnownBoard(cols, rows, known);
      var currB := CurrBoard(cols, rows, known, curr);
      match ships
      case None => Success(PuzzleView(cols, rows, lens, colSums.value, rowSums.value, knownB, currB, None))
      case Some(ps) =>
        match Derive(cols, rows, lens, ps)
        case Failure(e) => Failure(e)
        case Success(s) =>
          if KnownMatches(knownB, s, cols, rows) then
            Success(PuzzleView(cols, rows, lens, ColSumsOf(s, cols, rows), RowSumsOf(s, cols, rows), knownB, currB, Some(s)))
          else Failure(KnownMismatch)
  }

  /** Without ships the puzzle keeps the sums it was given and has no solution. */
  lemma {:induction false} ConstructWithoutShips(cols: int, rows: int, lens: seq<int>, colSums: Option<seq<int>>, rowSums: Option<seq<int>>,
                              known: Option<GridInput>, curr: Option<GridInput>)
    requires InputsWf(known, curr)
    ensures var res := Construct(cols, rows, lens, colSums, rowSums, known, curr, None);
            res.Success? <==> Acceptable(cols, rows, lens, colSums, rowSums, known, curr, None)
    ensures var res := Construct(cols, rows, lens, colSums, rowSums, known, curr, None);
            res.Success? ==> colSums.Some? && rowSums.Some? &&
                             res.value.colSums == colSums.value && res.value.rowSums == rowSums.value &&
                             res.value.solution == None
  {
  }

  /** With ships the puzzle is built exactly when the arguments are acceptable, the ships
      are placed apart inside the grid and the known grid matches the derived solution; its
      solution is the derived one, its sums are counted off it, and filling the solution in
      solves the puzzle. */
  lemma {:induction false} ConstructWithShips(cols: int, rows: int, lens: seq<int>, colSums: Option<seq<int>>, rowSums: Option<seq<int>>,
                           known: Option<GridInput>, curr: Option<GridInput>, ps: seq<Placement>)
    requires InputsWf(known, curr)
    ensures var res := Construct(cols, rows, lens, colSums, rowSums, known, curr, Some(ps));
            res.Success? <==>
              Acceptable(cols, rows, lens, colSums, rowSums, known, curr, Some(ps)) &&
              Derive(cols, rows, lens, ps).Success? &&
              KnownMatches(KnownBoard(cols, rows, known), Derive(cols, rows, lens, ps).value, cols, rows)
    ensures var res := Construct(cols, rows, lens, colSums, rowSums, known, curr, Some(ps));
            res.Success? ==>
              AllFit(cols, rows, lens, ps) && ShipsApart(lens, ps) &&
              res.value.solution == Some(Derive(cols, rows, lens, ps).value) &&
              res.value.colSums == ColSumsOf(res.value.solution.value, cols, rows) &&
              res.value.rowSums == RowSumsOf(res.value.solution.value, cols, rows) &&
              IsSolved(res.value.(curr := res.value.solution.value))
  {
    var res := Construct(cols, rows, lens, colSums, rowSums, known, curr, Some(ps));
    if res.Success? {
      DeriveApart(cols, rows, lens, ps);
      var s := Derive(cols, rows, lens, ps).value;
      DerivedSolutionSolves(cols, rows, lens, ps, res.value.known);
      assert res.value.(curr := s) == SolvedView(cols, rows, lens, res.value.known, s);
    }
  }

  /** As written, a known `OccupiedUnknown` cell never matches a derived solution, whose cells
      are all water or refined ship states, so such a puzzle with ships is always rejected. */
  lemma {:induction false} KnownOccupiedUnknownRejected(cols: int, rows: int, lens: seq<int>, colSums: Option<seq<int>>, rowSums: Option<seq<int>>,
                                     known: GridInput, curr: Option<GridInput>, ps: seq<Placement>, c: int, r: int)
    requires InputsWf(Some(known), curr)
    requires InGrid(known.numCols, known.numRows, c, r) && known.board[c][r] == OccupiedUnknown
    ensures Construct(cols, rows, lens, colSums, rowSums, Some(known), curr, Some(ps)).Failure?
  {
    if Construct(cols, rows, lens, colSums, rowSums, Some(known), curr, Some(ps)).Success? {
      DeriveCell(cols, rows, lens, ps, c, r);
      ShipsWriteRefined(lens, ps, (c, r));
    }
  }

  /** A `CellGrid` argument's dimensions and contents, when one is given. */
  function Snapshot(g: Option<CellGrid>): (in_: Option<GridInput>)
    reads if g.Some? then {g.value, g.value.cells} else {}
    requires g.Some? ==> g.value.Valid()
    ensures in_.Some? == g.Some? && (in_.Some? ==> in_.value.Wf())
  {
    if g.Some? then Some(GridInput(g.value.numCols, g.value.numRows, g.value.Board())) else None
  }

  /** A failing write abandons the rest: once a prefix of the writes fails, all of them fail
      with the same error. */
  lemma {:induction false} ApplyWritesFailureStays(b: Board, cols: int, rows: int, ws: seq<Write>, k: int)
    requires Shaped(b, cols, rows) && 0 <= k <= |ws|
    requires ApplyWrites(b, cols, rows, ws[..k]).Failure?
    ensures ApplyWrites(b, cols, rows, ws) == ApplyWrites(b, cols, rows, ws[..k])
    decreases |ws| - k
  {
    if k == |ws| {
      assert ws[..k] == ws;
    } else {
      var prefix := ws[..|ws| - 1];
      assert prefix[..k] == ws[..k];
      ApplyWritesFailureStays(b, cols, rows, prefix, k);
    }
  }

  /** The `set` calls of one ship on the solution grid, in order; a call outside the grid
      raises. */
  method ApplyWritesOn(g: CellGrid, ws: seq<Write>) returns (out: Outcome<Error>)
    requires g.Valid()
    modifies g.cells
    ensures g.Valid()
    ensures var res := ApplyWrites(old(g.Board()), g.numCols, g.numRows, ws);
            (out.Pass? <==> res.Success?) && (out.Pass? ==> g.Board() == res.value) &&
            (out.Fail? ==> out.error == res.error)
  {
    ghost var b0 := g.Board();
    var i := 0;
    while i < |ws|
      invariant 0 <= i <= |ws| && g.Valid()
      invariant ApplyWrites(b0, g.numCols, g.numRows, ws[..i]) == Success(g.Board())
    {
      var w := ws[i];
      var res := g.Set(w.0.0, w.0.1, w.1, None);
      assert ws[..i + 1][..i] == ws[..i];
      if res.Failure? {
        ApplyWritesFailureStays(b0, g.numCols, g.numRows, ws, i + 1);
        return Fail(res.error);
      }
      i := i + 1;
    }
    assert ws[..|ws|] == ws;
    return Pass;
  }

  /** The scan of a cell list for its first occupied cell; `|cells|` when there is none. */
  method FirstOccupiedOn(g: CellGrid, cells: seq<Cell>) returns (i: nat)
    requires g.Valid() && forall j :: 0 <= j < |cells| ==> InGridCell(g.numCols, g.numRows, cells[j])
    ensures i <= |cells|
    ensures forall j :: 0 <= j < i ==>
              InGridCell(g.numCols, g.numRows, cells[j]) && !IsOccupied(g.Board()[cells[j].0][cells[j].1])
    ensures i < |cells| ==>
              InGridCell(g.numCols, g.numRows, cells[i]) && IsOccupied(g.Board()[cells[i].0][cells[i].1])
  {
    i := 0;
    while i < |cells|
      invariant 0 <= i <= |cells|
      invariant forall j :: 0 <= j < i ==>
                  InGridCell(g.numCols, g.numRows, cells[j]) && !IsOccupied(g.Board()[cells[j].0][cells[j].1])
    {
      var x := cells[i];
      var v := g.Get(x.0, x.1);
      if IsOccupied(v.value) {
        return;
      }
      i := i + 1;
    }
  }

  /** One pass of the ship loop at puzzle.py:197-226: scan the clipped bounding box for an
      occupied cell, then write the ship. */
  method PlaceShipOn(g: CellGrid, len: int, p: Placement) returns (out: Outcome<Error>)
    requires g.Valid() && 1 <= len
    modifies g.cells
    ensures g.Valid()
    ensures var res := PlaceShip(old(g.Board()), g.numCols, g.numRows, len, p);
            (out.Pass? <==> res.Success?) && (out.Pass? ==> g.Board() == res.value) &&
            (out.Fail? ==> out.error == res.error)
  {
    var box := ShipAllCells(g.numCols, g.numRows, len, p);
    var i := FirstOccupiedOn(g, box);
    if i < |box| {
      PlaceShipCollides(g.Board(), g.numCols, g.numRows, len, p, i);
      return Fail(ShipCollision(box[i].0, box[i].1));
    }
    PlaceShipClear(g.Board(), g.numCols, g.numRows, len, p);
    out := ApplyWritesOn(g, ShipWrites(len, p));
  }

  /** The ship loop, ship by ship; the first rejection ends it. */
  method PlaceFleetOn(g: CellGrid, lens: seq<int>, ps: seq<Placement>) returns (out: Outcome<Error>)
    requires g.Valid() && |lens| == |ps|
    requires forall i :: 0 <= i < |lens| ==> 1 <= lens[i]
    modifies g.cells
    ensures g.Valid()
    ensures var res := PlaceShips(old(g.Board()), g.numCols, g.numRows, lens, ps);
            (out.Pass? <==> res.Success?) && (out.Pass? ==> g.Board() == res.value) &&
            (out.Fail? ==> out.error == res.error)
  {
    ghost var b0 := g.Board();
    var i := 0;
    while i < |lens|
      invariant 0 <= i <= |lens| && g.Valid()
      invariant PlaceShips(b0, g.numCols, g.numRows, lens, ps) ==
                PlaceShips(g.Board(), g.numCols, g.numRows, lens[i..], ps[i..])
    {
      assert lens[i..][0] == lens[i] && ps[i..][0] == ps[i];
      assert lens[i..][1..] == lens[i + 1..] && ps[i..][1..] == ps[i + 1..];
      out := PlaceShipOn(g, lens[i], ps[i]);
      if out.Fail? {
        return;
      }
      i := i + 1;
    }
    assert lens[i..] == [];
    out := Pass;
  }

  /** The fill at puzzle.py:228-231: a compare-and-set of every cell from `Unknown` to
      `Water`, column by column. */
  method FillWaterOn(g: CellGrid)
    requires g.Valid()
    modifies g.cells
    ensures g.Valid() && g.Board() == FillWater(old(g.Board()), g.numCols, g.numRows)
  {
    ghost var b0 := g.Board();
    var c := 0;
    while c < g.numCols
      invariant 0 <= c <= g.numCols
      invariant forall c', r' :: InGrid(g.numCols, g.numRows, c', r') ==>
                  g.cells[c', r'] == if c' < c && b0[c'][r'] == Unknown then Water else b0[c'][r']
    {
      var r := 0;
      while r < g.numRows
        invariant 0 <= r <= g.numRows
        invariant forall c', r' :: InGrid(g.numCols, g.numRows, c', r') ==>
                    g.cells[c', r'] ==
                      if (c' < c || (c' == c && r' < r)) && b0[c'][r'] == Unknown then Water else b0[c'][r']
      {
        var done := g.Set(c, r, Water, Some(Unknown));
        r := r + 1;
      }
      c := c + 1;
    }
    BoardsEqual(g.Board(), FillWater(b0, g.numCols, g.numRows), g.numCols, g.numRows);
  }

  /** The solution grid of puzzle.py:195-231 built on a fresh `CellGrid`: the ship loop,
      then the fill. */
  method DeriveOn(cols: int, rows: int, lens: seq<int>, ps: seq<Placement>) returns (res: Result<Board, Error>)
    requires 1 <= cols && 1 <= rows && |lens| == |ps|
    requires forall i :: 0 <= i < |lens| ==> 1 <= lens[i]
    ensures res == Derive(cols, rows, lens, ps)
  {
    var g := new CellGrid(cols, rows);
    var placed := PlaceFleetOn(g, lens, ps);
    if placed.Fail? {
      return Failure(placed.error);
    }
    FillWaterOn(g);
    return Success(g.Board());
  }

  /** The scan at puzzle.py:245-252 of the known grid against the solution grid. */
  method KnownMatchesOn(known: Board, s: Board, cols: int, rows: int) returns (ok: bool)
    requires Shaped(known, cols, rows) && Shaped(s, cols, rows)
    ensures ok == KnownMatches(known, s, cols, rows)
  {
    var c := 0;
    while c < cols
      invariant 0 <= c <= cols
      invariant forall c', r' :: 0 <= c' < c && 0 <= r' < rows ==>
                  IsUnknown(known[c'][r']) || known[c'][r'] == s[c'][r']
    {
      assert |known[c]| == rows;
      var r := 0;
      while r < rows
        invariant 0 <= r <= rows
        invariant forall c', r' :: (0 <= c' < c && 0 <= r' < rows) || (c' == c && 0 <= r' < r) ==>
                    IsUnknown(known[c'][r']) || known[c'][r'] == s[c'][r']
      {
        if !IsUnknown(known[c][r]) && known[c][r] != s[c][r] {
          return false;
        }
        r := r + 1;
      }
      c := c + 1;
    }
    return true;
  }

  /** The body of `Puzzle(...)` on its arguments' values: the argument checks, then, with
      ships, the solution grid built on a fresh `CellGrid`, its sums, and the known grid
      checked against it. */
  method Build(cols: int, rows: int, lens: seq<int>, colSums: Option<seq<int>>, rowSums: Option<seq<int>>,
               kIn: Option<GridInput>, cIn: Option<GridInput>, ships: Option<seq<Placement>>)
    returns (res: Result<PuzzleView, Error>)
    requires InputsWf(kIn, cIn)
    ensures res == Construct(cols, rows, lens, colSums, rowSums, kIn, cIn, ships)
    ensures res.Success? ==> forall len :: len in res.value.shipLengths ==> 1 <= len
  {
    var check := Validate(cols, rows, lens, colSums, rowSums, kIn, cIn, ships);
    if check.Fail? {
      return Failure(check.error);
    }
    assert forall len :: len in lens ==> 1 <= len;
    var knownB := KnownBoard(cols, rows, kIn);
    var currB := CurrBoard(cols, rows, kIn, cIn);
    if ships.None? {
      return Success(PuzzleView(cols, rows, lens, colSums.value, rowSums.value, knownB, currB, None));
    }
    var derived := DeriveOn(cols, rows, lens, ships.value);
    if derived.Failure? {
      return Failure(derived.error);
    }
    var s := derived.value;
    var ok := KnownMatchesOn(knownB, s, cols, rows);
    if !ok {
      return Failure(KnownMismatch);
    }
    return Success(PuzzleView(cols, rows, lens, ColSumsOf(s, cols, rows), RowSumsOf(s, cols, rows), knownB, currB, Some(s)));
  }

  /** A constructed puzzle: `Puzzle` (puzzle.py). The known grid and the solution are never
      written after construction and are kept as values; the current grid is a `CellGrid`
      that `set_cell` updates in place. */
  class Puzzle {
    const numCols: int
    const numRows: int
    const shipLengths: seq<int>
    const colSums: seq<int>
    const rowSums: seq<int>
    const known: Board
    const curr: CellGrid
    const solution: Option<Board>
    const solutionShips: Option<seq<Placement>>

    ghost predicate Valid()
      reads this, curr
    {
      curr.Valid() && curr.numCols == numCols && curr.numRows == numRows &&
      1 <= numCols && 1 <= numRows && |colSums| == numCols && |rowSums| == numRows &&
      (forall len :: len in shipLengths ==> 1 <= len) &&
      Shaped(known, numCols, numRows) && (solution.Some? ==> Shaped(solution.value, numCols, numRows))
    }

    /** The puzzle's state as a value, for the queries. */
    function View(): (v: PuzzleView)
      reads this, curr, curr.cells
      requires Valid()
      ensures Wf(v) && v.curr == curr.Board()
    {
      PuzzleView(numCols, numRows, shipLengths, colSums, rowSums, known, curr.Board(), solution)
    }

    /** The assignments to `self` once the arguments are accepted, with a fresh copy of the
        current grid. */
    constructor (v: PuzzleView, ships: Option<seq<Placement>>)
      requires Wf(v) && forall len :: len in v.shipLengths ==> 1 <= len
      ensures Valid() && View() == v && solutionShips == ships
      ensures fresh(curr) && fresh(curr.cells)
    {
      numCols := v.numCols;
      numRows := v.numRows;
      shipLengths := v.shipLengths;
      colSums := v.colSums;
      rowSums := v.rowSums;
      known := v.known;
      solution := v.solution;
      solutionShips := ships;
      curr := new CellGrid.Copy(v.numCols, v.numRows, v.curr);
    }

    /** `Puzzle(...)`: the arguments checked and the solution derived as `Build` does, then
        the fields set, with fresh copies of the grids. */
    static method New(cols: int, rows: int, lens: seq<int>, colSums: Option<seq<int>>, rowSums: Option<seq<int>>,
                      known: Option<CellGrid>, curr: Option<CellGrid>, ships: Option<seq<Placement>>)
      returns (res: Result<Puzzle, Error>)
      requires known.Some? ==> known.value.Valid()
      requires curr.Some? ==> curr.value.Valid()
      ensures var spec := Construct(cols, rows, lens, colSums, rowSums, Snapshot(known), Snapshot(curr), ships);
              (res.Success? <==> spec.Success?) && (res.Failure? ==> res.error == spec.error) &&
              (res.Success? ==> fresh(res.value) && fresh(res.value.curr) && fresh(res.value.curr.cells) &&
                                res.value.Valid() && res.value.View() == spec.value &&
                                res.value.solutionShips == ships)
    {
      var built := Build(cols, rows, lens, colSums, rowSums, Snapshot(known), Snapshot(curr), ships);
      if built.Failure? {
        return Failure(built.error);
      }
      ghost var kIn, cIn := Snapshot(known), Snapshot(curr);
      var p := new Puzzle(built.value, ships);
      assert Snapshot(known) == kIn && Snapshot(curr) == cIn;
      return Success(p);
    }

    /** `set_cell`: the known grid's range check and guard, then the write to the current
        grid; on a rejection nothing changes. */
    method SetCell(c: int, r: int, state: CellState) returns (out: Outcome<Error>)
      requires Valid()
      modifies curr.cells
      ensures Valid()
      ensures out == SetCellGuard(old(View()), c, r, state)
      ensures curr.Board() == if out.Pass? then SetAt(old(curr.Board()), c, r, state) else old(curr.Board())
    {
      var check := CheckInRange(numCols, numRows, c, r);
      if check.Fail? {
        return Fail(check.error);
      }
      if known[c][r] == OccupiedUnknown {
        if !IsOccupied(state) {
          return Fail(KnownOccupiedCell);
        }
      } else if known[c][r] != Unknown {
        return Fail(KnownCell);
      }
      var done := curr.Set(c, r, state, None);
      return Pass;
    }
  }
}
