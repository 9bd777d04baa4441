/** The dense column/row store of cell states: `CellGrid` in puzzle.py. */
module Grids {
  import opened Wrappers
  import opened CellStates

  /** A grid's contents as a value, indexed `b[c][r]` (column first, as the source's `(c, r)`
      keys). */
  type Board = seq<seq<CellState>>

  type Cell = (int, int)

  predicate Shaped(b: Board, cols: int, rows: int) {
    |b| == cols && forall c :: 0 <= c < |b| ==> |b[c]| == rows
  }

  predicate InGrid(cols: int, rows: int, c: int, r: int) {
    0 <= c < cols && 0 <= r < rows
  }

  predicate InGridCell(cols: int, rows: int, x: Cell) {
    InGrid(cols, rows, x.0, x.1)
  }

  /** The test "the cell's state satisfies `p`" over the in-grid cells of `b`. */
  function CellTest(b: Board, cols: int, rows: int, p: CellState -> bool): (t: Cell --> bool)
    requires Shaped(b, cols, rows)
    ensures forall x :: InGridCell(cols, rows, x) ==> t.requires(x)
    ensures forall x :: InGridCell(cols, rows, x) ==> (t(x) <==> p(b[x.0][x.1]))
  {
    (x: Cell) requires InGridCell(cols, rows, x) => p(b[x.0][x.1])
  }

  /** `_check_in_range`: the row is checked before the column. */
  function CheckInRange(cols: int, rows: int, c: int, r: int): (res: Outcome<Error>)
    ensures res.Pass? <==> InGrid(cols, rows, c, r)
    ensures res.Fail? ==> res.error == (if r < 0 || r >= rows then RowOutOfRange else ColOutOfRange)
  {
    if r < 0 || r >= rows then Fail(RowOutOfRange)
    else if c < 0 || c >= cols then Fail(ColOutOfRange)
    else Pass
  }

  /** Two boards of the same shape with the same cells are equal. */
  lemma {:induction false} BoardsEqual(a: Board, b: Board, cols: int, rows: int)
    requires Shaped(a, cols, rows) && Shaped(b, cols, rows)
    requires forall c, r :: InGrid(cols, rows, c, r) ==> a[c][r] == b[c][r]
    ensures a == b
  {
    forall c | 0 <= c < cols ensures a[c] == b[c] {
      assert forall r :: 0 <= r < rows ==> a[c][r] == b[c][r];
    }
  }

  /** Row `r` of the board, left to right. */
  function RowOf(b: Board, cols: int, rows: int, r: int): (cells: seq<CellState>)
    requires Shaped(b, cols, rows) && 0 <= r < rows
    ensures |cells| == cols && forall c :: 0 <= c < cols ==> cells[c] == b[c][r]
  {
    seq(cols, c requires 0 <= c < cols => b[c][r])
  }

  /** The grid a fresh `CellGrid` holds: every cell `Unknown`. */
  function Blank(cols: nat, rows: nat): (b: Board)
    ensures Shaped(b, cols, rows)
    ensures forall c, r :: InGrid(cols, rows, c, r) ==> b[c][r] == Unknown
  {
    seq(cols, c => seq(rows, r => Unknown))
  }

  /** The board with the one cell `(c, r)` replaced. */
  function SetAt(b: Board, c: int, r: int, s: CellState): (b': Board)
    requires 0 <= c < |b| && 0 <= r < |b[c]|
    ensures |b'| == |b| && forall c' :: 0 <= c' < |b| ==> |b'[c']| == |b[c']|
    ensures b'[c][r] == s
    ensures forall c', r' :: 0 <= c' < |b| && 0 <= r' < |b[c']| && (c', r') != (c, r) ==>
              b'[c'][r'] == b[c'][r']
  {
    b[c := b[c][r := s]]
  }

  /** What `CellGrid.set` does to a grid holding `b`: the value it returns (or the error it
      raises) and the grid afterwards. */
  function GridSet(b: Board, cols: int, rows: int, c: int, r: int, s: CellState,
                   expected: Option<CellState>): (res: (Result<bool, Error>, Board))
    requires Shaped(b, cols, rows)
    ensures res.0.Failure? <==> !InGrid(cols, rows, c, r)
    ensures res.0.Failure? ==> res.0.error == CheckInRange(cols, rows, c, r).error
    ensures res.0 == Success(false) <==>
              InGrid(cols, rows, c, r) && expected.Some? && b[c][r] != expected.value
    ensures res.0 != Success(true) ==> res.1 == b
    ensures res.0 == Success(true) ==>
              Shaped(res.1, cols, rows) && res.1[c][r] == s &&
              forall c', r' :: InGrid(cols, rows, c', r') && (c', r') != (c, r) ==>
                res.1[c'][r'] == b[c'][r']
  {
    match CheckInRange(cols, rows, c, r)
    case Fail(e) => (Failure(e), b)
    case Pass =>
      if expected.Some? && b[c][r] != expected.value then (Success(false), b)
      else (Success(true), SetAt(b, c, r, s))
  }

  class CellGrid {
    const numCols: int
    const numRows: int
    const cells: array2<CellState>

    ghost predicate Valid()
      reads this
    {
      1 <= numCols && 1 <= numRows && cells.Length0 == numCols && cells.Length1 == numRows
    }

    /** The grid's contents as a value. */
    function Board(): (b: Board)
      reads this, cells
      requires Valid()
      ensures Shaped(b, numCols, numRows)
      ensures forall c, r :: InGrid(numCols, numRows, c, r) ==> b[c][r] == cells[c, r]
    {
      seq(numCols, c requires 0 <= c < numCols reads cells =>
        seq(numRows, r requires 0 <= r < numRows reads cells => cells[c, r]))
    }

    /** `CellGrid(num_cols, num_rows)` once its dimensions have been accepted. */
    constructor (numCols: int, numRows: int)
      requires 1 <= numCols && 1 <= numRows
      ensures Valid() && fresh(cells)
      ensures this.numCols == numCols && this.numRows == numRows
      ensures Board() == Blank(numCols, numRows)
    {
      this.numCols := numCols;
      this.numRows := numRows;
      cells := new CellState[numCols, numRows]((c, r) => Unknown);
      new;
      BoardsEqual(Board(), Blank(numCols, numRows), numCols, numRows);
    }

    /** A fresh grid holding `b`: the deep copy the puzzle takes of a grid it is given. */
    constructor Copy(cols: int, rows: int, b: Board)
      requires 1 <= cols && 1 <= rows && Shaped(b, cols, rows)
      ensures Valid() && fresh(cells)
      ensures numCols == cols && numRows == rows && Board() == b
    {
      numCols := cols;
      numRows := rows;
      cells := new CellState[cols, rows]((c, r) requires InGrid(cols, rows, c, r) => b[c][r]);
      new;
      BoardsEqual(Board(), b, cols, rows);
    }

    /** `CellGrid(num_cols, num_rows)`, which raises on a dimension below one. */
    static method Create(numCols: int, numRows: int) returns (res: Result<CellGrid, Error>)
      ensures res.Failure? <==> numCols < 1 || numRows < 1
      ensures res.Failure? ==> res.error == BadDimensions
      ensures res.Success? ==> fresh(res.value) && fresh(res.value.cells) && res.value.Valid()
      ensures res.Success? ==> res.value.numCols == numCols && res.value.numRows == numRows
      ensures res.Success? ==> res.value.Board() == Blank(numCols, numRows)
    {
      if numCols < 1 || numRows < 1 {
        return Failure(BadDimensions);
      }
      var g := new CellGrid(numCols, numRows);
      return Success(g);
    }

    /** `get(c, r)`: the state of an in-range cell, else the range error. */
    method Get(c: int, r: int) returns (res: Result<CellState, Error>)
      requires Valid()
      ensures res.Success? <==> InGrid(numCols, numRows, c, r)
      ensures res.Success? ==> res.value == Board()[c][r]
      ensures res.Failure? ==> res.error == CheckInRange(numCols, numRows, c, r).error
    {
      var check := CheckInRange(numCols, numRows, c, r);
      if check.Fail? {
        return Failure(check.error);
      }
      return Success(cells[c, r]);
    }

    /** `set(c, r, state, expected_state)`: with an expected state, a compare-and-set. */
    method Set(c: int, r: int, state: CellState, expected: Option<CellState>)
      returns (res: Result<bool, Error>)
      requires Valid()
      modifies cells
      ensures Valid()
      ensures (res, Board()) == GridSet(old(Board()), numCols, numRows, c, r, state, expected)
    {
      var check := CheckInRange(numCols, numRows, c, r);
      if check.Fail? {
        return Failure(check.error);
      }
      if expected.Some? && cells[c, r] != expected.value {
        return Success(false);
      }
      ghost var before := Board();
      cells[c, r] := state;
      BoardsEqual(Board(), SetAt(before, c, r, state), numCols, numRows);
      return Success(true);
    }
  }
}
