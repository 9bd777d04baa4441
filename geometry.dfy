/** The neighbourhood and ship-geometry list builders of `Puzzle` (puzzle.py): each lists cells
    `(c, r)` of a `cols` x `rows` grid, in the order the source produces them. */
module Geometry {
  import opened Wrappers
  import opened Seqs
  import opened Grids

  /** A ship's start cell and orientation: `(start_c, start_r, direction)`, where `direction`
      is true iff the ship is row-aligned (it extends towards higher columns). */
  datatype Placement = Placement(col: int, row: int, rowAligned: bool)

  function Max(a: int, b: int): int { if a < b then b else a }

  function Min(a: int, b: int): int { if a < b then a else b }

  /** `x` lies within one step of `(c, r)`, diagonals included. */
  predicate Near(x: Cell, c: int, r: int) {
    -1 <= x.0 - c <= 1 && -1 <= x.1 - r <= 1
  }

  /** The cells `(lo, r) ... (hi - 1, r)`. */
  function RowRun(lo: int, hi: int, r: int): (cells: seq<Cell>)
    ensures forall x :: x in cells ==> x.1 == r && lo <= x.0 < hi
    ensures forall c :: lo <= c < hi ==> (c, r) in cells
    ensures |cells| == if lo <= hi then hi - lo else 0
    ensures forall i :: 0 <= i < |cells| ==> cells[i] == (lo + i, r)
  {
    var cs := Range(lo, hi);
    var cells := Map(cs, c => (c, r));
    assert forall c :: lo <= c < hi ==> (c, r) in cells by {
      forall c | lo <= c < hi ensures (c, r) in cells {
        assert cells[c - lo] == (c, r);
      }
    }
    cells
  }

  /** The cells `(c, lo) ... (c, hi - 1)`. */
  function ColRun(c: int, lo: int, hi: int): (cells: seq<Cell>)
    ensures forall x :: x in cells ==> x.0 == c && lo <= x.1 < hi
    ensures forall r :: lo <= r < hi ==> (c, r) in cells
    ensures |cells| == if lo <= hi then hi - lo else 0
    ensures forall i :: 0 <= i < |cells| ==> cells[i] == (c, lo + i)
  {
    var rs := Range(lo, hi);
    var cells := Map(rs, r => (c, r));
    assert forall r :: lo <= r < hi ==> (c, r) in cells by {
      forall r | lo <= r < hi ensures (c, r) in cells {
        assert cells[r - lo] == (c, r);
      }
    }
    cells
  }

  /** `product(range(c0, c1), range(r0, r1))` holds exactly the cells of that rectangle. */
  lemma {:induction false} RectangleCells(c0: int, c1: int, r0: int, r1: int)
    ensures forall x :: x in Product(Range(c0, c1), Range(r0, r1)) <==>
              c0 <= x.0 < c1 && r0 <= x.1 < r1
  {
    AllInRange(c0, c1);
    AllInRange(r0, r1);
  }

  /** All cells of the grid in column-major order: the nested `for c ... for r` scans. */
  function AllCells(cols: int, rows: int): (cells: seq<Cell>)
    ensures forall x :: x in cells <==> InGrid(cols, rows, x.0, x.1)
  {
    RectangleCells(0, cols, 0, rows);
    Product(Range(0, cols), Range(0, rows))
  }

  /** The scan order of `AllCells` is column-major: each cell once, columns outermost. */
  lemma {:induction false} ColumnMajor(cols: int, rows: int)
    ensures forall i, j :: 0 <= i < j < |AllCells(cols, rows)| ==>
              Before(AllCells(cols, rows)[i], AllCells(cols, rows)[j])
  {
    ProductSorted(Range(0, cols), Range(0, rows));
  }

  /** `get_neighbour_cells`: the up to nine in-grid cells around and including `(c, r)`. */
  function NeighbourCells(cols: int, rows: int, c: int, r: int): (cells: seq<Cell>)
    ensures forall x :: x in cells <==> InGrid(cols, rows, x.0, x.1) && Near(x, c, r)
  {
    var minC := Max(c - 1, 0);
    var maxC := Min(c + 1, cols - 1);
    var minR := Max(r - 1, 0);
    var maxR := Min(r + 1, rows - 1);
    RectangleCells(minC, maxC + 1, minR, maxR + 1);
    Product(Range(minC, maxC + 1), Range(minR, maxR + 1))
  }

  /** `get_nondiagonal_neighbour_cells`: the orthogonal neighbours of `(c, r)` that lie in the
      grid. Only which cells are listed matters to the callers. */
  function NondiagonalNeighbourCells(cols: int, rows: int, c: int, r: int): (cells: seq<Cell>)
    ensures |cells| <= 4
    ensures forall x :: x in cells <==>
              InGrid(cols, rows, x.0, x.1) &&
              (x == (c + 1, r) || x == (c - 1, r) || x == (c, r + 1) || x == (c, r - 1))
  {
    Filter([(c + 1, r), (c - 1, r), (c, r + 1), (c, r - 1)], x => InGridCell(cols, rows, x))
  }

  /** `x` and `y` are orthogonal neighbours. */
  predicate Orthogonal(x: Cell, y: Cell) {
    y == (x.0 + 1, x.1) || y == (x.0 - 1, x.1) || y == (x.0, x.1 + 1) || y == (x.0, x.1 - 1)
  }

  /** `ns` lists exactly the in-grid orthogonal neighbours of `x`. */
  ghost predicate OrthogonalList(cols: int, rows: int, x: Cell, ns: seq<Cell>) {
    forall y :: y in ns <==> Orthogonal(x, y) && InGridCell(cols, rows, y)
  }

  lemma {:induction false} NondiagonalNeighbourList(cols: int, rows: int, x: Cell)
    ensures OrthogonalList(cols, rows, x, NondiagonalNeighbourCells(cols, rows, x.0, x.1))
  {
  }

  /** `get_diagonal_neighbour_cells`: the diagonal neighbours of `(c, r)` that lie in the grid.
      Only which cells are listed matters to the callers. */
  function DiagonalNeighbourCells(cols: int, rows: int, c: int, r: int): (cells: seq<Cell>)
    ensures |cells| <= 4
    ensures forall x :: x in cells <==>
              InGrid(cols, rows, x.0, x.1) && (x.0 == c - 1 || x.0 == c + 1) &&
              (x.1 == r - 1 || x.1 == r + 1)
  {
    var corners := Product([c - 1, c + 1], [r - 1, r + 1]);
    assert |corners| == 4;
    Filter(corners, x => InGridCell(cols, rows, x))
  }

  /** `strip_out_of_bound_cells`. */
  function StripOutOfBoundCells(cols: int, rows: int, cells: seq<Cell>): (r: seq<Cell>)
    ensures |r| <= |cells|
    ensures forall x :: x in r <==> x in cells && InGrid(cols, rows, x.0, x.1)
  {
    Filter(cells, x => InGridCell(cols, rows, x))
  }

  /** `x` is one of the cells of a ship of `len` cells placed at `p`. */
  predicate OnShip(len: int, p: Placement, x: Cell) {
    if p.rowAligned then x.1 == p.row && p.col <= x.0 < p.col + len
    else x.0 == p.col && p.row <= x.1 < p.row + len
  }

  /** `x` lies in the ship's bounding box: the ship and the ring of cells around it. */
  predicate InShipBox(len: int, p: Placement, x: Cell) {
    if p.rowAligned then p.col - 1 <= x.0 <= p.col + len && p.row - 1 <= x.1 <= p.row + 1
    else p.col - 1 <= x.0 <= p.col + 1 && p.row - 1 <= x.1 <= p.row + len
  }

  /** The ship lies inside the grid. */
  predicate Fits(cols: int, rows: int, len: int, p: Placement) {
    0 <= p.col && 0 <= p.row &&
    if p.rowAligned then p.col + len <= cols && p.row < rows
    else p.row + len <= rows && p.col < cols
  }

  /** `get_ship_cells`: the `len` cells from the start along the ship's axis; raises when the
      ship runs past the last column (row-aligned) or last row (column-aligned). */
  function ShipCells(cols: int, rows: int, len: int, p: Placement): (res: Result<seq<Cell>, Error>)
    ensures res.Failure? <==>
              (if p.rowAligned then p.col + len > cols else p.row + len > rows)
    ensures res.Failure? ==> res.error == ShipDoesNotFit
    ensures res.Success? ==> |res.value| == Max(len, 0)
    ensures res.Success? ==> forall d :: 0 <= d < |res.value| ==>
              res.value[d] == if p.rowAligned then (p.col + d, p.row) else (p.col, p.row + d)
    ensures res.Success? ==> forall x :: x in res.value <==> OnShip(len, p, x)
  {
    if p.rowAligned then
      if p.col + len > cols then Failure(ShipDoesNotFit)
      else Success(RowRun(p.col, p.col + len, p.row))
    else
      if p.row + len > rows then Failure(ShipDoesNotFit)
      else Success(ColRun(p.col, p.row, p.row + len))
  }

  /** `get_ship_all_cells`: the ship's bounding box clipped to the grid, column-major. */
  function ShipAllCells(cols: int, rows: int, len: int, p: Placement): (cells: seq<Cell>)
    ensures forall x :: x in cells <==> InGrid(cols, rows, x.0, x.1) && InShipBox(len, p, x)
  {
    var minC := Max(p.col - 1, 0);
    var minR := Max(p.row - 1, 0);
    var maxC := if p.rowAligned then Min(cols - 1, p.col + len) else Min(p.col + 1, cols - 1);
    var maxR := if p.rowAligned then Min(p.row + 1, rows - 1) else Min(rows - 1, p.row + len);
    RectangleCells(minC, maxC + 1, minR, maxR + 1);
    ShipBoxBounds(cols, rows, len, p, minC, maxC, minR, maxR);
    Product(Range(minC, maxC + 1), Range(minR, maxR + 1))
  }

  /** The clipped bounding box of a ship is the rectangle between these bounds. */
  lemma {:induction false} ShipBoxBounds(cols: int, rows: int, len: int, p: Placement, minC: int, maxC: int, minR: int, maxR: int)
    requires minC == Max(p.col - 1, 0) && minR == Max(p.row - 1, 0)
    requires maxC == if p.rowAligned then Min(cols - 1, p.col + len) else Min(p.col + 1, cols - 1)
    requires maxR == if p.rowAligned then Min(p.row + 1, rows - 1) else Min(rows - 1, p.row + len)
    ensures forall x: Cell :: (minC <= x.0 < maxC + 1 && minR <= x.1 < maxR + 1) <==>
              InGrid(cols, rows, x.0, x.1) && InShipBox(len, p, x)
  {
  }

  /** `get_ship_neighbour_cells`: the row above, the row below, then the cells before and
      after the ship (for a column-aligned ship: the column to the left, to the right, then
      the cells above and below), each clipped to the grid. */
  function ShipNeighbourCells(cols: int, rows: int, len: int, p: Placement): seq<Cell>
  {
    if p.rowAligned then RowShipNeighbours(cols, rows, len, p.col, p.row)
    else ColShipNeighbours(cols, rows, len, p.col, p.row)
  }

  function RowShipNeighbours(cols: int, rows: int, len: int, c: int, r: int): (cells: seq<Cell>)
    ensures forall x :: x in cells <==>
              (r > 0 && x.1 == r - 1 && Max(c - 1, 0) <= x.0 <= Min(cols - 1, c + len)) ||
              (r + 1 < rows && x.1 == r + 1 && Max(c - 1, 0) <= x.0 <= Min(cols - 1, c + len)) ||
              (c > 0 && x == (c - 1, r)) || (c + len < cols && x == (c + len, r))
  {
    var minC := Max(c - 1, 0);
    var maxC := Min(cols - 1, c + len);
    (if r > 0 then RowRun(minC, maxC + 1, r - 1) else [])
    + (if r + 1 < rows then RowRun(minC, maxC + 1, r + 1) else [])
    + (if c > 0 then [(c - 1, r)] else [])
    + (if c + len < cols then [(c + len, r)] else [])
  }

  function ColShipNeighbours(cols: int, rows: int, len: int, c: int, r: int): (cells: seq<Cell>)
    ensures forall x :: x in cells <==>
              (c > 0 && x.0 == c - 1 && Max(r - 1, 0) <= x.1 <= Min(rows - 1, r + len)) ||
              (c + 1 < cols && x.0 == c + 1 && Max(r - 1, 0) <= x.1 <= Min(rows - 1, r + len)) ||
              (r > 0 && x == (c, r - 1)) || (r + len < rows && x == (c, r + len))
  {
    var minR := Max(r - 1, 0);
    var maxR := Min(rows - 1, r + len);
    (if c > 0 then ColRun(c - 1, minR, maxR + 1) else [])
    + (if c + 1 < cols then ColRun(c + 1, minR, maxR + 1) else [])
    + (if r > 0 then [(c, r - 1)] else [])
    + (if r + len < rows then [(c, r + len)] else [])
  }

  /** For a ship inside the grid, its neighbour cells are exactly the in-grid cells of its
      bounding box that are not on the ship. */
  lemma {:induction false} ShipNeighbourCellsExact(cols: int, rows: int, len: int, p: Placement)
    requires 1 <= len && Fits(cols, rows, len, p)
    ensures forall x :: x in ShipNeighbourCells(cols, rows, len, p) <==>
              InGrid(cols, rows, x.0, x.1) && InShipBox(len, p, x) && !OnShip(len, p, x)
  {
    forall x ensures x in ShipNeighbourCells(cols, rows, len, p) <==>
                     InGrid(cols, rows, x.0, x.1) && InShipBox(len, p, x) && !OnShip(len, p, x)
    {
      if p.rowAligned {
        RowNeighbourExact(cols, rows, len, p.col, p.row, x.0, x.1);
      } else {
        ColNeighbourExact(cols, rows, len, p.col, p.row, x.0, x.1);
      }
    }
  }

  lemma {:induction false} RowNeighbourExact(cols: int, rows: int, len: int, c: int, r: int, xc: int, xr: int)
    requires 1 <= len && 0 <= c && c + len <= cols && 0 <= r < rows
    ensures (xc, xr) in RowShipNeighbours(cols, rows, len, c, r) <==>
              0 <= xc < cols && 0 <= xr < rows && c - 1 <= xc <= c + len && r - 1 <= xr <= r + 1 &&
              !(xr == r && c <= xc < c + len)
  {
  }

  lemma {:induction false} ColNeighbourExact(cols: int, rows: int, len: int, c: int, r: int, xc: int, xr: int)
    requires 1 <= len && 0 <= r && r + len <= rows && 0 <= c < cols
    ensures (xc, xr) in ColShipNeighbours(cols, rows, len, c, r) <==>
              0 <= xc < cols && 0 <= xr < rows && c - 1 <= xc <= c + 1 && r - 1 <= xr <= r + len &&
              !(xc == c && r <= xr < r + len)
  {
  }

  /** The bounding box is the ship together with its neighbour cells. */
  lemma {:induction false} ShipAllCellsSplit(cols: int, rows: int, len: int, p: Placement)
    requires 1 <= len && Fits(cols, rows, len, p)
    ensures forall x :: x in ShipAllCells(cols, rows, len, p) <==>
              x in ShipCells(cols, rows, len, p).value || x in ShipNeighbourCells(cols, rows, len, p)
  {
    ShipNeighbourCellsExact(cols, rows, len, p);
  }
}
