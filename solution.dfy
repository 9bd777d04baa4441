/** How `Puzzle.__init__` (puzzle.py) turns ship placements into a solution grid: each ship is
    checked against the cells already occupied around it, written cell by cell, and the cells
    no ship wrote become water; the line targets are then counted off the solution. */
module Solutions {
  import opened Wrappers
  import opened CellStates
  import opened Seqs
  import opened Grids
  import opened Geometry
  import opened PuzzleQueries

  /** One `solution_grid.set(c, r, state)` call. */
  type Write = (Cell, CellState)

  /** The cell `d` steps from the ship's start along its axis. */
  function Along(p: Placement, d: int): Cell {
    if p.rowAligned then (p.col + d, p.row) else (p.col, p.row + d)
  }

  /** The writes made for one ship, in order: a length-1 ship is one whole cell; a longer one
      gets its start end, the middle cells `range(start + 1, end - 1)` and its far end. That
      range stops one short of the far end, so for a ship of three or more cells the cell
      just before the far end is never written. */
  function ShipWrites(len: int, p: Placement): (ws: seq<Write>)
    requires 1 <= len
    ensures |ws| == if len <= 2 then len else len - 1
  {
    if len == 1 then [(Along(p, 0), OccupiedWhole)]
    else
      var first := if p.rowAligned then OccupiedEndLeft else OccupiedEndUp;
      var last := if p.rowAligned then OccupiedEndRight else OccupiedEndDown;
      [(Along(p, 0), first)] + MidWrites(p, 1, len - 2) + [(Along(p, len - 1), last)]
  }

  /** The middle writes `for i in range(lo, hi)`, one `OccupiedMid` cell each. */
  function MidWrites(p: Placement, lo: int, hi: int): (ws: seq<Write>)
    ensures |ws| == if lo <= hi then hi - lo else 0
    ensures forall i :: 0 <= i < |ws| ==> ws[i] == (Along(p, lo + i), OccupiedMid)
    decreases hi - lo
  {
    if lo >= hi then [] else [(Along(p, lo), OccupiedMid)] + MidWrites(p, lo + 1, hi)
  }

  /** Write by write: the start end (or the whole cell), the middle cells in order, the far
      end. */
  lemma {:induction false} ShipWritesOrder(len: int, p: Placement)
    requires 1 <= len
    ensures ShipWrites(len, p)[0] ==
              (Along(p, 0), if len == 1 then OccupiedWhole
                            else if p.rowAligned then OccupiedEndLeft else OccupiedEndUp)
    ensures len >= 2 ==>
              ShipWrites(len, p)[|ShipWrites(len, p)| - 1] ==
                (Along(p, len - 1), if p.rowAligned then OccupiedEndRight else OccupiedEndDown)
    ensures forall i :: 0 < i < |ShipWrites(len, p)| - 1 ==> ShipWrites(len, p)[i] == (Along(p, i), OccupiedMid)
  {
  }

  /** How far along the ship the cell `x` lies. */
  function Offset(p: Placement, x: Cell): int {
    if p.rowAligned then x.0 - p.col else x.1 - p.row
  }

  /** The ship cell the middle-cell range leaves out: the one just before the far end of a
      ship of three or more cells. */
  predicate Skipped(len: int, d: int) {
    len >= 3 && d == len - 2
  }

  /** The state the writes give the cell `d` steps along a ship. */
  function StateAt(len: int, rowAligned: bool, d: int): (s: CellState)
    ensures IsOccupied(s) && s != OccupiedUnknown
  {
    if len == 1 then OccupiedWhole
    else if d == 0 then (if rowAligned then OccupiedEndLeft else OccupiedEndUp)
    else if d == len - 1 then (if rowAligned then OccupiedEndRight else OccupiedEndDown)
    else OccupiedMid
  }

  /** Cell by cell, what placing a ship writes: its ends (or its one whole cell) and its middle
      cells get their states, the skipped cell and every cell off the ship nothing. */
  function ShipCellState(len: int, p: Placement, x: Cell): Option<CellState> {
    if OnShip(len, p, x) && !Skipped(len, Offset(p, x)) then Some(StateAt(len, p.rowAligned, Offset(p, x)))
    else None
  }

  /** The offset along the ship of the cell the `k`-th write targets: the writes follow the
      ship from its start, and the last one lands on the far end. */
  function WriteOffset(len: int, k: int): int {
    if len >= 3 && k == len - 2 then len - 1 else k
  }

  /** The write that targets the cell `d` steps along the ship. */
  function WriteIndex(len: int, d: int): int {
    if len >= 3 && d == len - 1 then len - 2 else d
  }

  /** The `k`-th write targets a ship cell other than the skipped one, with that cell's
      state. */
  lemma {:induction false} ShipWriteAt(len: int, p: Placement, k: int)
    requires 1 <= len && 0 <= k < |ShipWrites(len, p)|
    ensures 0 <= WriteOffset(len, k) < len && !Skipped(len, WriteOffset(len, k))
    ensures ShipWrites(len, p)[k] ==
              (Along(p, WriteOffset(len, k)), StateAt(len, p.rowAligned, WriteOffset(len, k)))
  {
    ShipWritesOrder(len, p);
  }

  /** Every ship cell but the skipped one is written, with its state. */
  lemma {:induction false} ShipWriteCovers(len: int, p: Placement, d: int)
    requires 1 <= len && 0 <= d < len && !Skipped(len, d)
    ensures 0 <= WriteIndex(len, d) < |ShipWrites(len, p)|
    ensures ShipWrites(len, p)[WriteIndex(len, d)] == (Along(p, d), StateAt(len, p.rowAligned, d))
  {
    ShipWritesOrder(len, p);
  }

  /** No cell is written twice. */
  lemma {:induction false} ShipWritesDistinct(len: int, p: Placement)
    requires 1 <= len
    ensures forall i, j :: 0 <= i < j < |ShipWrites(len, p)| ==>
              ShipWrites(len, p)[i].0 != ShipWrites(len, p)[j].0
  {
    forall i, j | 0 <= i < j < |ShipWrites(len, p)|
      ensures ShipWrites(len, p)[i].0 != ShipWrites(len, p)[j].0
    {
      ShipWriteAt(len, p, i);
      ShipWriteAt(len, p, j);
    }
  }

  /** The state the last write to `x` leaves, if any write targets `x`. */
  function LastWrite(ws: seq<Write>, x: Cell): (s: Option<CellState>)
    ensures s.None? <==> forall i :: 0 <= i < |ws| ==> ws[i].0 != x
    ensures s.Some? ==> exists i :: 0 <= i < |ws| && ws[i] == (x, s.value)
  {
    if ws == [] then None
    else if ws[|ws| - 1].0 == x then Some(ws[|ws| - 1].1)
    else LastWrite(ws[..|ws| - 1], x)
  }

  /** When no cell is written twice, the last write to a written cell is its only write. */
  lemma {:induction false} LastWriteUnique(ws: seq<Write>, i: int)
    requires 0 <= i < |ws|
    requires forall j, k :: 0 <= j < k < |ws| ==> ws[j].0 != ws[k].0
    ensures LastWrite(ws, ws[i].0) == Some(ws[i].1)
  {
    if i < |ws| - 1 {
      LastWriteUnique(ws[..|ws| - 1], i);
    }
  }

  /** The writes for a ship leave each cell in the state `ShipCellState` gives it. */
  lemma {:induction false} LastWriteShip(len: int, p: Placement, x: Cell)
    requires 1 <= len
    ensures LastWrite(ShipWrites(len, p), x) == ShipCellState(len, p, x)
  {
    if ShipCellState(len, p, x).Some? {
      LastWriteShipCell(len, p, x);
    } else {
      LastWriteOffShip(len, p, x);
    }
  }

  lemma {:induction false} LastWriteShipCell(len: int, p: Placement, x: Cell)
    requires 1 <= len && ShipCellState(len, p, x).Some?
    ensures LastWrite(ShipWrites(len, p), x) == ShipCellState(len, p, x)
  {
    var ws, d := ShipWrites(len, p), Offset(p, x);
    assert Along(p, d) == x;
    ShipWriteCovers(len, p, d);
    ShipWritesDistinct(len, p);
    LastWriteUnique(ws, WriteIndex(len, d));
  }

  lemma {:induction false} LastWriteOffShip(len: int, p: Placement, x: Cell)
    requires 1 <= len && ShipCellState(len, p, x).None?
    ensures LastWrite(ShipWrites(len, p), x).None?
  {
    var ws := ShipWrites(len, p);
    forall k | 0 <= k < |ws| ensures ws[k].0 != x {
      ShipWriteAt(len, p, k);
    }
  }

  /** A sequence of `set` calls on a grid holding `b`: each call raises on a cell outside the
      grid, which abandons the rest. */
  function ApplyWrites(b: Board, cols: int, rows: int, ws: seq<Write>): (res: Result<Board, Error>)
    requires Shaped(b, cols, rows)
    ensures res.Success? <==> forall i :: 0 <= i < |ws| ==> InGridCell(cols, rows, ws[i].0)
    ensures res.Success? ==> Shaped(res.value, cols, rows)
    decreases |ws|
  {
    if ws == [] then Success(b)
    else
      var prefix := ws[..|ws| - 1];
      var w := ws[|ws| - 1];
      assert forall i :: 0 <= i < |prefix| ==> prefix[i] == ws[i];
      match ApplyWrites(b, cols, rows, prefix)
      case Failure(e) => Failure(e)
      case Success(b') =>
        var step := GridSet(b', cols, rows, w.0.0, w.0.1, w.1, None);
        if step.0.Failure? then Failure(step.0.error) else Success(step.1)
  }

  /** After the writes, a cell holds the state of the last write to it, or its old state
      when none targets it. */
  lemma {:induction false} ApplyWritesContents(b: Board, cols: int, rows: int, ws: seq<Write>, c: int, r: int)
    requires Shaped(b, cols, rows) && InGrid(cols, rows, c, r)
    requires ApplyWrites(b, cols, rows, ws).Success?
    ensures ApplyWrites(b, cols, rows, ws).value[c][r] ==
              match LastWrite(ws, (c, r)) case Some(s) => s case None => b[c][r]
    decreases |ws|
  {
    if ws != [] {
      var prefix := ws[..|ws| - 1];
      assert forall i :: 0 <= i < |prefix| ==> prefix[i] == ws[i];
      ApplyWritesContents(b, cols, rows, prefix, c, r);
    }
  }

  /** The writes fail with the range error of the first write that falls outside the grid. */
  lemma {:induction false} ApplyWritesError(b: Board, cols: int, rows: int, ws: seq<Write>)
    requires Shaped(b, cols, rows)
    requires ApplyWrites(b, cols, rows, ws).Failure?
    ensures exists i :: 0 <= i < |ws| && !InGridCell(cols, rows, ws[i].0) &&
                        (forall j :: 0 <= j < i ==> InGridCell(cols, rows, ws[j].0)) &&
                        ApplyWrites(b, cols, rows, ws).error == CheckInRange(cols, rows, ws[i].0.0, ws[i].0.1).error
  {
    var prefix := ws[..|ws| - 1];
    assert forall i :: 0 <= i < |prefix| ==> prefix[i] == ws[i];
    if ApplyWrites(b, cols, rows, prefix).Failure? {
      ApplyWritesError(b, cols, rows, prefix);
      var i :| 0 <= i < |prefix| && !InGridCell(cols, rows, prefix[i].0) &&
               (forall j :: 0 <= j < i ==> InGridCell(cols, rows, prefix[j].0)) &&
               ApplyWrites(b, cols, rows, prefix).error == CheckInRange(cols, rows, prefix[i].0.0, prefix[i].0.1).error;
      assert ws[i] == prefix[i];
    } else {
      assert forall j :: 0 <= j < |ws| - 1 ==> InGridCell(cols, rows, ws[j].0);
    }
  }

  /** The first occupied cell of the ship's clipped bounding box, column-major. */
  function Collision(b: Board, cols: int, rows: int, len: int, p: Placement): (hit: Option<Cell>)
    requires Shaped(b, cols, rows)
    ensures hit.None? ==> forall x: Cell :: InGridCell(cols, rows, x) && InShipBox(len, p, x) ==>
                            !IsOccupied(b[x.0][x.1])
    ensures hit.Some? ==> InGridCell(cols, rows, hit.value) && InShipBox(len, p, hit.value) &&
                          IsOccupied(b[hit.value.0][hit.value.1])
  {
    var box := ShipAllCells(cols, rows, len, p);
    var test := CellTest(b, cols, rows, IsOccupied);
    match FirstWhere(box, test)
    case None =>
      assert forall x: Cell :: InGridCell(cols, rows, x) && InShipBox(len, p, x) ==> !IsOccupied(b[x.0][x.1]) by {
        forall x: Cell | InGridCell(cols, rows, x) && InShipBox(len, p, x)
          ensures !IsOccupied(b[x.0][x.1])
        {
          assert x in box;
          var i :| 0 <= i < |box| && box[i] == x;
        }
      }
      None
    case Some(i) =>
      assert box[i] in box;
      Some(box[i])
  }

  /** One ship of the loop at puzzle.py:197-226: raise on the first occupied cell of its box,
      else write its cells. */
  function PlaceShip(b: Board, cols: int, rows: int, len: int, p: Placement): (res: Result<Board, Error>)
    requires Shaped(b, cols, rows) && 1 <= len
    ensures res.Success? ==> Shaped(res.value, cols, rows)
  {
    match Collision(b, cols, rows, len, p)
    case Some(x) => Failure(ShipCollision(x.0, x.1))
    case None => ApplyWrites(b, cols, rows, ShipWrites(len, p))
  }

  /** The scan of the box stops at its first occupied cell and rejects the ship there. */
  lemma {:induction false} PlaceShipCollides(b: Board, cols: int, rows: int, len: int, p: Placement, i: int)
    requires Shaped(b, cols, rows) && 1 <= len
    requires var box := ShipAllCells(cols, rows, len, p);
             0 <= i < |box| && IsOccupied(b[box[i].0][box[i].1]) &&
             forall j :: 0 <= j < i ==> !IsOccupied(b[box[j].0][box[j].1])
    ensures var box := ShipAllCells(cols, rows, len, p);
            PlaceShip(b, cols, rows, len, p) == Failure(ShipCollision(box[i].0, box[i].1))
  {
    var box := ShipAllCells(cols, rows, len, p);
    assert box[i] in box;
    assert FirstWhere(box, CellTest(b, cols, rows, IsOccupied)) == Some(i);
  }

  /** A box with no occupied cell lets the ship's writes go ahead. */
  lemma {:induction false} PlaceShipClear(b: Board, cols: int, rows: int, len: int, p: Placement)
    requires Shaped(b, cols, rows) && 1 <= len
    requires var box := ShipAllCells(cols, rows, len, p);
             forall j :: 0 <= j < |box| ==> !IsOccupied(b[box[j].0][box[j].1])
    ensures PlaceShip(b, cols, rows, len, p) == ApplyWrites(b, cols, rows, ShipWrites(len, p))
  {
    var box := ShipAllCells(cols, rows, len, p);
    assert FirstWhere(box, CellTest(b, cols, rows, IsOccupied)) == None;
  }

  /** A ship is accepted only when it fits in the grid and no cell of its clipped bounding
      box, the ship and its eight-neighbourhood, is occupied yet; a rejection for a collision
      names an occupied cell of that box. */
  lemma {:induction false} PlaceShipGuard(b: Board, cols: int, rows: int, len: int, p: Placement)
    requires Shaped(b, cols, rows) && 1 <= len
    ensures PlaceShip(b, cols, rows, len, p).Success? ==>
              Fits(cols, rows, len, p) &&
              forall x: Cell :: InGridCell(cols, rows, x) && InShipBox(len, p, x) ==> !IsOccupied(b[x.0][x.1])
    ensures PlaceShip(b, cols, rows, len, p).Failure? && PlaceShip(b, cols, rows, len, p).error.ShipCollision? ==>
              var e := PlaceShip(b, cols, rows, len, p).error;
              InGrid(cols, rows, e.c, e.r) && InShipBox(len, p, (e.c, e.r)) && IsOccupied(b[e.c][e.r])
  {
    var ws := ShipWrites(len, p);
    if PlaceShip(b, cols, rows, len, p).Success? {
      ShipWritesOrder(len, p);
      assert InGridCell(cols, rows, ws[0].0) && InGridCell(cols, rows, ws[|ws| - 1].0);
    } else if Collision(b, cols, rows, len, p).None? {
      ApplyWritesError(b, cols, rows, ws);
    }
  }

  /** An accepted ship leaves each cell it writes in that cell's ship state and every other
      cell as it was. */
  lemma {:induction false} PlaceShipCell(b: Board, cols: int, rows: int, len: int, p: Placement, c: int, r: int)
    requires Shaped(b, cols, rows) && 1 <= len && InGrid(cols, rows, c, r)
    requires PlaceShip(b, cols, rows, len, p).Success?
    ensures PlaceShip(b, cols, rows, len, p).value[c][r] ==
              match ShipCellState(len, p, (c, r)) case Some(s) => s case None => b[c][r]
  {
    ApplyWritesContents(b, cols, rows, ShipWrites(len, p), c, r);
    LastWriteShip(len, p, (c, r));
  }

  /** The ship loop at puzzle.py:197-226: the ships placed in turn on `b`; the first
      rejection ends the loop. */
  function PlaceShips(b: Board, cols: int, rows: int, lens: seq<int>, ps: seq<Placement>): (res: Result<Board, Error>)
    requires Shaped(b, cols, rows) && |lens| == |ps|
    requires forall i :: 0 <= i < |lens| ==> 1 <= lens[i]
    ensures res.Success? ==> Shaped(res.value, cols, rows)
    decreases |lens|
  {
    if lens == [] then Success(b)
    else match PlaceShip(b, cols, rows, lens[0], ps[0])
      case Failure(e) => Failure(e)
      case Success(b') => PlaceShips(b', cols, rows, lens[1..], ps[1..])
  }

  /** The fill at puzzle.py:228-231: every still-unknown cell becomes water. */
  function FillWater(b: Board, cols: int, rows: int): (w: Board)
    requires Shaped(b, cols, rows) && 0 <= rows
    ensures Shaped(w, cols, rows)
    ensures forall c, r :: InGrid(cols, rows, c, r) ==>
              w[c][r] == if b[c][r] == Unknown then Water else b[c][r]
  {
    seq(cols, c requires 0 <= c < cols =>
      seq(rows, r requires 0 <= r < rows => if b[c][r] == Unknown then Water else b[c][r]))
  }

  /** The solution grid derived from a fleet and its placements: the ships placed on an
      empty grid, then the fill. */
  function Derive(cols: int, rows: int, lens: seq<int>, ps: seq<Placement>): (res: Result<Board, Error>)
    requires 1 <= cols && 1 <= rows && |lens| == |ps|
    requires forall i :: 0 <= i < |lens| ==> 1 <= lens[i]
    ensures res.Success? ==> Shaped(res.value, cols, rows)
  {
    match PlaceShips(Blank(cols, rows), cols, rows, lens, ps)
    case Failure(e) => Failure(e)
    case Success(b) => Success(FillWater(b, cols, rows))
  }

  /** The derived `col_sums`: occupied solution cells per column. */
  function ColSumsOf(s: Board, cols: int, rows: int): (sums: seq<int>)
    requires Shaped(s, cols, rows)
    ensures |sums| == cols
    ensures forall c :: 0 <= c < cols ==> sums[c] == CountIf(s[c], IsOccupied)
  {
    seq(cols, c requires 0 <= c < cols => CountIf(s[c], IsOccupied))
  }

  /** The derived `row_sums`: occupied solution cells per row. */
  function RowSumsOf(s: Board, cols: int, rows: int): (sums: seq<int>)
    requires Shaped(s, cols, rows) && 0 <= rows
    ensures |sums| == rows
    ensures forall r :: 0 <= r < rows ==> sums[r] == CountIf(RowOf(s, cols, rows, r), IsOccupied)
  {
    seq(rows, r requires 0 <= r < rows => CountIf(RowOf(s, cols, rows, r), IsOccupied))
  }

  /** The state the last ship of the fleet to write `x` gives it, if any ship does. */
  function ShipsWrite(lens: seq<int>, ps: seq<Placement>, x: Cell): Option<CellState>
    requires |lens| == |ps|
    decreases |lens|
  {
    if lens == [] then None
    else match ShipsWrite(lens[1..], ps[1..], x)
      case Some(s) => Some(s)
      case None => ShipCellState(lens[0], ps[0], x)
  }

  /** After the ship loop, a cell holds the state the last ship writing it gave it, else its
      state before the loop. */
  lemma {:induction false} PlaceShipsContents(b: Board, cols: int, rows: int, lens: seq<int>, ps: seq<Placement>, c: int, r: int)
    requires Shaped(b, cols, rows) && |lens| == |ps|
    requires forall i :: 0 <= i < |lens| ==> 1 <= lens[i]
    requires InGrid(cols, rows, c, r)
    requires PlaceShips(b, cols, rows, lens, ps).Success?
    ensures PlaceShips(b, cols, rows, lens, ps).value[c][r] ==
              match ShipsWrite(lens, ps, (c, r)) case Some(s) => s case None => b[c][r]
    decreases |lens|
  {
    if lens != [] {
      var b' := PlaceShip(b, cols, rows, lens[0], ps[0]).value;
      PlaceShipCell(b, cols, rows, lens[0], ps[0], c, r);
      PlaceShipsContents(b', cols, rows, lens[1..], ps[1..], c, r);
    }
  }

  /** Every state a ship writes is occupied and refined (never `OccupiedUnknown`). */
  lemma {:induction false} ShipsWriteRefined(lens: seq<int>, ps: seq<Placement>, x: Cell)
    requires |lens| == |ps|
    ensures ShipsWrite(lens, ps, x).Some? ==>
              IsOccupied(ShipsWrite(lens, ps, x).value) && ShipsWrite(lens, ps, x).value != OccupiedUnknown
    decreases |lens|
  {
    if lens != [] {
      ShipsWriteRefined(lens[1..], ps[1..], x);
    }
  }

  /** A cell that lies on no ship of the fleet is written by none. */
  lemma {:induction false} ShipsWriteOff(lens: seq<int>, ps: seq<Placement>, x: Cell)
    requires |lens| == |ps|
    requires forall j :: 0 <= j < |lens| ==> !OnShip(lens[j], ps[j], x)
    ensures ShipsWrite(lens, ps, x).None?
    decreases |lens|
  {
    if lens != [] {
      assert !OnShip(lens[0], ps[0], x);
      forall j | 0 <= j < |lens| - 1 ensures !OnShip(lens[1..][j], ps[1..][j], x) {
        assert lens[1..][j] == lens[j + 1] && ps[1..][j] == ps[j + 1];
      }
      ShipsWriteOff(lens[1..], ps[1..], x);
    }
  }

  /** When only ship `i` lies on `x`, the fleet writes `x` exactly as ship `i` does. */
  lemma {:induction false} ShipsWriteSole(lens: seq<int>, ps: seq<Placement>, i: int, x: Cell)
    requires |lens| == |ps| && 0 <= i < |lens|
    requires forall j :: 0 <= j < |lens| && j != i ==> !OnShip(lens[j], ps[j], x)
    ensures ShipsWrite(lens, ps, x) == ShipCellState(lens[i], ps[i], x)
    decreases |lens|
  {
    if i == 0 {
      forall j | 0 <= j < |lens| - 1 ensures !OnShip(lens[1..][j], ps[1..][j], x) {
        assert lens[1..][j] == lens[j + 1] && ps[1..][j] == ps[j + 1];
      }
      ShipsWriteOff(lens[1..], ps[1..], x);
    } else {
      assert forall j :: 0 <= j < |lens| - 1 && j != i - 1 ==> !OnShip(lens[1..][j], ps[1..][j], x) by {
        forall j | 0 <= j < |lens| - 1 && j != i - 1 ensures !OnShip(lens[1..][j], ps[1..][j], x) {
          assert lens[1..][j] == lens[j + 1] && ps[1..][j] == ps[j + 1];
        }
      }
      ShipsWriteSole(lens[1..], ps[1..], i - 1, x);
      assert !OnShip(lens[0], ps[0], x);
    }
  }

  /** The cells of a ship in the grid are within one step of each other's boxes: if a cell
      of one ship lies in another's bounding box, some cell of the other lies in the first
      one's box. */
  lemma {:induction false} BoxSymmetric(len1: int, p1: Placement, len2: int, p2: Placement, x: Cell)
    requires 1 <= len1 && 1 <= len2
    requires OnShip(len1, p1, x) && InShipBox(len2, p2, x)
    ensures exists y :: OnShip(len2, p2, y) && InShipBox(len1, p1, y)
  {
    var y: Cell;
    if p2.rowAligned {
      var yc := if x.0 < p2.col then p2.col else if x.0 >= p2.col + len2 then p2.col + len2 - 1 else x.0;
      y := (yc, p2.row);
    } else {
      var yr := if x.1 < p2.row then p2.row else if x.1 >= p2.row + len2 then p2.row + len2 - 1 else x.1;
      y := (p2.col, yr);
    }
    assert OnShip(len2, p2, y) && InShipBox(len1, p1, y);
  }

  /** The cell a ship of three or more cells leaves unwritten has a written cell of the same
      ship on each side along its axis, so any bounding box that holds it holds one of them. */
  lemma {:induction false} GapFlanked(len: int, p: Placement, len2: int, q: Placement)
    requires 3 <= len && 1 <= len2
    requires InShipBox(len2, q, Along(p, len - 2))
    ensures InShipBox(len2, q, Along(p, len - 1)) || InShipBox(len2, q, Along(p, len - 3))
  {
  }

  /** A bounding box that holds a cell of a ship holds a cell that ship writes: the cell
      itself or, for the skipped cell, one of its two neighbours along the ship. */
  lemma {:induction false} BoxMeetsWrites(len: int, p: Placement, len2: int, q: Placement, x: Cell)
    requires 1 <= len && 1 <= len2
    requires OnShip(len, p, x) && InShipBox(len2, q, x)
    ensures exists y :: ShipCellState(len, p, y).Some? && InShipBox(len2, q, y)
  {
    if Skipped(len, Offset(p, x)) {
      GapFlanked(len, p, len2, q);
      if InShipBox(len2, q, Along(p, len - 1)) {
        assert ShipCellState(len, p, Along(p, len - 1)).Some?;
      } else {
        assert ShipCellState(len, p, Along(p, len - 3)).Some?;
      }
    } else {
      assert ShipCellState(len, p, x).Some?;
    }
  }

  /** Every ship of the fleet fits in the grid. */
  ghost predicate AllFit(cols: int, rows: int, lens: seq<int>, ps: seq<Placement>)
    requires |lens| == |ps|
  {
    forall i :: 0 <= i < |lens| ==> Fits(cols, rows, lens[i], ps[i])
  }

  /** No cell of a ship lies in the bounding box of a later ship. */
  ghost predicate LaterBoxesClear(lens: seq<int>, ps: seq<Placement>)
    requires |lens| == |ps|
  {
    forall i, j, x :: 0 <= i < j < |lens| && OnShip(lens[i], ps[i], x) ==> !InShipBox(lens[j], ps[j], x)
  }

  /** No in-grid cell of any ship's bounding box is occupied in `b`. */
  ghost predicate BoxesEmpty(b: Board, cols: int, rows: int, lens: seq<int>, ps: seq<Placement>)
    requires Shaped(b, cols, rows) && |lens| == |ps|
  {
    forall i, y: Cell :: 0 <= i < |lens| && InGridCell(cols, rows, y) && InShipBox(lens[i], ps[i], y) ==>
      !IsOccupied(b[y.0][y.1])
  }

  /** A ship is placed on a grid only when its cells fit and no cell of its bounding box is
      occupied; an occupied cell stays occupied, and each cell it writes becomes occupied. */
  lemma {:induction false} PlaceShipStep(b: Board, cols: int, rows: int, len: int, p: Placement, y: Cell)
    requires Shaped(b, cols, rows) && 1 <= len && InGridCell(cols, rows, y)
    requires PlaceShip(b, cols, rows, len, p).Success?
    ensures IsOccupied(b[y.0][y.1]) ==> IsOccupied(PlaceShip(b, cols, rows, len, p).value[y.0][y.1])
    ensures ShipCellState(len, p, y).Some? ==> IsOccupied(PlaceShip(b, cols, rows, len, p).value[y.0][y.1])
  {
    PlaceShipCell(b, cols, rows, len, p, y.0, y.1);
  }

  /** A ship cell of the first ship cannot lie in a later ship's box once the later box is
      empty on the grid holding the first ship. */
  lemma {:induction false} FirstShipOutside(b: Board, cols: int, rows: int, len: int, p: Placement, len2: int, q: Placement, x: Cell)
    requires Shaped(b, cols, rows) && 1 <= len && 1 <= len2
    requires PlaceShip(b, cols, rows, len, p).Success?
    requires Fits(cols, rows, len, p) && OnShip(len, p, x)
    requires var b' := PlaceShip(b, cols, rows, len, p).value;
             forall y: Cell :: InGridCell(cols, rows, y) && InShipBox(len2, q, y) ==> !IsOccupied(b'[y.0][y.1])
    ensures !InShipBox(len2, q, x)
  {
    if InShipBox(len2, q, x) {
      BoxMeetsWrites(len, p, len2, q, x);
      var y :| ShipCellState(len, p, y).Some? && InShipBox(len2, q, y);
      assert InGridCell(cols, rows, y);
      PlaceShipStep(b, cols, rows, len, p, y);
      assert false;
    }
  }

  /** What `AllFit` and `LaterBoxesClear` say of a fleet's tail, they say of the fleet's
      ships after the first. */
  lemma {:induction false} TailFacts(cols: int, rows: int, lens: seq<int>, ps: seq<Placement>)
    requires |lens| == |ps| && lens != []
    requires AllFit(cols, rows, lens[1..], ps[1..]) && LaterBoxesClear(lens[1..], ps[1..])
    ensures forall i :: 1 <= i < |lens| ==> Fits(cols, rows, lens[i], ps[i])
    ensures forall i, j, x :: 1 <= i < j < |lens| && OnShip(lens[i], ps[i], x) ==> !InShipBox(lens[j], ps[j], x)
  {
    forall i, j, x | 1 <= i < j < |lens| && OnShip(lens[i], ps[i], x) ensures !InShipBox(lens[j], ps[j], x) {
      assert lens[1..][i - 1] == lens[i] && ps[1..][i - 1] == ps[i];
      assert lens[1..][j - 1] == lens[j] && ps[1..][j - 1] == ps[j];
    }
    forall i | 1 <= i < |lens| ensures Fits(cols, rows, lens[i], ps[i]) {
      assert lens[1..][i - 1] == lens[i] && ps[1..][i - 1] == ps[i];
    }
  }

  /** An accepted fleet fits in the grid, no cell of a ship lies in a later ship's bounding
      box, and every box was empty on the grid the loop started from. */
  lemma {:induction false} PlaceShipsApart(b: Board, cols: int, rows: int, lens: seq<int>, ps: seq<Placement>)
    requires Shaped(b, cols, rows) && |lens| == |ps|
    requires forall i :: 0 <= i < |lens| ==> 1 <= lens[i]
    requires PlaceShips(b, cols, rows, lens, ps).Success?
    ensures AllFit(cols, rows, lens, ps) && LaterBoxesClear(lens, ps) && BoxesEmpty(b, cols, rows, lens, ps)
    decreases |lens|
  {
    if lens != [] {
      var b' := PlaceShip(b, cols, rows, lens[0], ps[0]).value;
      PlaceShipGuard(b, cols, rows, lens[0], ps[0]);
      PlaceShipsApart(b', cols, rows, lens[1..], ps[1..]);
      forall j, y: Cell | 1 <= j < |lens| && InGridCell(cols, rows, y) && InShipBox(lens[j], ps[j], y)
        ensures !IsOccupied(b[y.0][y.1])
      {
        assert lens[1..][j - 1] == lens[j] && ps[1..][j - 1] == ps[j];
        PlaceShipStep(b, cols, rows, lens[0], ps[0], y);
      }
      forall j, x | 1 <= j < |lens| && OnShip(lens[0], ps[0], x) ensures !InShipBox(lens[j], ps[j], x) {
        assert lens[1..][j - 1] == lens[j] && ps[1..][j - 1] == ps[j];
        FirstShipOutside(b, cols, rows, lens[0], ps[0], lens[j], ps[j], x);
      }
      TailFacts(cols, rows, lens, ps);
    }
  }

  /** No cell of a ship lies in the bounding box of any other ship: ships neither overlap
      nor touch, not even at a corner. */
  ghost predicate ShipsApart(lens: seq<int>, ps: seq<Placement>)
    requires |lens| == |ps|
  {
    forall i, j, x :: 0 <= i < |lens| && 0 <= j < |lens| && i != j && OnShip(lens[i], ps[i], x) ==>
      !InShipBox(lens[j], ps[j], x)
  }

  /** A derived solution comes from a fleet whose ships all fit and lie apart. */
  lemma {:induction false} DeriveApart(cols: int, rows: int, lens: seq<int>, ps: seq<Placement>)
    requires 1 <= cols && 1 <= rows && |lens| == |ps|
    requires forall i :: 0 <= i < |lens| ==> 1 <= lens[i]
    requires Derive(cols, rows, lens, ps).Success?
    ensures AllFit(cols, rows, lens, ps) && ShipsApart(lens, ps)
  {
    PlaceShipsApart(Blank(cols, rows), cols, rows, lens, ps);
    forall i, j, x | 0 <= j < i < |lens| && OnShip(lens[i], ps[i], x) ensures !InShipBox(lens[j], ps[j], x) {
      if InShipBox(lens[j], ps[j], x) {
        BoxSymmetric(lens[i], ps[i], lens[j], ps[j], x);
        assert false;
      }
    }
  }

  /** A ship that fits in the grid, with no occupied cell in its clipped bounding box, is
      accepted. */
  lemma {:induction false} PlaceShipAccepts(b: Board, cols: int, rows: int, len: int, p: Placement)
    requires Shaped(b, cols, rows) && 1 <= len && Fits(cols, rows, len, p)
    requires forall y: Cell :: InGridCell(cols, rows, y) && InShipBox(len, p, y) ==> !IsOccupied(b[y.0][y.1])
    ensures PlaceShip(b, cols, rows, len, p).Success?
  {
    var ws := ShipWrites(len, p);
    forall k | 0 <= k < |ws| ensures InGridCell(cols, rows, ws[k].0) {
      ShipWriteAt(len, p, k);
    }
  }

  /** Once the first ship of a fleet that lies apart is placed, the boxes of the others are
      still empty. */
  lemma {:induction false} BoxesStayEmpty(b: Board, cols: int, rows: int, lens: seq<int>, ps: seq<Placement>)
    requires Shaped(b, cols, rows) && |lens| == |ps| && lens != []
    requires forall i :: 0 <= i < |lens| ==> 1 <= lens[i]
    requires ShipsApart(lens, ps) && BoxesEmpty(b, cols, rows, lens, ps)
    requires PlaceShip(b, cols, rows, lens[0], ps[0]).Success?
    ensures BoxesEmpty(PlaceShip(b, cols, rows, lens[0], ps[0]).value, cols, rows, lens[1..], ps[1..])
  {
    var b' := PlaceShip(b, cols, rows, lens[0], ps[0]).value;
    forall j, y: Cell | 0 <= j < |lens| - 1 && InGridCell(cols, rows, y) && InShipBox(lens[1..][j], ps[1..][j], y)
      ensures !IsOccupied(b'[y.0][y.1])
    {
      assert lens[1..][j] == lens[j + 1] && ps[1..][j] == ps[j + 1];
      assert !OnShip(lens[0], ps[0], y);
      PlaceShipCell(b, cols, rows, lens[0], ps[0], y.0, y.1);
    }
  }

  /** The ships after the first of a fleet that fits and lies apart fit and lie apart. */
  lemma {:induction false} TailApart(cols: int, rows: int, lens: seq<int>, ps: seq<Placement>)
    requires |lens| == |ps| && lens != []
    requires AllFit(cols, rows, lens, ps) && ShipsApart(lens, ps)
    ensures AllFit(cols, rows, lens[1..], ps[1..]) && ShipsApart(lens[1..], ps[1..])
  {
    assert forall i :: 0 <= i < |lens| - 1 ==> lens[1..][i] == lens[i + 1] && ps[1..][i] == ps[i + 1];
  }

  /** A fleet whose ships fit and lie apart, on a grid where every box is empty, is accepted
      ship after ship. */
  lemma {:induction false} PlaceShipsAccepts(b: Board, cols: int, rows: int, lens: seq<int>, ps: seq<Placement>)
    requires Shaped(b, cols, rows) && |lens| == |ps|
    requires forall i :: 0 <= i < |lens| ==> 1 <= lens[i]
    requires AllFit(cols, rows, lens, ps) && ShipsApart(lens, ps) && BoxesEmpty(b, cols, rows, lens, ps)
    ensures PlaceShips(b, cols, rows, lens, ps).Success?
    decreases |lens|
  {
    if lens != [] {
      PlaceShipAccepts(b, cols, rows, lens[0], ps[0]);
      BoxesStayEmpty(b, cols, rows, lens, ps);
      TailApart(cols, rows, lens, ps);
      assert forall i :: 0 <= i < |lens| - 1 ==> lens[1..][i] == lens[i + 1];
      PlaceShipsAccepts(PlaceShip(b, cols, rows, lens[0], ps[0]).value, cols, rows, lens[1..], ps[1..]);
    }
  }

  /** Every fleet of positive lengths whose ships fit and lie apart is accepted: the
      converse of `DeriveApart`. */
  lemma {:induction false} DeriveAccepts(cols: int, rows: int, lens: seq<int>, ps: seq<Placement>)
    requires 1 <= cols && 1 <= rows && |lens| == |ps|
    requires forall i :: 0 <= i < |lens| ==> 1 <= lens[i]
    requires AllFit(cols, rows, lens, ps) && ShipsApart(lens, ps)
    ensures Derive(cols, rows, lens, ps).Success?
  {
    PlaceShipsAccepts(Blank(cols, rows), cols, rows, lens, ps);
  }

  /** The derivation accepts a fleet exactly when its ships fit in the grid and lie apart. */
  lemma {:induction false} DeriveSucceedsIff(cols: int, rows: int, lens: seq<int>, ps: seq<Placement>)
    requires 1 <= cols && 1 <= rows && |lens| == |ps|
    requires forall i :: 0 <= i < |lens| ==> 1 <= lens[i]
    ensures Derive(cols, rows, lens, ps).Success? <==> AllFit(cols, rows, lens, ps) && ShipsApart(lens, ps)
  {
    if Derive(cols, rows, lens, ps).Success? {
      DeriveApart(cols, rows, lens, ps);
    }
    if AllFit(cols, rows, lens, ps) && ShipsApart(lens, ps) {
      DeriveAccepts(cols, rows, lens, ps);
    }
  }

  /** A cell of the derived solution holds the state the last ship writing it gave it, and
      water where no ship wrote. */
  lemma {:induction false} DeriveCell(cols: int, rows: int, lens: seq<int>, ps: seq<Placement>, c: int, r: int)
    requires 1 <= cols && 1 <= rows && |lens| == |ps|
    requires forall i :: 0 <= i < |lens| ==> 1 <= lens[i]
    requires InGrid(cols, rows, c, r)
    requires Derive(cols, rows, lens, ps).Success?
    ensures Derive(cols, rows, lens, ps).value[c][r] ==
              match ShipsWrite(lens, ps, (c, r)) case Some(s) => s case None => Water
  {
    PlaceShipsContents(Blank(cols, rows), cols, rows, lens, ps, c, r);
    ShipsWriteRefined(lens, ps, (c, r));
  }

  /** In a derived solution, a cell of ship `i` holds that ship's state for it, and the cell
      its mid-cell loop skips is water. */
  lemma {:induction false} DerivedShipCell(cols: int, rows: int, lens: seq<int>, ps: seq<Placement>, i: int, x: Cell)
    requires 1 <= cols && 1 <= rows && |lens| == |ps|
    requires forall k :: 0 <= k < |lens| ==> 1 <= lens[k]
    requires Derive(cols, rows, lens, ps).Success?
    requires 0 <= i < |lens| && OnShip(lens[i], ps[i], x)
    ensures InGridCell(cols, rows, x)
    ensures Derive(cols, rows, lens, ps).value[x.0][x.1] ==
              if Skipped(lens[i], Offset(ps[i], x)) then Water else StateAt(lens[i], ps[i].rowAligned, Offset(ps[i], x))
  {
    DeriveApart(cols, rows, lens, ps);
    assert Fits(cols, rows, lens[i], ps[i]);
    forall j | 0 <= j < |lens| && j != i ensures !OnShip(lens[j], ps[j], x) {
      assert !InShipBox(lens[j], ps[j], x);
    }
    ShipsWriteSole(lens, ps, i, x);
    DeriveCell(cols, rows, lens, ps, x.0, x.1);
  }

  /** In a derived solution, a cell on no ship is water. */
  lemma {:induction false} DerivedOpenCell(cols: int, rows: int, lens: seq<int>, ps: seq<Placement>, c: int, r: int)
    requires 1 <= cols && 1 <= rows && |lens| == |ps|
    requires forall k :: 0 <= k < |lens| ==> 1 <= lens[k]
    requires Derive(cols, rows, lens, ps).Success? && InGrid(cols, rows, c, r)
    requires forall j :: 0 <= j < |lens| ==> !OnShip(lens[j], ps[j], (c, r))
    ensures Derive(cols, rows, lens, ps).value[c][r] == Water
  {
    ShipsWriteOff(lens, ps, (c, r));
    DeriveCell(cols, rows, lens, ps, c, r);
  }

  /** A ship of length one is a single `OccupiedWhole` cell in the derived solution. */
  lemma {:induction false} DerivedWholeShip(cols: int, rows: int, lens: seq<int>, ps: seq<Placement>, i: int)
    requires 1 <= cols && 1 <= rows && |lens| == |ps|
    requires forall k :: 0 <= k < |lens| ==> 1 <= lens[k]
    requires Derive(cols, rows, lens, ps).Success?
    requires 0 <= i < |lens| && lens[i] == 1
    ensures InGrid(cols, rows, ps[i].col, ps[i].row)
    ensures Derive(cols, rows, lens, ps).value[ps[i].col][ps[i].row] == OccupiedWhole
  {
    DerivedShipCell(cols, rows, lens, ps, i, (ps[i].col, ps[i].row));
  }

  /** A ship of three or more cells shows its end cells and, as written, its second-to-last
      cell as water in the derived solution. */
  lemma {:induction false} DerivedLongShip(cols: int, rows: int, lens: seq<int>, ps: seq<Placement>, i: int)
    requires 1 <= cols && 1 <= rows && |lens| == |ps|
    requires forall k :: 0 <= k < |lens| ==> 1 <= lens[k]
    requires Derive(cols, rows, lens, ps).Success?
    requires 0 <= i < |lens| && 3 <= lens[i]
    ensures var s := Derive(cols, rows, lens, ps).value;
            var first := Along(ps[i], 0);
            var gap := Along(ps[i], lens[i] - 2);
            var last := Along(ps[i], lens[i] - 1);
            InGridCell(cols, rows, first) && InGridCell(cols, rows, gap) && InGridCell(cols, rows, last) &&
            s[first.0][first.1] == (if ps[i].rowAligned then OccupiedEndLeft else OccupiedEndUp) &&
            s[gap.0][gap.1] == Water &&
            s[last.0][last.1] == (if ps[i].rowAligned then OccupiedEndRight else OccupiedEndDown)
  {
    DerivedShipCell(cols, rows, lens, ps, i, Along(ps[i], 0));
    DerivedShipCell(cols, rows, lens, ps, i, Along(ps[i], lens[i] - 2));
    DerivedShipCell(cols, rows, lens, ps, i, Along(ps[i], lens[i] - 1));
  }

  /** A puzzle built from a fleet, with its sums counted off the solution and the current
      grid set to that solution. */
  function SolvedView(cols: int, rows: int, lens: seq<int>, known: Board, s: Board): (v: PuzzleView)
    requires 1 <= cols && 1 <= rows && Shaped(known, cols, rows) && Shaped(s, cols, rows)
    ensures Wf(v)
  {
    PuzzleView(cols, rows, lens, ColSumsOf(s, cols, rows), RowSumsOf(s, cols, rows), known, s, Some(s))
  }

  /** Filling in the derived solution solves the puzzle: every line meets the sums counted
      off the solution, nothing contradicts it, and no cell is left unknown. */
  lemma {:induction false} DerivedSolutionSolves(cols: int, rows: int, lens: seq<int>, ps: seq<Placement>, known: Board)
    requires 1 <= cols && 1 <= rows && |lens| == |ps| && Shaped(known, cols, rows)
    requires forall k :: 0 <= k < |lens| ==> 1 <= lens[k]
    requires Derive(cols, rows, lens, ps).Success?
    ensures IsSolved(SolvedView(cols, rows, lens, known, Derive(cols, rows, lens, ps).value))
  {
    var s := Derive(cols, rows, lens, ps).value;
    var v := SolvedView(cols, rows, lens, known, s);
    SolvedViewValid(cols, rows, lens, known, s);
    assert !IsIncorrect(v);
    DerivedSolutionSettled(cols, rows, lens, ps);
  }

  /** A view whose current state is its own solution, with the sums counted off it, meets
      every line's targets. */
  lemma {:induction false} SolvedViewValid(cols: int, rows: int, lens: seq<int>, known: Board, s: Board)
    requires 1 <= cols && 1 <= rows && Shaped(known, cols, rows) && Shaped(s, cols, rows)
    ensures IsValid(SolvedView(cols, rows, lens, known, s))
  {
    var v := SolvedView(cols, rows, lens, known, s);
    forall r | 0 <= r < rows ensures RowWithinTarget(v, r) {
      RowCounts(v, r);
    }
    forall c | 0 <= c < cols ensures ColWithinTarget(v, c) {
      ColCounts(v, c);
    }
  }

  /** The derived solution leaves no cell unknown. */
  lemma {:induction false} DerivedSolutionSettled(cols: int, rows: int, lens: seq<int>, ps: seq<Placement>)
    requires 1 <= cols && 1 <= rows && |lens| == |ps|
    requires forall k :: 0 <= k < |lens| ==> 1 <= lens[k]
    requires Derive(cols, rows, lens, ps).Success?
    ensures forall c, r :: InGrid(cols, rows, c, r) ==> Settled(Derive(cols, rows, lens, ps).value[c][r])
  {
    var s := Derive(cols, rows, lens, ps).value;
    forall c, r | InGrid(cols, rows, c, r) ensures Settled(s[c][r]) {
      DeriveCell(cols, rows, lens, ps, c, r);
      ShipsWriteRefined(lens, ps, (c, r));
    }
  }
}
