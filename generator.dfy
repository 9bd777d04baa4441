/** The live part of `generate_solved_puzzles` (puzzle.py): a depth-first search that places
    the fleet's ships one after another on a shared set of occupied cells, adding a ship's cells,
    searching on for the next ship and removing them again, and that emits, for every complete
    placement, the known grid it describes (`OccupiedUnknown` on occupied cells, `Water`
    elsewhere). */
module Generation {
  import opened Wrappers
  import opened Seqs
  import opened CellStates
  import opened Grids
  import opened Geometry

  /** A ship of the fleet placed on the grid. */
  datatype Ship = Ship(length: int, at: Placement)

  /** `direction_list`: directions 0 (column-aligned) then 1 (row-aligned) for a ship longer
      than one cell, only direction 1 otherwise. */
  function Directions(len: int): (ds: seq<int>)
  {
    if len > 1 then [0, 1] else [1]
  }

  /** The cells of a ship placed at `p`, from its start along its axis, in or out of the grid:
      the cell list the search hands to `can_place_ship`. */
  function NominalCells(len: int, p: Placement): (cells: seq<Cell>)
    ensures forall x :: x in cells <==> OnShip(len, p, x)
    ensures forall d :: 0 <= d < |cells| ==>
              cells[d] == if p.rowAligned then (p.col + d, p.row) else (p.col, p.row + d)
  {
    if p.rowAligned then RowRun(p.col, p.col + len, p.row) else ColRun(p.col, p.row, p.row + len)
  }

  /** A list of cells as a set. */
  function CellSet(cells: seq<Cell>): (s: set<Cell>)
  {
    set x | x in cells
  }

  /** `can_place(x, y)`: the cell is in the grid and no cell around it, itself included, is
      occupied. */
  predicate CanPlace(cols: int, rows: int, occupied: set<Cell>, x: Cell) {
    InGridCell(cols, rows, x) &&
    forall y :: y in NeighbourCells(cols, rows, x.0, x.1) ==> y !in occupied
  }

  /** The search's `can_place_ship(cells)`: every cell can be placed. */
  predicate CanPlaceShip(cols: int, rows: int, occupied: set<Cell>, cells: seq<Cell>) {
    forall x :: x in cells ==> CanPlace(cols, rows, occupied, x)
  }

  /** `cell_state(cell)` of `make_puzzle`. */
  function KnownState(occupied: set<Cell>, x: Cell): CellState {
    if x in occupied then OccupiedUnknown else Water
  }

  /** The grid `make_puzzle` fills, cell by cell, from the occupied set. */
  function KnownGrid(cols: int, rows: int, occupied: set<Cell>): (b: Board)
    requires 0 <= cols && 0 <= rows
    ensures Shaped(b, cols, rows)
    ensures forall c, r :: InGrid(cols, rows, c, r) ==> b[c][r] == KnownState(occupied, (c, r))
  {
    seq(cols, c => seq(rows, r => KnownState(occupied, (c, r))))
  }

  /** The cells the ships cover. */
  function Occupied(ships: seq<Ship>): (occupied: set<Cell>)
  {
    if ships == [] then {}
    else
      var last := ships[|ships| - 1];
      Occupied(ships[..|ships| - 1]) + CellSet(NominalCells(last.length, last.at))
  }

  /** The known grids of a list of complete placements. */
  function KnownGrids(cols: int, rows: int, layouts: seq<seq<Ship>>): (grids: seq<Board>)
    requires 0 <= cols && 0 <= rows
  {
    seq(|layouts|, i requires 0 <= i < |layouts| => KnownGrid(cols, rows, Occupied(layouts[i])))
  }

  // ---------------------------------------------------------------------------------------
  // The order of the search

  /** The placements tried at `(x, y)`, one per direction of `ds`. */
  function TriesAt(x: int, y: int, ds: seq<int>): (ts: seq<Placement>)
  {
    Map(ds, d => Placement(x, y, d != 0))
  }

  /** The placements tried in column `x` at rows before `y`. */
  function TriesColumn(x: int, y: int, len: int): (ts: seq<Placement>)
    decreases y
  {
    if y <= 0 then [] else TriesColumn(x, y - 1, len) + TriesAt(x, y - 1, Directions(len))
  }

  /** The placements tried in the columns before `x` of a grid with `rows` rows. */
  function TriesBefore(x: int, rows: int, len: int): (ts: seq<Placement>)
    decreases x
  {
    if x <= 0 then [] else TriesBefore(x - 1, rows, len) + TriesColumn(x - 1, rows, len)
  }

  /** A placement the search tries for a ship of `len` cells: it starts at a cell of the grid
      and, unless the ship is longer than one cell, it is row-aligned. */
  predicate Scanned(cols: int, rows: int, len: int, p: Placement) {
    InGrid(cols, rows, p.col, p.row) && (p.rowAligned || len > 1)
  }

  lemma {:induction false} TriesAtHas(x: int, y: int, len: int, p: Placement)
    ensures p in TriesAt(x, y, Directions(len)) <==>
              p.col == x && p.row == y && (p.rowAligned || len > 1)
  {
    var ts := TriesAt(x, y, Directions(len));
    if len > 1 {
      assert ts == [Placement(x, y, false), Placement(x, y, true)];
    } else {
      assert ts == [Placement(x, y, true)];
    }
  }

  lemma {:induction false} TriesColumnHas(x: int, y: int, len: int, p: Placement)
    ensures p in TriesColumn(x, y, len) <==> p.col == x && 0 <= p.row < y && (p.rowAligned || len > 1)
    decreases y
  {
    if y > 0 {
      TriesColumnHas(x, y - 1, len, p);
      TriesAtHas(x, y - 1, len, p);
    }
  }

  /** The search tries, in the columns before `x`, exactly the placements that start there and
      have an orientation tried for the length. */
  lemma {:induction false} TriesBeforeHas(x: int, rows: int, len: int, p: Placement)
    ensures p in TriesBefore(x, rows, len) <==> 0 <= p.col < x && 0 <= p.row < rows && (p.rowAligned || len > 1)
    decreases x
  {
    if x > 0 {
      TriesBeforeHas(x - 1, rows, len, p);
      TriesColumnHas(x - 1, rows, len, p);
    }
  }

  // ---------------------------------------------------------------------------------------
  // What the search emits

  /** The complete placements the search emits once ships `ships` are down, trying in order the
      placements `ts` for the next ship. */
  function Layouts(cols: int, rows: int, lens: seq<int>, ships: seq<Ship>, ts: seq<Placement>)
    : (layouts: seq<seq<Ship>>)
    requires |ships| < |lens|
    decreases |lens| - |ships|, 0, |ts|
  {
    if ts == [] then []
    else Layouts(cols, rows, lens, ships, ts[..|ts| - 1]) + TryLayouts(cols, rows, lens, ships, ts[|ts| - 1])
  }

  /** The complete placements the search emits from placing the next ship at `p`: none when its
      cells cannot be placed. */
  function TryLayouts(cols: int, rows: int, lens: seq<int>, ships: seq<Ship>, p: Placement)
    : (layouts: seq<seq<Ship>>)
    requires |ships| < |lens|
    decreases |lens| - |ships|, 0, 0
  {
    var ship := Ship(lens[|ships|], p);
    if CanPlaceShip(cols, rows, Occupied(ships), NominalCells(ship.length, p))
    then Continue(cols, rows, lens, ships + [ship])
    else []
  }

  /** `try_place_ship_and_continue(len(ships))`: the placement itself once the fleet is down,
      else what every placement of the next ship, in scan order, leads to. */
  function Continue(cols: int, rows: int, lens: seq<int>, ships: seq<Ship>): (layouts: seq<seq<Ship>>)
    requires |ships| <= |lens|
    decreases |lens| - |ships|, 1, 0
  {
    if |ships| == |lens| then [ships]
    else Layouts(cols, rows, lens, ships, TriesBefore(cols, rows, lens[|ships|]))
  }

  /** `generate_solved_puzzles`, as the placements behind the puzzles it yields. */
  function Generated(cols: int, rows: int, lens: seq<int>): (layouts: seq<seq<Ship>>)
  {
    Continue(cols, rows, lens, [])
  }

  // ---------------------------------------------------------------------------------------
  // The search lists exactly the placements of the fleet whose ships neither overlap nor touch

  /** The ship lies in the grid, starting at a cell the search scans. */
  ghost predicate ShipInGrid(cols: int, rows: int, s: Ship) {
    Scanned(cols, rows, s.length, s.at) &&
    forall x :: OnShip(s.length, s.at, x) ==> InGridCell(cols, rows, x)
  }

  /** No cell of one ship is on, or next to (diagonals included), a cell of the other. */
  ghost predicate Apart(s: Ship, t: Ship) {
    forall x, y :: OnShip(s.length, s.at, x) && OnShip(t.length, t.at, y) ==> !Near(x, y.0, y.1)
  }

  /** The ships are the first ones of the fleet `lens`, each in the grid, pairwise apart. */
  ghost predicate Placed(cols: int, rows: int, lens: seq<int>, ships: seq<Ship>) {
    |ships| <= |lens| &&
    (forall k :: 0 <= k < |ships| ==> ships[k].length == lens[k] && ShipInGrid(cols, rows, ships[k])) &&
    (forall k, l :: 0 <= k < l < |ships| ==> Apart(ships[k], ships[l]))
  }

  /** A cell is occupied exactly when some ship covers it. */
  lemma {:induction false} OccupiedIff(ships: seq<Ship>, x: Cell)
    ensures x in Occupied(ships) <==>
              exists k :: 0 <= k < |ships| && OnShip(ships[k].length, ships[k].at, x)
  {
    if ships != [] {
      var init := ships[..|ships| - 1];
      OccupiedIff(init, x);
      if x in Occupied(init) {
        var k :| 0 <= k < |init| && OnShip(init[k].length, init[k].at, x);
        assert ships[k] == init[k];
      }
      if exists k :: 0 <= k < |ships| && OnShip(ships[k].length, ships[k].at, x) {
        var k :| 0 <= k < |ships| && OnShip(ships[k].length, ships[k].at, x);
        if k < |init| {
          assert init[k] == ships[k];
        }
      }
    }
  }

  /** Cells that can be placed are not occupied yet. */
  lemma {:induction false} PlaceableFree(cols: int, rows: int, occupied: set<Cell>, cells: seq<Cell>)
    requires CanPlaceShip(cols, rows, occupied, cells)
    ensures forall x :: x in cells ==> x !in occupied
  {
    forall x | x in cells ensures x !in occupied {
      assert x in NeighbourCells(cols, rows, x.0, x.1);
    }
  }

  /** A ship that can be placed next to placed ships keeps them placed. */
  lemma {:induction false} PlaceKeepsPlaced(cols: int, rows: int, lens: seq<int>, ships: seq<Ship>, p: Placement)
    requires Placed(cols, rows, lens, ships) && |ships| < |lens|
    requires Scanned(cols, rows, lens[|ships|], p)
    requires CanPlaceShip(cols, rows, Occupied(ships), NominalCells(lens[|ships|], p))
    ensures Placed(cols, rows, lens, ships + [Ship(lens[|ships|], p)])
  {
    var ship := Ship(lens[|ships|], p);
    var all := ships + [ship];
    ApartFromPlaced(cols, rows, ships, ship);
    PlaceableInGrid(cols, rows, Occupied(ships), ship);
    forall k, l | 0 <= k < l < |all| ensures Apart(all[k], all[l]) {
      if l < |ships| {
        assert all[k] == ships[k] && all[l] == ships[l];
      } else {
        assert all[k] == ships[k] && all[l] == ship;
      }
    }
    forall k | 0 <= k < |all| ensures all[k].length == lens[k] && ShipInGrid(cols, rows, all[k]) {
      if k < |ships| {
        assert all[k] == ships[k];
      }
    }
  }

  /** A scanned ship whose cells can be placed lies in the grid. */
  lemma {:induction false} PlaceableInGrid(cols: int, rows: int, occupied: set<Cell>, ship: Ship)
    requires Scanned(cols, rows, ship.length, ship.at)
    requires CanPlaceShip(cols, rows, occupied, NominalCells(ship.length, ship.at))
    ensures ShipInGrid(cols, rows, ship)
  {
    forall x | OnShip(ship.length, ship.at, x) ensures InGridCell(cols, rows, x) {
      assert x in NominalCells(ship.length, ship.at);
    }
  }

  /** A ship whose cells can be placed among the cells of ships in the grid is apart from
      every one of them. */
  lemma {:induction false} ApartFromPlaced(cols: int, rows: int, ships: seq<Ship>, ship: Ship)
    requires forall k :: 0 <= k < |ships| ==> ShipInGrid(cols, rows, ships[k])
    requires CanPlaceShip(cols, rows, Occupied(ships), NominalCells(ship.length, ship.at))
    ensures forall k :: 0 <= k < |ships| ==> Apart(ships[k], ship)
  {
    forall k | 0 <= k < |ships|
      ensures Apart(ships[k], ship)
    {
      forall x, y | OnShip(ships[k].length, ships[k].at, x) && OnShip(ship.length, ship.at, y)
        ensures !Near(x, y.0, y.1)
      {
        OccupiedIff(ships, x);
        assert x in Occupied(ships);
        assert y in NominalCells(ship.length, ship.at);
        assert InGridCell(cols, rows, x);
        assert Near(x, y.0, y.1) ==> x in NeighbourCells(cols, rows, y.0, y.1);
      }
    }
  }

  /** Whatever the search emits after placed ships is a placement of the whole fleet. */
  lemma {:induction false} ContinueSound(cols: int, rows: int, lens: seq<int>, ships: seq<Ship>, layout: seq<Ship>)
    requires Placed(cols, rows, lens, ships)
    requires layout in Continue(cols, rows, lens, ships)
    ensures |layout| == |lens| && Placed(cols, rows, lens, layout)
    decreases |lens| - |ships|, 1, 0
  {
    if |ships| < |lens| {
      var ts := TriesBefore(cols, rows, lens[|ships|]);
      forall t | t in ts ensures Scanned(cols, rows, lens[|ships|], t) {
        TriesBeforeHas(cols, rows, lens[|ships|], t);
      }
      LayoutsSound(cols, rows, lens, ships, ts, layout);
    }
  }

  lemma {:induction false} LayoutsSound(cols: int, rows: int, lens: seq<int>, ships: seq<Ship>,
                                        ts: seq<Placement>, layout: seq<Ship>)
    requires Placed(cols, rows, lens, ships) && |ships| < |lens|
    requires forall t :: t in ts ==> Scanned(cols, rows, lens[|ships|], t)
    requires layout in Layouts(cols, rows, lens, ships, ts)
    ensures |layout| == |lens| && Placed(cols, rows, lens, layout)
    decreases |lens| - |ships|, 0, |ts|
  {
    var init, t := ts[..|ts| - 1], ts[|ts| - 1];
    if layout in Layouts(cols, rows, lens, ships, init) {
      forall u | u in init ensures Scanned(cols, rows, lens[|ships|], u) {
        assert u in ts;
      }
      LayoutsSound(cols, rows, lens, ships, init, layout);
    } else {
      assert layout in TryLayouts(cols, rows, lens, ships, t);
      PlaceKeepsPlaced(cols, rows, lens, ships, t);
      ContinueSound(cols, rows, lens, ships + [Ship(lens[|ships|], t)], layout);
    }
  }

  /** Every placement the search emits has one ship per fleet length, each in the grid and
      starting at a scanned cell, no two on or next to one another. */
  lemma {:induction false} GeneratedSound(cols: int, rows: int, lens: seq<int>, layout: seq<Ship>)
    requires layout in Generated(cols, rows, lens)
    ensures |layout| == |lens| && Placed(cols, rows, lens, layout)
  {
    ContinueSound(cols, rows, lens, [], layout);
  }

  /** What a tried placement leads to is among what the placements tried with it lead to. */
  lemma {:induction false} LayoutsHas(cols: int, rows: int, lens: seq<int>, ships: seq<Ship>,
                                      ts: seq<Placement>, p: Placement, layout: seq<Ship>)
    requires |ships| < |lens| && p in ts
    requires layout in TryLayouts(cols, rows, lens, ships, p)
    ensures layout in Layouts(cols, rows, lens, ships, ts)
    decreases |ts|
  {
    var init := ts[..|ts| - 1];
    if p != ts[|ts| - 1] {
      InInit(ts, p);
      LayoutsHas(cols, rows, lens, ships, init, p, layout);
    }
  }

  /** An element other than the last is in the sequence without its last element. */
  lemma {:induction false} InInit<T>(ts: seq<T>, p: T)
    requires p in ts && p != ts[|ts| - 1]
    ensures p in ts[..|ts| - 1]
  {
    var i :| 0 <= i < |ts| && ts[i] == p;
    assert ts[..|ts| - 1][i] == p;
  }

  /** The next ship of a complete placement can be placed on the cells of the ships before it. */
  lemma {:induction false} NextPlaceable(cols: int, rows: int, lens: seq<int>, layout: seq<Ship>, i: nat)
    requires |layout| == |lens| && Placed(cols, rows, lens, layout) && i < |lens|
    ensures CanPlaceShip(cols, rows, Occupied(layout[..i]), NominalCells(lens[i], layout[i].at))
  {
    var ships := layout[..i];
    forall y | y in NominalCells(lens[i], layout[i].at)
      ensures CanPlace(cols, rows, Occupied(ships), y)
    {
      forall z | z in NeighbourCells(cols, rows, y.0, y.1) ensures z !in Occupied(ships) {
        forall k | 0 <= k < |ships| ensures !OnShip(ships[k].length, ships[k].at, z) {
          assert ships[k] == layout[k] && Apart(layout[k], layout[i]);
        }
        OccupiedIff(ships, z);
      }
    }
  }

  /** A complete placement is emitted after any of its prefixes is down. */
  lemma {:induction false} ContinueComplete(cols: int, rows: int, lens: seq<int>, layout: seq<Ship>, i: nat)
    requires |layout| == |lens| && Placed(cols, rows, lens, layout) && i <= |lens|
    ensures layout in Continue(cols, rows, lens, layout[..i])
    decreases |lens| - i
  {
    if i == |lens| {
      assert layout[..i] == layout;
    } else {
      var ships, p := layout[..i], layout[i].at;
      assert layout[i] == Ship(lens[i], p);
      assert layout[..i + 1] == ships + [Ship(lens[i], p)];
      NextPlaceable(cols, rows, lens, layout, i);
      ContinueComplete(cols, rows, lens, layout, i + 1);
      TriesBeforeHas(cols, rows, lens[i], p);
      LayoutsHas(cols, rows, lens, ships, TriesBefore(cols, rows, lens[i]), p, layout);
    }
  }

  /** Every placement of the whole fleet whose ships lie in the grid, start at scanned cells and
      neither overlap nor touch is emitted. */
  lemma {:induction false} GeneratedComplete(cols: int, rows: int, lens: seq<int>, layout: seq<Ship>)
    requires |layout| == |lens| && Placed(cols, rows, lens, layout)
    ensures layout in Generated(cols, rows, lens)
  {
    ContinueComplete(cols, rows, lens, layout, 0);
    assert layout[..0] == [];
  }

  /** The known grid of an emitted placement marks exactly the cells its ships cover. */
  lemma {:induction false} GeneratedGrid(cols: int, rows: int, lens: seq<int>, layout: seq<Ship>, c: int, r: int)
    requires 0 <= cols && 0 <= rows && layout in Generated(cols, rows, lens) && InGrid(cols, rows, c, r)
    ensures KnownGrid(cols, rows, Occupied(layout))[c][r] == OccupiedUnknown <==>
              exists k :: 0 <= k < |layout| && OnShip(layout[k].length, layout[k].at, (c, r))
    ensures KnownGrid(cols, rows, Occupied(layout))[c][r] in {OccupiedUnknown, Water}
  {
    OccupiedIff(layout, (c, r));
  }

  // ---------------------------------------------------------------------------------------
  // The search itself: a shared occupied set, updated around each recursive call

  lemma {:induction false} KnownGridsAppend(cols: int, rows: int, a: seq<seq<Ship>>, b: seq<seq<Ship>>)
    requires 0 <= cols && 0 <= rows
    ensures KnownGrids(cols, rows, a + b) == KnownGrids(cols, rows, a) + KnownGrids(cols, rows, b)
  {
    var l, r := KnownGrids(cols, rows, a + b), KnownGrids(cols, rows, a) + KnownGrids(cols, rows, b);
    assert |l| == |r|;
    forall i | 0 <= i < |l| ensures l[i] == r[i] {
      if i < |a| {
        assert (a + b)[i] == a[i];
      } else {
        assert (a + b)[i] == b[i - |a|];
      }
    }
  }

  /** Trying one more placement emits what it leads to after what the earlier ones did. */
  lemma {:induction false} LayoutsStep(cols: int, rows: int, lens: seq<int>, ships: seq<Ship>, ts: seq<Placement>, p: Placement)
    requires 0 <= cols && 0 <= rows && |ships| < |lens|
    ensures KnownGrids(cols, rows, Layouts(cols, rows, lens, ships, ts + [p])) ==
              KnownGrids(cols, rows, Layouts(cols, rows, lens, ships, ts)) +
              KnownGrids(cols, rows, TryLayouts(cols, rows, lens, ships, p))
  {
    assert (ts + [p])[..|ts|] == ts;
    KnownGridsAppend(cols, rows, Layouts(cols, rows, lens, ships, ts), TryLayouts(cols, rows, lens, ships, p));
  }

  /** The grids found after trying one more placement are those found before it followed by
      those the placement leads to. */
  lemma {:induction false} SearchStep(cols: int, rows: int, lens: seq<int>, ships: seq<Ship>, base: seq<Board>,
                   done: seq<Placement>, p: Placement)
    requires 0 <= cols && 0 <= rows && |ships| < |lens|
    ensures base + KnownGrids(cols, rows, Layouts(cols, rows, lens, ships, done)) +
              KnownGrids(cols, rows, TryLayouts(cols, rows, lens, ships, p)) ==
            base + KnownGrids(cols, rows, Layouts(cols, rows, lens, ships, done + [p]))
  {
    LayoutsStep(cols, rows, lens, ships, done, p);
    Concat3(base, KnownGrids(cols, rows, Layouts(cols, rows, lens, ships, done)),
            KnownGrids(cols, rows, TryLayouts(cols, rows, lens, ships, p)));
  }

  lemma {:induction false} Concat3<T>(a: seq<T>, b: seq<T>, c: seq<T>)
    ensures (a + b) + c == a + (b + c)
  {
  }

  lemma {:induction false} TriesAtStep(x: int, y: int, ds: seq<int>, k: nat)
    requires k < |ds|
    ensures TriesAt(x, y, ds[..k + 1]) == TriesAt(x, y, ds[..k]) + [Placement(x, y, ds[k] != 0)]
  {
    assert ds[..k + 1] == ds[..k] + [ds[k]];
  }

  lemma {:induction false} ColumnStep(tried: seq<Placement>, x: int, y: int, len: int)
    requires 0 <= y
    ensures tried + TriesColumn(x, y + 1, len) == tried + TriesColumn(x, y, len) + TriesAt(x, y, Directions(len))
  {
  }

  class PuzzleGenerator {
    const numCols: int
    const numRows: int
    const shipLengths: seq<int>
    /** `occupied_cells`: the cells of the ships placed so far. */
    var occupied: set<Cell>
    /** The known grids yielded so far. */
    var found: seq<Board>

    predicate Valid() {
      1 <= numCols && 1 <= numRows
    }

    constructor (numCols: int, numRows: int, shipLengths: seq<int>)
      requires 1 <= numCols && 1 <= numRows
      ensures Valid()
      ensures this.numCols == numCols && this.numRows == numRows && this.shipLengths == shipLengths
      ensures occupied == {} && found == []
    {
      this.numCols := numCols;
      this.numRows := numRows;
      this.shipLengths := shipLengths;
      occupied := {};
      found := [];
    }

    /** `place_ship`: adds the cells to the occupied set one by one. */
    method PlaceShip(cells: seq<Cell>)
      modifies this
      ensures occupied == old(occupied) + CellSet(cells) && found == old(found)
    {
      for i := 0 to |cells|
        invariant occupied == old(occupied) + CellSet(cells[..i]) && found == old(found)
      {
        assert cells[..i + 1] == cells[..i] + [cells[i]];
        occupied := occupied + {cells[i]};
      }
      assert cells[..|cells|] == cells;
    }

    /** `remove_ship`: removes the cells from the occupied set one by one; each must be there
        (`set.remove` raises otherwise). */
    method RemoveShip(cells: seq<Cell>)
      requires forall x :: x in cells ==> x in occupied
      requires forall i, j :: 0 <= i < j < |cells| ==> cells[i] != cells[j]
      modifies this
      ensures occupied == old(occupied) - CellSet(cells) && found == old(found)
    {
      for i := 0 to |cells|
        invariant occupied == old(occupied) - CellSet(cells[..i]) && found == old(found)
      {
        assert cells[..i + 1] == cells[..i] + [cells[i]];
        assert cells[i] !in cells[..i];
        occupied := occupied - {cells[i]};
      }
      assert cells[..|cells|] == cells;
    }

    /** `make_puzzle`: a fresh grid set, column by column, to the state of each cell. */
    method MakePuzzle() returns (grid: CellGrid)
      requires Valid()
      ensures fresh(grid) && fresh(grid.cells) && grid.Valid()
      ensures grid.numCols == numCols && grid.numRows == numRows
      ensures grid.Board() == KnownGrid(numCols, numRows, occupied)
    {
      grid := new CellGrid(numCols, numRows);
      for c := 0 to numCols
        invariant grid.Valid() && fresh(grid.cells) && grid.numCols == numCols && grid.numRows == numRows
        invariant forall c', r' :: 0 <= c' < c && 0 <= r' < numRows ==>
                    grid.cells[c', r'] == KnownState(occupied, (c', r'))
      {
        for r := 0 to numRows
          invariant grid.Valid() && fresh(grid.cells) && grid.numCols == numCols && grid.numRows == numRows
          invariant forall c', r' :: 0 <= c' < c && 0 <= r' < numRows ==>
                      grid.cells[c', r'] == KnownState(occupied, (c', r'))
          invariant forall r' :: 0 <= r' < r ==> grid.cells[c, r'] == KnownState(occupied, (c, r'))
        {
          ghost var before := grid.Board();
          var _ := grid.Set(c, r, KnownState(occupied, (c, r)), None);
          assert grid.Board() == SetAt(before, c, r, KnownState(occupied, (c, r)));
        }
      }
      BoardsEqual(grid.Board(), KnownGrid(numCols, numRows, occupied), numCols, numRows);
    }

    /** One pass of the search's innermost loop: the ship's cells at `p`, and when they can be
        placed, add them, search on with the next ship, remove them. */
    method TryPlacement(shipIndex: nat, ghost ships: seq<Ship>, p: Placement)
      requires Valid() && shipIndex == |ships| < |shipLengths| && occupied == Occupied(ships)
      modifies this
      ensures occupied == old(occupied)
      ensures found == old(found) + KnownGrids(numCols, numRows, TryLayouts(numCols, numRows, shipLengths, ships, p))
      decreases |shipLengths| - shipIndex, 0
    {
      var len := shipLengths[shipIndex];
      var shipCells := NominalCells(len, p);
      if CanPlaceShip(numCols, numRows, occupied, shipCells) {
        PlaceableFree(numCols, numRows, occupied, shipCells);
        ghost var next := ships + [Ship(len, p)];
        assert next[..|ships|] == ships;
        PlaceShip(shipCells);
        TryPlaceShipAndContinue(shipIndex + 1, next);
        RemoveShip(shipCells);
      }
    }

    /** The innermost loop of the search: each direction of `directionList` at `(x, y)`. */
    method TryDirections(shipIndex: nat, ghost ships: seq<Ship>, x: int, y: int, directionList: seq<int>,
                         ghost tried: seq<Placement>, ghost base: seq<Board>)
      requires Valid() && shipIndex == |ships| < |shipLengths| && occupied == Occupied(ships)
      requires found == base + KnownGrids(numCols, numRows, Layouts(numCols, numRows, shipLengths, ships, tried))
      modifies this
      ensures occupied == old(occupied)
      ensures found == base + KnownGrids(numCols, numRows,
                Layouts(numCols, numRows, shipLengths, ships, tried + TriesAt(x, y, directionList)))
      decreases |shipLengths| - shipIndex, 1
    {
      ghost var done := tried;
      for k := 0 to |directionList|
        invariant occupied == old(occupied)
        invariant done == tried + TriesAt(x, y, directionList[..k])
        invariant found == base + KnownGrids(numCols, numRows, Layouts(numCols, numRows, shipLengths, ships, done))
      {
        var p := Placement(x, y, directionList[k] != 0);
        ghost var before := found;
        TryPlacement(shipIndex, ships, p);
        SearchStep(numCols, numRows, shipLengths, ships, base, done, p);
        TriesAtStep(x, y, directionList, k);
        done := done + [p];
      }
      assert directionList[..|directionList|] == directionList;
    }

    /** The middle loop of the search: each row of column `x`. */
    method TryColumn(shipIndex: nat, ghost ships: seq<Ship>, x: int, directionList: seq<int>,
                     ghost tried: seq<Placement>, ghost base: seq<Board>)
      requires Valid() && shipIndex == |ships| < |shipLengths| && occupied == Occupied(ships)
      requires directionList == Directions(shipLengths[shipIndex])
      requires found == base + KnownGrids(numCols, numRows, Layouts(numCols, numRows, shipLengths, ships, tried))
      modifies this
      ensures occupied == old(occupied)
      ensures found == base + KnownGrids(numCols, numRows,
                Layouts(numCols, numRows, shipLengths, ships, tried + TriesColumn(x, numRows, shipLengths[shipIndex])))
      decreases |shipLengths| - shipIndex, 2
    {
      ghost var len := shipLengths[shipIndex];
      ghost var done := tried;
      for y := 0 to numRows
        invariant occupied == old(occupied)
        invariant done == tried + TriesColumn(x, y, len)
        invariant found == base + KnownGrids(numCols, numRows, Layouts(numCols, numRows, shipLengths, ships, done))
      {
        TryDirections(shipIndex, ships, x, y, directionList, done, base);
        done := done + TriesAt(x, y, directionList);
        ColumnStep(tried, x, y, len);
      }
    }

    /** `try_place_ship_and_continue(ship_index)`: the known grid once the fleet is down, else
        every column, row and direction for the ship, in that nesting. The occupied set is the
        same afterwards. */
    method TryPlaceShipAndContinue(shipIndex: nat, ghost ships: seq<Ship>)
      requires Valid() && shipIndex == |ships| <= |shipLengths| && occupied == Occupied(ships)
      modifies this
      ensures occupied == old(occupied)
      ensures found == old(found) + KnownGrids(numCols, numRows, Continue(numCols, numRows, shipLengths, ships))
      decreases |shipLengths| - shipIndex, 3
    {
      if shipIndex >= |shipLengths| {
        var grid := MakePuzzle();
        assert KnownGrids(numCols, numRows, [ships]) == [KnownGrid(numCols, numRows, occupied)];
        found := found + [grid.Board()];
      } else {
        var len := shipLengths[shipIndex];
        var directionList := Directions(len);
        ghost var tried: seq<Placement> := [];
        for x := 0 to numCols
          invariant occupied == old(occupied)
          invariant tried == TriesBefore(x, numRows, len)
          invariant found == old(found) + KnownGrids(numCols, numRows, Layouts(numCols, numRows, shipLengths, ships, tried))
        {
          TryColumn(shipIndex, ships, x, directionList, tried, old(found));
          tried := tried + TriesColumn(x, numRows, len);
        }
      }
    }
  }

  /** `generate_solved_puzzles(num_cols, num_rows, ship_lengths)`: the known grid of every
      placement of the fleet the search finds, in the order it finds them. */
  method GenerateSolvedPuzzles(numCols: int, numRows: int, shipLengths: seq<int>) returns (grids: seq<Board>)
    requires 1 <= numCols && 1 <= numRows
    ensures grids == KnownGrids(numCols, numRows, Generated(numCols, numRows, shipLengths))
  {
    var search := new PuzzleGenerator(numCols, numRows, shipLengths);
    search.TryPlaceShipAndContinue(0, []);
    grids := search.found;
  }
}
