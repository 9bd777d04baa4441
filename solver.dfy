/** The step-by-step solver of solver.py: its bookkeeping of ship lengths, the possible
    positions it recomputes before the forced-ship rule, one solve step, and the application of
    a step to the puzzle. The rules themselves are the functions of `Rules`. */
module Solvers {
  import opened Wrappers
  import opened Seqs
  import opened CellStates
  import opened Grids
  import opened Geometry
  import opened PuzzleQueries
  import opened Puzzles
  import opened Rules

  /** `x` put in its place in an increasing list, unless it is there already. */
  function Insert(x: int, s: seq<int>): (r: seq<int>)
    requires StrictlyIncreasing(s)
    ensures StrictlyIncreasing(r)
    ensures forall y :: y in r <==> y == x || y in s
  {
    if s == [] then [x]
    else if x < s[0] then [x] + s
    else if x == s[0] then s
    else
      var rest := Insert(x, s[1..]);
      assert forall k :: 0 <= k < |rest| ==> s[0] < rest[k] by {
        forall k | 0 <= k < |rest| ensures s[0] < rest[k] {
          assert rest[k] in rest;
          if rest[k] != x {
            var j :| 0 <= j < |s[1..]| && s[1..][j] == rest[k];
            assert s[j + 1] == rest[k];
          }
        }
      }
      [s[0]] + rest
  }

  /** `sorted(set(lengths))`: each ship length once, in increasing order. */
  function Modes(lens: seq<int>): (m: seq<int>)
    ensures StrictlyIncreasing(m)
    ensures forall x :: x in m <==> x in lens
  {
    if lens == [] then []
    else
      var m := Insert(lens[|lens| - 1], Modes(lens[..|lens| - 1]));
      assert forall x :: x in lens <==> x == lens[|lens| - 1] || x in lens[..|lens| - 1] by {
        assert lens == lens[..|lens| - 1] + [lens[|lens| - 1]];
      }
      m
  }

  /** The constructor's `ship_lengths_dict` loop: each length mapped to its number of ships. */
  method CountLengths(lens: seq<int>) returns (counts: map<int, int>)
    ensures forall len :: len in counts <==> len in lens
    ensures forall len :: len in counts ==> counts[len] == multiset(lens)[len]
  {
    counts := map[];
    for i := 0 to |lens|
      invariant forall len :: len in counts <==> len in lens[..i]
      invariant forall len :: len in counts ==> counts[len] == multiset(lens[..i])[len]
    {
      assert lens[..i + 1] == lens[..i] + [lens[i]];
      if lens[i] !in counts {
        counts := counts[lens[i] := 0];
      }
      counts := counts[lens[i] := counts[lens[i]] + 1];
    }
    assert lens[..|lens|] == lens;
  }

  /** The counts of the lengths in `modes`, added up. */
  function Total(modes: seq<int>, counts: map<int, int>): int
    requires forall i :: 0 <= i < |modes| ==> modes[i] in counts
  {
    if modes == [] then 0 else counts[modes[0]] + Total(modes[1..], counts)
  }

  /** The ships of every length but `x`. */
  function Without(lens: seq<int>, x: int): (r: seq<int>)
    ensures forall y :: y in r <==> y in lens && y != x
    ensures forall y :: y != x ==> multiset(r)[y] == multiset(lens)[y]
    ensures |r| + multiset(lens)[x] == |lens|
  {
    if lens == [] then []
    else
      assert lens == [lens[0]] + lens[1..];
      var rest := Without(lens[1..], x);
      if lens[0] == x then rest else [lens[0]] + rest
  }

  /** Counting every ship once: over the distinct lengths, the counts add up to the number of
      ships. */
  lemma {:induction false} TotalShips(modes: seq<int>, lens: seq<int>, counts: map<int, int>)
    requires StrictlyIncreasing(modes)
    requires forall len :: len in lens <==> len in modes
    requires forall len :: len in modes ==> len in counts && counts[len] == multiset(lens)[len]
    ensures forall i :: 0 <= i < |modes| ==> modes[i] in counts
    ensures Total(modes, counts) == |lens|
  {
    if modes != [] {
      var x := modes[0];
      DropMode(modes, lens, counts);
      TotalShips(modes[1..], Without(lens, x), counts);
      assert x in modes;
      assert forall i :: 1 <= i < |modes| ==> modes[i] == modes[1..][i - 1];
    } else {
      FirstAmong(lens, modes);
    }
  }

  /** Taking out the shortest length and its ships leaves the other lengths, counted alike. */
  lemma {:induction false} DropMode(modes: seq<int>, lens: seq<int>, counts: map<int, int>)
    requires StrictlyIncreasing(modes) && modes != []
    requires forall len :: len in lens <==> len in modes
    requires forall len :: len in modes ==> len in counts && counts[len] == multiset(lens)[len]
    ensures StrictlyIncreasing(modes[1..])
    ensures forall len :: len in Without(lens, modes[0]) <==> len in modes[1..]
    ensures forall len :: len in modes[1..] ==>
              len in counts && counts[len] == multiset(Without(lens, modes[0]))[len]
  {
    var x := modes[0];
    assert forall len :: len in modes[1..] ==> len != x && len in modes by {
      forall len | len in modes[1..] ensures len != x && len in modes {
        var j :| 0 <= j < |modes[1..]| && modes[1..][j] == len;
        assert modes[j + 1] == len;
      }
    }
    assert forall len :: len in modes ==> len == x || len in modes[1..] by {
      assert modes == [x] + modes[1..];
    }
  }

  lemma {:induction false} FirstAmong(lens: seq<int>, modes: seq<int>)
    requires forall len :: len in lens ==> len in modes
    ensures lens != [] ==> lens[0] in modes
  {
    if lens != [] {
      var y := lens[0];
      assert y in lens;
    }
  }

  /** The counts the solver keeps add up to the number of ships. */
  lemma {:induction false} CountsTotal(lens: seq<int>, counts: map<int, int>)
    requires forall len :: len in counts <==> len in lens
    requires forall len :: len in counts ==> counts[len] == multiset(lens)[len]
    ensures Total(Modes(lens), counts) == |lens|
  {
    TotalShips(Modes(lens), lens, counts);
  }

  /** `do_step` on values: each cell set in turn through `set_cell`'s guard; the first
      rejection stops it, with the earlier cells set, as the exception `set_cell` raises
      would. */
  function ApplyAssigns(v: PuzzleView, cells: seq<Assign>): (res: (Outcome<Error>, Board))
    requires Wf(v)
    ensures Shaped(res.1, v.numCols, v.numRows)
    decreases |cells|
  {
    if cells == [] then (Pass, v.curr)
    else
      var a := cells[0];
      match SetCellGuard(v, a.c, a.r, a.state)
      case Fail(e) => (Fail(e), v.curr)
      case Pass => ApplyAssigns(v.(curr := SetAt(v.curr, a.c, a.r, a.state)), cells[1..])
  }

  /** `set_cell` looks only at the known grid, which no step changes: a step goes through
      exactly when `set_cell` accepts each of its cells on the puzzle it starts from. */
  lemma {:induction false} ApplyPassIff(v: PuzzleView, cells: seq<Assign>)
    requires Wf(v)
    ensures ApplyAssigns(v, cells).0.Pass? <==>
              forall a :: a in cells ==> SetCellGuard(v, a.c, a.r, a.state).Pass?
    decreases |cells|
  {
    if cells != [] {
      var a := cells[0];
      if SetCellGuard(v, a.c, a.r, a.state).Pass? {
        var w := v.(curr := SetAt(v.curr, a.c, a.r, a.state));
        ApplyPassIff(w, cells[1..]);
        assert forall b :: b in cells <==> b == a || b in cells[1..] by {
          assert cells == [a] + cells[1..];
        }
      }
    }
  }

  /** A step keeps the current grid in agreement with the known one, whether it goes through
      or stops. */
  lemma {:induction false} ApplyKeepsAgreement(v: PuzzleView, cells: seq<Assign>)
    requires Wf(v) && Agrees(v.known, v.curr, v.numCols, v.numRows)
    ensures Agrees(v.known, ApplyAssigns(v, cells).1, v.numCols, v.numRows)
    decreases |cells|
  {
    if cells != [] {
      var a := cells[0];
      if SetCellGuard(v, a.c, a.r, a.state).Pass? {
        SetCellKeepsAgreement(v, a.c, a.r, a.state);
        ApplyKeepsAgreement(v.(curr := SetAt(v.curr, a.c, a.r, a.state)), cells[1..]);
      }
    }
  }

  /** A step changes no cell it does not name. */
  lemma {:induction false} ApplyFrame(v: PuzzleView, cells: seq<Assign>, c: int, r: int)
    requires Wf(v) && InGrid(v.numCols, v.numRows, c, r)
    requires forall a :: a in cells ==> (a.c, a.r) != (c, r)
    ensures ApplyAssigns(v, cells).1[c][r] == v.curr[c][r]
    decreases |cells|
  {
    if cells != [] {
      var a := cells[0];
      if SetCellGuard(v, a.c, a.r, a.state).Pass? {
        assert forall b :: b in cells[1..] ==> b in cells;
        ApplyFrame(v.(curr := SetAt(v.curr, a.c, a.r, a.state)), cells[1..], c, r);
      }
    }
  }

  /** A step that sets one state everywhere and goes through leaves every cell it names in
      that state. */
  lemma {:induction false} ApplyFill(v: PuzzleView, cells: seq<Assign>, s: CellState)
    requires Wf(v)
    requires forall a :: a in cells ==> a.state == s
    requires ApplyAssigns(v, cells).0.Pass?
    ensures forall a :: a in cells ==>
              InGrid(v.numCols, v.numRows, a.c, a.r) && ApplyAssigns(v, cells).1[a.c][a.r] == s
    ensures forall c, r :: InGrid(v.numCols, v.numRows, c, r) && v.curr[c][r] == s ==>
              ApplyAssigns(v, cells).1[c][r] == s
    decreases |cells|
  {
    if cells != [] {
      var a := cells[0];
      ApplyPassIff(v, cells);
      assert a in cells;
      var w := v.(curr := SetAt(v.curr, a.c, a.r, a.state));
      ApplyFill(w, cells[1..], s);
      assert forall b :: b in cells <==> b == a || b in cells[1..] by {
        assert cells == [a] + cells[1..];
      }
    }
  }

  /** On a puzzle whose current grid agrees with its known one, a step on open cells goes
      through. */
  lemma {:induction false} OpenStepPasses(v: PuzzleView, cells: seq<Assign>)
    requires Wf(v) && Agrees(v.known, v.curr, v.numCols, v.numRows)
    requires OnOpenCells(v, cells)
    ensures ApplyAssigns(v, cells).0 == Pass
  {
    ApplyPassIff(v, cells);
  }

  /** Every step of the first six rules goes through on a puzzle whose current grid agrees
      with its known one; only a forced-ship step can be rejected. */
  lemma {:induction false} NextStepApplies(v: PuzzleView, modes: seq<int>, counts: map<int, int>)
    requires Wf(v) && Bookkept(modes, counts) && Agrees(v.known, v.curr, v.numCols, v.numRows)
    requires NextStep(v, modes, counts).verdict != Applied(PlaceLargeShip)
    ensures ApplyAssigns(v, NextStep(v, modes, counts).cells).0 == Pass
  {
    NextStepFirst(v, modes, counts);
    var step := NextStep(v, modes, counts);
    if step.verdict.Applied? {
      RuleStepOpen(v, modes, counts, step.verdict.rule);
      OpenStepPasses(v, step.cells);
    }
  }

  /** The solver never overwrites a settled cell with the first six rules: a cell that is
      neither `Unknown` nor `OccupiedUnknown` keeps its state through their steps. */
  lemma {:induction false} SettledCellsKept(v: PuzzleView, modes: seq<int>, counts: map<int, int>,
                                            rule: Rule, c: int, r: int)
    requires Wf(v) && Bookkept(modes, counts) && rule != PlaceLargeShip
    requires InGrid(v.numCols, v.numRows, c, r)
    requires !IsUnknown(v.curr[c][r]) && v.curr[c][r] != OccupiedUnknown
    ensures ApplyAssigns(v, RuleStep(v, modes, counts, rule)).1[c][r] == v.curr[c][r]
  {
    RuleStepOpen(v, modes, counts, rule);
    ApplyFrame(v, RuleStep(v, modes, counts, rule), c, r);
  }

  /** Applying assignments that all name a known state never makes a known cell unknown
      again, whichever cells they touch. */
  lemma {:induction false} ApplyKeepsKnown(v: PuzzleView, cells: seq<Assign>, c: int, r: int)
    requires Wf(v) && InGrid(v.numCols, v.numRows, c, r)
    requires SetsKnown(cells) && !IsUnknown(v.curr[c][r])
    ensures !IsUnknown(ApplyAssigns(v, cells).1[c][r])
    decreases |cells|
  {
    if cells != [] {
      var a := cells[0];
      if SetCellGuard(v, a.c, a.r, a.state).Pass? {
        assert forall b :: b in cells[1..] ==> b in cells;
        ApplyKeepsKnown(v.(curr := SetAt(v.curr, a.c, a.r, a.state)), cells[1..], c, r);
      }
    }
  }

  /** The solver's progress is monotone: no rule writes `Unknown`, so every cell known before
      a step, under any of the seven rules, is still known after it. */
  lemma {:induction false} StepKeepsKnown(v: PuzzleView, modes: seq<int>, counts: map<int, int>, rule: Rule)
    requires Wf(v) && Bookkept(modes, counts)
    ensures forall a :: a in RuleStep(v, modes, counts, rule) ==> a.state != Unknown
    ensures forall c, r :: InGrid(v.numCols, v.numRows, c, r) && !IsUnknown(v.curr[c][r]) ==>
              !IsUnknown(ApplyAssigns(v, RuleStep(v, modes, counts, rule)).1[c][r])
  {
    RuleStepKnown(v, modes, counts, rule);
    forall c, r | InGrid(v.numCols, v.numRows, c, r) && !IsUnknown(v.curr[c][r])
      ensures !IsUnknown(ApplyAssigns(v, RuleStep(v, modes, counts, rule)).1[c][r])
    {
      ApplyKeepsKnown(v, RuleStep(v, modes, counts, rule), c, r);
    }
  }

  /** One start cell of the loops below: what it appends extends the column so far. */
  lemma {:induction false} ColumnStep(rows: nat, c: nat, r: nat, q: Placement -> bool, start: seq<Placement>, ps: seq<Placement>)
    requires start == PlacementsBefore(rows, c, q) + ColumnPlacements(c, r, q)
    requires ps == start + (if q(Placement(c, r, true)) then [Placement(c, r, true)] else []) +
                           (if q(Placement(c, r, false)) then [Placement(c, r, false)] else [])
    ensures ps == PlacementsBefore(rows, c, q) + ColumnPlacements(c, r + 1, q)
  {
    var a, b, d := PlacementsBefore(rows, c, q), ColumnPlacements(c, r, q), PlacementsAt(c, r, q);
    assert ps == start + d;
    assert (a + b) + d == a + (b + d);
  }

  /** The loops of `calculate_ship_possibles` for one length, with `q` for its
      `can_place_ship` test: every start cell and direction `q` accepts, columns left to
      right, rows top to bottom, row-aligned first. */
  method PlacementsOf(cols: nat, rows: nat, q: Placement -> bool) returns (ps: seq<Placement>)
    ensures ps == PlacementsBefore(rows, cols, q)
  {
    ps := [];
    for c := 0 to cols
      invariant ps == PlacementsBefore(rows, c, q)
    {
      for r := 0 to rows
        invariant ps == PlacementsBefore(rows, c, q) + ColumnPlacements(c, r, q)
      {
        ghost var start := ps;
        if q(Placement(c, r, true)) {
          ps := ps + [Placement(c, r, true)];
        }
        if q(Placement(c, r, false)) {
          ps := ps + [Placement(c, r, false)];
        }
        ColumnStep(rows, c, r, q, start, ps);
      }
    }
  }

  /** `Solver`: a puzzle, the distinct ship lengths in increasing order, the number of ships
      of each length, and the possible positions last computed for each length. */
  class Solver {
    const puzzle: Puzzle
    const shipLengthModes: seq<int>
    const shipLengthsDict: map<int, int>
    var shipPossibles: map<int, seq<Placement>>

    ghost predicate Valid()
      reads puzzle, puzzle.curr
    {
      puzzle.Valid() &&
      shipLengthModes == Modes(puzzle.shipLengths) &&
      (forall len :: len in shipLengthsDict <==> len in puzzle.shipLengths) &&
      (forall len :: len in shipLengthsDict ==> shipLengthsDict[len] == multiset(puzzle.shipLengths)[len])
    }

    /** `Solver(puz)`: the lengths' bookkeeping and no possible positions yet. */
    constructor (puz: Puzzle)
      requires puz.Valid()
      ensures Valid() && puzzle == puz && shipPossibles == map[]
    {
      var counts := CountLengths(puz.shipLengths);
      puzzle := puz;
      shipLengthModes := Modes(puz.shipLengths);
      shipLengthsDict := counts;
      shipPossibles := map[];
    }

    lemma {:induction false} ValidBookkept()
      requires Valid()
      ensures Bookkept(shipLengthModes, shipLengthsDict)
    {
    }

    /** `calculate_ship_possibles`: the possible positions of each length, in the order of
        the lengths. */
    method CalculateShipPossibles()
      requires Valid()
      modifies this
      ensures Valid() && puzzle.View() == old(puzzle.View())
      ensures shipPossibles == CandidateMap(puzzle.View(), shipLengthModes)
    {
      var v := puzzle.View();
      var modes := shipLengthModes;
      shipPossibles := map[];
      for k := 0 to |modes|
        invariant shipPossibles == CandidateMap(v, modes[..k])
      {
        var ps := PlacementsOf(v.numCols, v.numRows, PlaceableTest(v, modes[k]));
        CandidateMapAdd(v, modes, k);
        shipPossibles := shipPossibles[modes[k] := ps];
      }
      assert modes[..|modes|] == modes;
    }
    /** `solve_step`: the first of the rules, in order, with cells to set; the possible
        positions are recomputed when the forced-ship rule is reached. */
    method SolveStep() returns (step: PuzzleSolveStep)
      requires Valid()
      modifies this
      ensures Valid()
      ensures step == NextStep(puzzle.View(), shipLengthModes, shipLengthsDict)
      ensures shipPossibles ==
                if ReachesForcedShip(puzzle.View(), shipLengthModes, shipLengthsDict)
                then CandidateMap(puzzle.View(), shipLengthModes) else old(shipPossibles)
    {
      ValidBookkept();
      var v := puzzle.View();
      var modes, counts := shipLengthModes, shipLengthsDict;
      if !IsValid(v) {
        return PuzzleSolveStep(Invalid, []);
      }
      if IsSolved(v) {
        return PuzzleSolveStep(Solved, []);
      }
      var first, cells := FirstRuleCells(0);
      NextStepOfFirst(v, modes, counts);
      if first.Some? {
        return PuzzleSolveStep(Applied(first.value), cells);
      }
      return PuzzleSolveStep(NoneFound, []);
    }

    /** The rules of `solve_step` from the `i`-th on, in order, up to the first with cells to
        set. */
    method FirstRuleCells(i: nat) returns (first: Option<Rule>, cells: seq<Assign>)
      requires Valid() && i < 7
      modifies this
      ensures Valid() && puzzle.View() == old(puzzle.View())
      ensures Bookkept(shipLengthModes, shipLengthsDict)
      ensures first == FirstRuleFrom(puzzle.View(), shipLengthModes, shipLengthsDict, i)
      ensures cells == if first.Some? then RuleStep(puzzle.View(), shipLengthModes, shipLengthsDict, first.value) else []
      ensures shipPossibles ==
                if first.None? || first == Some(PlaceLargeShip) then CandidateMap(puzzle.View(), shipLengthModes)
                else old(shipPossibles)
      decreases 7 - i
    {
      ValidBookkept();
      var v := puzzle.View();
      var modes, counts := shipLengthModes, shipLengthsDict;
      cells := RuleCells(i);
      FirstRuleAtStep(v, modes, counts, i);
      if cells != [] {
        return Some(RuleAt(i)), cells;
      }
      if i + 1 == 7 {
        return None, [];
      }
      first, cells := FirstRuleCells(i + 1);
    }

    /** One rule of `solve_step`'s order: its cells to set, the possible positions being
        recomputed first for the forced-ship rule. */
    method RuleCells(i: nat) returns (cells: seq<Assign>)
      requires Valid() && i < 7
      modifies this
      ensures Valid() && puzzle.View() == old(puzzle.View())
      ensures Bookkept(shipLengthModes, shipLengthsDict)
      ensures cells == RuleStep(puzzle.View(), shipLengthModes, shipLengthsDict, RuleAt(i))
      ensures shipPossibles ==
                if RuleAt(i) == PlaceLargeShip then CandidateMap(puzzle.View(), shipLengthModes)
                else old(shipPossibles)
    {
      ValidBookkept();
      var v := puzzle.View();
      var modes, counts := shipLengthModes, shipLengthsDict;
      var rule := RuleAt(i);
      if rule == PlaceLargeShip {
        CalculateShipPossibles();
        assert shipPossibles == CandidateMap(v, modes);
        CandidateMapFits(v, modes, counts);
        cells := ForcedShipStep(v, modes, counts, shipPossibles);
      } else {
        cells := RuleStep(v, modes, counts, rule);
      }
    }

    /** `do_step`: sets the step's cells in order through `set_cell`; a rejection stops it
        (the exception `set_cell` raises) and is returned. */
    method DoStep(step: PuzzleSolveStep) returns (out: Outcome<Error>)
      requires Valid()
      modifies puzzle.curr.cells
      ensures Valid()
      ensures (out, puzzle.curr.Board()) == ApplyAssigns(old(puzzle.View()), step.cells)
    {
      var cells := step.cells;
      for i := 0 to |cells|
        invariant Valid()
        invariant ApplyAssigns(old(puzzle.View()), cells) == ApplyAssigns(puzzle.View(), cells[i..])
      {
        var a := cells[i];
        assert cells[i..][1..] == cells[i + 1..];
        out := puzzle.SetCell(a.c, a.r, a.state);
        if out.Fail? {
          return;
        }
      }
      return Pass;
    }
  }
}
