/** The nine marks a cell can hold, their classification and their one-character symbols. */
module CellStates {
  import opened Wrappers

  datatype CellState =
    | Unknown
    | Water
    | OccupiedUnknown
    | OccupiedWhole
    | OccupiedMid
    | OccupiedEndLeft
    | OccupiedEndUp
    | OccupiedEndRight
    | OccupiedEndDown

  predicate IsUnknown(s: CellState) { s == Unknown }

  predicate IsWater(s: CellState) { s == Water }

  predicate IsMid(s: CellState) { s == OccupiedMid }

  predicate IsWhole(s: CellState) { s == OccupiedWhole }

  predicate IsEnd(s: CellState) {
    s in [OccupiedEndDown, OccupiedEndLeft, OccupiedEndRight, OccupiedEndUp]
  }

  /** Occupied is the union of the refined ship parts and the bare OccupiedUnknown. */
  predicate IsOccupied(s: CellState) {
    IsMid(s) || IsWhole(s) || IsEnd(s) || s == OccupiedUnknown
  }

  /** The enumeration value, used as the cell's symbol in the textual grid. */
  function Symbol(s: CellState): char {
    match s
    case Unknown => '.'
    case Water => 'w'
    case OccupiedUnknown => '#'
    case OccupiedWhole => 'O'
    case OccupiedMid => '='
    case OccupiedEndLeft => '<'
    case OccupiedEndUp => '^'
    case OccupiedEndRight => '>'
    case OccupiedEndDown => 'v'
  }

  /** The members in declaration order, the order `from_symbol` searches them in. */
  const Members: seq<CellState> :=
    [Unknown, Water, OccupiedUnknown, OccupiedWhole, OccupiedMid,
     OccupiedEndLeft, OccupiedEndUp, OccupiedEndRight, OccupiedEndDown]

  /** The first member of `members` whose symbol is `symbol`. */
  function FindSymbol(members: seq<CellState>, symbol: char): (r: Option<CellState>)
    ensures r.Some? ==> r.value in members && Symbol(r.value) == symbol
    ensures r.None? ==> forall m :: m in members ==> Symbol(m) != symbol
  {
    if members == [] then None
    else if Symbol(members[0]) == symbol then Some(members[0])
    else FindSymbol(members[1..], symbol)
  }

  function FromSymbol(symbol: char): Option<CellState> {
    FindSymbol(Members, symbol)
  }

  lemma {:induction false} MembersComplete(s: CellState)
    ensures s in Members
  {
  }

  lemma {:induction false} SymbolInjective(a: CellState, b: CellState)
    requires Symbol(a) == Symbol(b)
    ensures a == b
  {
  }

  /** Decoding the symbol of any state gives the state back. */
  lemma {:induction false} SymbolRoundTrip(s: CellState)
    ensures FromSymbol(Symbol(s)) == Some(s)
  {
    MembersComplete(s);
    var r := FromSymbol(Symbol(s));
    assert r.Some?;
    SymbolInjective(r.value, s);
  }

  /** A character decodes to a state exactly when it is that state's symbol, and to None when
      it is no state's symbol. */
  lemma {:induction false} FromSymbolInverse(symbol: char)
    ensures FromSymbol(symbol).Some? ==> Symbol(FromSymbol(symbol).value) == symbol
    ensures FromSymbol(symbol).None? <==> forall s: CellState :: Symbol(s) != symbol
  {
    if FromSymbol(symbol).None? {
      forall s: CellState ensures Symbol(s) != symbol {
        MembersComplete(s);
      }
    }
  }

  /** A character that is none of the nine symbols decodes to None. */
  lemma {:induction false} UnrecognisedSymbol(symbol: char)
    requires symbol !in ['.', 'w', '#', 'O', '=', '<', '^', '>', 'v']
    ensures FromSymbol(symbol) == None
  {
    forall s: CellState ensures Symbol(s) != symbol {
      assert Symbol(s) in ['.', 'w', '#', 'O', '=', '<', '^', '>', 'v'];
    }
    FromSymbolInverse(symbol);
  }

  /** Every state is exactly one of unknown, water and occupied; the refined parts are occupied
      and mutually exclusive. */
  lemma {:induction false} Classification(s: CellState)
    ensures (if IsUnknown(s) then 1 else 0) + (if IsWater(s) then 1 else 0)
            + (if IsOccupied(s) then 1 else 0) == 1
    ensures IsWhole(s) || IsMid(s) || IsEnd(s) ==> IsOccupied(s)
    ensures !(IsWhole(s) && IsMid(s)) && !(IsWhole(s) && IsEnd(s)) && !(IsMid(s) && IsEnd(s))
  {
  }
}
