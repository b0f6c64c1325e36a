/**
  The whole memory relation: the boundary terms of every cell and all
  transitions, balanced in the field.
*/
module MemoryRelation {
  import opened RelationBus
  import opened MemoryChain

  /** A cell's first and last state, in their canonical public terms. */
  datatype Cell = Cell(initial: MemoryState, final: MemoryState)

  // --- tuples and terms -----------------------------------------------------

  function Tuple(s: MemoryState): seq<int> {
    Reduce([s.addrSpace, s.addr, s.clock] + s.values)
  }

  lemma TupleInjective(a: MemoryState, b: MemoryState)
    requires CanonicalState(a) && CanonicalState(b)
    ensures Tuple(a) == Tuple(b) <==> a == b
  {
    if Tuple(a) == Tuple(b) {
      assert Tuple(a)[0] == a.addrSpace && Tuple(a)[1] == a.addr && Tuple(a)[2] == a.clock;
      assert Tuple(b)[0] == b.addrSpace && Tuple(b)[1] == b.addr && Tuple(b)[2] == b.clock;
      assert forall i | 0 <= i < 4 :: Tuple(a)[3 + i] == a.values[i] && Tuple(b)[3 + i] == b.values[i];
      assert a.values == b.values;
    }
  }

  function Term(sign: int, s: MemoryState): Request {
    MakeRequest(MemoryAccess, sign, [s.addrSpace, s.addr, s.clock] + s.values)
  }

  /** Consumes one state and emits another. */
  function Edge(consumed: MemoryState, emitted: MemoryState): seq<Request> {
    [Term(-1, consumed), Term(1, emitted)]
  }

  lemma EdgeCoefficient(consumed: MemoryState, emitted: MemoryState, t: seq<int>)
    ensures SignedSum(Edge(consumed, emitted), MemoryAccess, t)
            == Unit(t == Tuple(emitted)) - Unit(t == Tuple(consumed))
  {
    assert Edge(consumed, emitted)[1..] == [Term(1, emitted)] && [Term(1, emitted)][1..] == [];
    assert SignedSum([Term(1, emitted)], MemoryAccess, t) == Unit(t == Tuple(emitted));
  }

  /** The boundary of a cell emits its first state and consumes its last; a transition consumes its
      previous state and emits its next. */
  function Boundary(cells: seq<Cell>): seq<seq<Request>> {
    if cells == [] then [] else [Edge(cells[0].final, cells[0].initial)] + Boundary(cells[1..])
  }

  function Accesses(ts: seq<Transition>): seq<seq<Request>> {
    if ts == [] then [] else [Edge(ts[0].previous, ts[0].next)] + Accesses(ts[1..])
  }

  function Relation(cells: seq<Cell>, ts: seq<Transition>): seq<seq<Request>> {
    Boundary(cells) + Accesses(ts)
  }

  // --- what the relation puts on a tuple ------------------------------------

  /** Sources less sinks at a state. */
  function Ends(cells: seq<Cell>, s: MemoryState): int {
    if cells == [] then 0 else Unit(s == cells[0].initial) - Unit(s == cells[0].final) + Ends(cells[1..], s)
  }

  function Flow(cells: seq<Cell>, ts: seq<Transition>, s: MemoryState): int {
    Ends(cells, s) - Out(ts, s) + In(ts, s)
  }

  /** Every state is canonical, so tuples name states. */
  predicate AllCanonical(cells: seq<Cell>, ts: seq<Transition>) {
    && (forall i | 0 <= i < |cells| :: CanonicalState(cells[i].initial) && CanonicalState(cells[i].final))
    && forall i | 0 <= i < |ts| :: CanonicalState(ts[i].previous) && CanonicalState(ts[i].next)
  }

  lemma {:induction false} BoundaryPuts(cells: seq<Cell>, s: MemoryState)
    requires AllCanonical(cells, []) && CanonicalState(s)
    ensures Total(Boundary(cells), MemoryAccess, Tuple(s)) == Ends(cells, s)
  {
    if cells != [] {
      var bus := Boundary(cells);
      assert bus[1..] == Boundary(cells[1..]);
      assert AllCanonical(cells[1..], []) by {
        assert forall i | 0 <= i < |cells[1..]| :: cells[1..][i] == cells[i + 1];
      }
      BoundaryPuts(cells[1..], s);
      EdgeCoefficient(cells[0].final, cells[0].initial, Tuple(s));
      TupleInjective(cells[0].initial, s);
      TupleInjective(cells[0].final, s);
    }
  }

  lemma {:induction false} AccessesPut(ts: seq<Transition>, s: MemoryState)
    requires AllCanonical([], ts) && CanonicalState(s)
    ensures Total(Accesses(ts), MemoryAccess, Tuple(s)) == In(ts, s) - Out(ts, s)
  {
    if ts != [] {
      var bus := Accesses(ts);
      assert bus[1..] == Accesses(ts[1..]);
      assert AllCanonical([], ts[1..]) by {
        assert forall i | 0 <= i < |ts[1..]| :: ts[1..][i] == ts[i + 1];
      }
      AccessesPut(ts[1..], s);
      EdgeCoefficient(ts[0].previous, ts[0].next, Tuple(s));
      TupleInjective(ts[0].previous, s);
      TupleInjective(ts[0].next, s);
    }
  }

  lemma {:induction false} TotalAppend(a: seq<seq<Request>>, b: seq<seq<Request>>, d: Domain, t: seq<int>)
    ensures Total(a + b, d, t) == Total(a, d, t) + Total(b, d, t)
  {
    if a == [] {
      assert a + b == b;
    } else {
      assert (a + b)[1..] == a[1..] + b;
      TotalAppend(a[1..], b, d, t);
    }
  }

  /** On a state's tuple the relation puts the state's flow. */
  lemma RelationPuts(cells: seq<Cell>, ts: seq<Transition>, s: MemoryState)
    requires AllCanonical(cells, ts) && CanonicalState(s)
    ensures Total(Relation(cells, ts), MemoryAccess, Tuple(s)) == Flow(cells, ts, s)
  {
    BoundaryPuts(cells, s);
    AccessesPut(ts, s);
    TotalAppend(Boundary(cells), Accesses(ts), MemoryAccess, Tuple(s));
  }

  lemma {:induction false} BoundaryBounded(cells: seq<Cell>, t: seq<int>)
    ensures Abs(Total(Boundary(cells), MemoryAccess, t)) <= |cells|
    ensures (forall s | CanonicalState(s) :: t != Tuple(s)) && AllCanonical(cells, []) ==>
              Total(Boundary(cells), MemoryAccess, t) == 0
  {
    if cells != [] {
      assert Boundary(cells)[1..] == Boundary(cells[1..]);
      assert forall i | 0 <= i < |cells[1..]| :: cells[1..][i] == cells[i + 1];
      BoundaryBounded(cells[1..], t);
      EdgeCoefficient(cells[0].final, cells[0].initial, t);
    }
  }

  lemma {:induction false} AccessesBounded(ts: seq<Transition>, t: seq<int>)
    ensures Abs(Total(Accesses(ts), MemoryAccess, t)) <= |ts|
    ensures (forall s | CanonicalState(s) :: t != Tuple(s)) && AllCanonical([], ts) ==>
              Total(Accesses(ts), MemoryAccess, t) == 0
  {
    if ts != [] {
      assert Accesses(ts)[1..] == Accesses(ts[1..]);
      assert forall i | 0 <= i < |ts[1..]| :: ts[1..][i] == ts[i + 1];
      AccessesBounded(ts[1..], t);
      EdgeCoefficient(ts[0].previous, ts[0].next, t);
    }
  }

  ghost predicate FlowBalanced(cells: seq<Cell>, ts: seq<Transition>) {
    forall s | CanonicalState(s) :: Flow(cells, ts, s) == 0
  }

  /** With fewer than P terms on a side, balance in the field is balance of the flow. */
  lemma FieldBalanceIsFlow(cells: seq<Cell>, ts: seq<Transition>)
    requires AllCanonical(cells, ts) && |ts| + |cells| < P
    ensures FieldBalanced(Relation(cells, ts), MemoryAccess) <==> FlowBalanced(cells, ts)
  {
    hide Flow, CanonicalState, AllCanonical;
    var bus := Relation(cells, ts);
    if FieldBalanced(bus, MemoryAccess) {
      forall s | CanonicalState(s) ensures Flow(cells, ts, s) == 0 {
        FlowVanishes(cells, ts, s);
      }
    }
    if FlowBalanced(cells, ts) {
      forall t: seq<int> ensures FieldSum(Flatten(bus), MemoryAccess, t) % P == 0 {
        TupleVanishes(cells, ts, t);
        TotalResidue(bus, MemoryAccess, t);
      }
    }
  }

  lemma FlowVanishes(cells: seq<Cell>, ts: seq<Transition>, s: MemoryState)
    requires AllCanonical(cells, ts) && |ts| + |cells| < P && CanonicalState(s)
    requires FieldBalanced(Relation(cells, ts), MemoryAccess)
    ensures Flow(cells, ts, s) == 0
  {
    hide Flow, CanonicalState, AllCanonical, Tuple, Boundary, Accesses;
    var bus := Relation(cells, ts);
    RelationPuts(cells, ts, s);
    BoundaryBounded(cells, Tuple(s));
    AccessesBounded(ts, Tuple(s));
    TotalAppend(Boundary(cells), Accesses(ts), MemoryAccess, Tuple(s));
    TotalResidue(bus, MemoryAccess, Tuple(s));
    SmallMultipleIsZero(Total(bus, MemoryAccess, Tuple(s)));
  }

  lemma TupleVanishes(cells: seq<Cell>, ts: seq<Transition>, t: seq<int>)
    requires AllCanonical(cells, ts) && FlowBalanced(cells, ts)
    ensures Total(Relation(cells, ts), MemoryAccess, t) == 0
  {
    hide Flow, CanonicalState, Tuple, Boundary, Accesses;
    if s :| CanonicalState(s) && t == Tuple(s) {
      RelationPuts(cells, ts, s);
    } else {
      BoundaryBounded(cells, t);
      AccessesBounded(ts, t);
      TotalAppend(Boundary(cells), Accesses(ts), MemoryAccess, t);
    }
  }

  // --- cell by cell ---------------------------------------------------------

  /** The transitions of one cell. */
  function Of(ts: seq<Transition>, key: (int, int)): seq<Transition> {
    if ts == [] then []
    else if Key(ts[0].previous) == key then [ts[0]] + Of(ts[1..], key)
    else Of(ts[1..], key)
  }

  predicate KeepKeys(ts: seq<Transition>) {
    forall i | 0 <= i < |ts| :: Key(ts[i].previous) == Key(ts[i].next)
  }

  /** Each cell has its own key, at both ends. */
  predicate DistinctCells(cells: seq<Cell>) {
    && (forall i | 0 <= i < |cells| :: Key(cells[i].initial) == Key(cells[i].final))
    && forall i, j | 0 <= i < j < |cells| :: Key(cells[i].initial) != Key(cells[j].initial)
  }

  lemma {:induction false} OfCounts(ts: seq<Transition>, key: (int, int), s: MemoryState)
    requires KeepKeys(ts)
    ensures In(Of(ts, key), s) == if Key(s) == key then In(ts, s) else 0
    ensures Out(Of(ts, key), s) == if Key(s) == key then Out(ts, s) else 0
  {
    if ts != [] {
      assert forall i | 0 <= i < |ts[1..]| :: ts[1..][i] == ts[i + 1];
      OfCounts(ts[1..], key, s);
      if Key(ts[0].previous) == key { assert Of(ts, key)[1..] == Of(ts[1..], key); }
    }
  }

  lemma {:induction false} OfStrict(ts: seq<Transition>, key: (int, int))
    requires Strict(ts)
    ensures Strict(Of(ts, key))
  {
    if ts != [] {
      assert forall i | 0 <= i < |ts[1..]| :: ts[1..][i] == ts[i + 1];
      OfStrict(ts[1..], key);
    }
  }

  lemma {:induction false} EndsElsewhere(cells: seq<Cell>, s: MemoryState)
    requires DistinctCells(cells) && forall i | 0 <= i < |cells| :: Key(cells[i].initial) != Key(s)
    ensures Ends(cells, s) == 0
  {
    if cells != [] {
      assert forall i | 0 <= i < |cells[1..]| :: cells[1..][i] == cells[i + 1];
      EndsElsewhere(cells[1..], s);
    }
  }

  lemma {:induction false} EndsAt(cells: seq<Cell>, i: nat, s: MemoryState)
    requires DistinctCells(cells) && i < |cells| && Key(cells[i].initial) == Key(s)
    ensures Ends(cells, s) == Unit(s == cells[i].initial) - Unit(s == cells[i].final)
  {
    var rest := cells[1..];
    assert forall k | 0 <= k < |rest| :: rest[k] == cells[k + 1];
    if i == 0 {
      EndsElsewhere(rest, s);
    } else {
      EndsAt(rest, i - 1, s);
    }
  }

  /** A cell's own balance is the flow on its key, and nothing elsewhere. */
  lemma CellBalance(cells: seq<Cell>, ts: seq<Transition>, i: nat, s: MemoryState)
    requires DistinctCells(cells) && KeepKeys(ts) && i < |cells|
    ensures var c := cells[i];
            Balance(c.initial, c.final, Of(ts, Key(c.initial)), s)
            == if Key(s) == Key(c.initial) then Flow(cells, ts, s) else 0
  {
    OfCounts(ts, Key(cells[i].initial), s);
    if Key(s) == Key(cells[i].initial) { EndsAt(cells, i, s); }
  }

  /** Without a cell the transitions on a key balance by themselves. */
  lemma LooseBalance(cells: seq<Cell>, ts: seq<Transition>, s: MemoryState, any: MemoryState)
    requires DistinctCells(cells) && KeepKeys(ts) && forall i | 0 <= i < |cells| :: Key(cells[i].initial) != Key(s)
    ensures Balance(any, any, Of(ts, Key(s)), s) == Flow(cells, ts, s)
  {
    OfCounts(ts, Key(s), s);
    EndsElsewhere(cells, s);
  }

  ghost predicate OnePathEach(cells: seq<Cell>, ts: seq<Transition>) {
    forall i | 0 <= i < |cells| :: Chains(cells[i], Of(ts, Key(cells[i].initial)))
  }

  /** Some ordering of the transitions is a path from the cell's first state to its last. */
  ghost predicate Chains(cell: Cell, ts: seq<Transition>) {
    exists path :: IsPath(cell.initial, path, cell.final) && multiset(path) == multiset(ts)
  }

  predicate HasCell(cells: seq<Cell>, key: (int, int)) {
    exists i :: 0 <= i < |cells| && Key(cells[i].initial) == key
  }

  predicate NoneLoose(cells: seq<Cell>, ts: seq<Transition>) {
    forall i | 0 <= i < |ts| :: HasCell(cells, Key(ts[i].previous))
  }

  predicate Honest(cells: seq<Cell>, ts: seq<Transition>) {
    AllCanonical(cells, ts) && DistinctCells(cells) && KeepKeys(ts) && Strict(ts)
  }

  lemma FlowOutside(cells: seq<Cell>, ts: seq<Transition>, s: MemoryState)
    requires AllCanonical(cells, ts) && !CanonicalState(s)
    ensures Flow(cells, ts, s) == 0
  {
    EndsOutside(cells, s);
    CountsOutside(ts, s);
  }

  lemma {:induction false} EndsOutside(cells: seq<Cell>, s: MemoryState)
    requires AllCanonical(cells, []) && !CanonicalState(s)
    ensures Ends(cells, s) == 0
  {
    if cells != [] {
      assert forall i | 0 <= i < |cells[1..]| :: cells[1..][i] == cells[i + 1];
      EndsOutside(cells[1..], s);
    }
  }

  lemma {:induction false} CountsOutside(ts: seq<Transition>, s: MemoryState)
    requires AllCanonical([], ts) && !CanonicalState(s)
    ensures In(ts, s) == 0 == Out(ts, s)
  {
    if ts != [] {
      assert forall i | 0 <= i < |ts[1..]| :: ts[1..][i] == ts[i + 1];
      CountsOutside(ts[1..], s);
    }
  }

  lemma CellsFlow(cells: seq<Cell>, ts: seq<Transition>)
    requires Honest(cells, ts) && FlowBalanced(cells, ts)
    ensures OnePathEach(cells, ts)
  {
    hide Flow, Of, CanonicalState;
    forall i | 0 <= i < |cells| ensures Chains(cells[i], Of(ts, Key(cells[i].initial))) {
      var c := cells[i];
      forall s ensures Balance(c.initial, c.final, Of(ts, Key(c.initial)), s) == 0 {
        CellBalance(cells, ts, i, s);
        if !CanonicalState(s) { FlowOutside(cells, ts, s); }
      }
      OfStrict(ts, Key(c.initial));
      BalancedIffOnePath(c.initial, c.final, Of(ts, Key(c.initial)));
    }
  }

  lemma {:induction false} OfNonEmpty(ts: seq<Transition>, i: nat)
    requires i < |ts|
    ensures Of(ts, Key(ts[i].previous)) != []
  {
    if i > 0 { OfNonEmpty(ts[1..], i - 1); }
  }

  lemma NoLooseFlow(cells: seq<Cell>, ts: seq<Transition>)
    requires Honest(cells, ts) && FlowBalanced(cells, ts)
    ensures NoneLoose(cells, ts)
  {
    hide Flow, Of, CanonicalState;
    forall i | 0 <= i < |ts| ensures HasCell(cells, Key(ts[i].previous)) {
      var state := ts[i].previous;
      var key := Key(state);
      if !HasCell(cells, key) {
        forall s ensures Balance(state, state, Of(ts, key), s) == 0 {
          if Key(s) == key {
            LooseBalance(cells, ts, s, state);
            if !CanonicalState(s) { FlowOutside(cells, ts, s); }
          } else {
            OfCounts(ts, key, s);
          }
        }
        OfStrict(ts, key);
        BalancedLoopIsEmpty(state, Of(ts, key));
        OfNonEmpty(ts, i);
        assert false;
      }
    }
  }

  lemma PathsFlow(cells: seq<Cell>, ts: seq<Transition>)
    requires Honest(cells, ts) && OnePathEach(cells, ts) && NoneLoose(cells, ts)
    ensures FlowBalanced(cells, ts)
  {
    hide Flow, Of, CanonicalState;
    forall s | CanonicalState(s) ensures Flow(cells, ts, s) == 0 {
      if HasCell(cells, Key(s)) {
        var i :| 0 <= i < |cells| && Key(cells[i].initial) == Key(s);
        var c := cells[i];
        OfStrict(ts, Key(c.initial));
        BalancedIffOnePath(c.initial, c.final, Of(ts, Key(c.initial)));
        assert Chains(c, Of(ts, Key(c.initial)));
        CellBalance(cells, ts, i, s);
      } else {
        EndsElsewhere(cells, s);
        NoneHere(ts, s);
        assert Flow(cells, ts, s) == 0 by { FlowIs(cells, ts, s); }
      }
    }
  }

  lemma FlowIs(cells: seq<Cell>, ts: seq<Transition>, s: MemoryState)
    ensures Flow(cells, ts, s) == Ends(cells, s) - Out(ts, s) + In(ts, s)
  {
  }

  lemma {:induction false} NoneHere(ts: seq<Transition>, s: MemoryState)
    requires KeepKeys(ts) && forall i | 0 <= i < |ts| :: Key(ts[i].previous) != Key(s)
    ensures In(ts, s) == 0 == Out(ts, s)
  {
    if ts != [] {
      assert forall i | 0 <= i < |ts[1..]| :: ts[1..][i] == ts[i + 1];
      NoneHere(ts[1..], s);
    }
  }

  /**
    The memory of a whole run.  With distinct cells, clocks that increase, keys
    that transitions keep and fewer than P terms on a side, the relation balances
    in the field if and only if every transition belongs to a cell and each
    cell's transitions are one path from its first state to its last.
  */
  lemma MemoryBalancesIffPaths(cells: seq<Cell>, ts: seq<Transition>)
    requires Honest(cells, ts) && |ts| + |cells| < P
    ensures FieldBalanced(Relation(cells, ts), MemoryAccess) <==> OnePathEach(cells, ts) && NoneLoose(cells, ts)
  {
    hide FieldBalanced, OnePathEach, NoneLoose, FlowBalanced, Relation;
    FieldBalanceIsFlow(cells, ts);
    if FlowBalanced(cells, ts) {
      CellsFlow(cells, ts);
      NoLooseFlow(cells, ts);
    }
    if OnePathEach(cells, ts) && NoneLoose(cells, ts) {
      PathsFlow(cells, ts);
    }
  }

  /** One component, whatever its keys. */
  lemma FieldBalanceIffOnePath(cell: Cell, ts: seq<Transition>)
    requires AllCanonical([cell], ts) && Strict(ts) && |ts| + 1 < P
    ensures FieldBalanced(Relation([cell], ts), MemoryAccess) <==> Chains(cell, ts)
  {
    hide FieldBalanced, Relation, CanonicalState;
    FieldBalanceIsFlow([cell], ts);
    BalancedIffOnePath(cell.initial, cell.final, ts);
    forall s ensures Flow([cell], ts, s) == Balance(cell.initial, cell.final, ts, s) {
      assert [cell][1..] == [];
      assert Ends([cell], s) == Unit(s == cell.initial) - Unit(s == cell.final);
    }
    if FlowBalanced([cell], ts) {
      forall s ensures Balance(cell.initial, cell.final, ts, s) == 0 {
        if !CanonicalState(s) { FlowOutside([cell], ts, s); }
      }
    }
  }
}
