/**
  Global facts about the Merkle relation: what exact field balance of node
  rows, leaf rows and public roots forces, under the admission guards.
*/
module MerkleBus {
  import opened Basics
  import opened RelationBus
  import opened MerkleRows

  /** One participant of the Merkle relation. */
  datatype Source =
    | Node(row: MerkleNodeRow)
    | ProgramLeaf(program: ProgramRow)
    | BoundaryLeaf(boundary: MemoryBoundaryRow)
    | PublicRoot(root: int)

  predicate WellFormed(s: Source) {
    match s
    case Node(row) => Admissible(row)
    case ProgramLeaf(row) => ProgramAdmissible(row)
    case BoundaryLeaf(row) => BoundaryAdmissible(row)
    case PublicRoot(root) => Canonical(root)
  }

  function Requests(s: Source): seq<Request>
    requires WellFormed(s)
  {
    match s
    case Node(row) => MerkleRequests(row)
    case ProgramLeaf(row) => ProgramRequests(row)
    case BoundaryLeaf(row) => BoundaryRequests(row)
    case PublicRoot(root) => RootRequests(root)
  }

  function Bus(sources: seq<Source>): seq<seq<Request>>
    requires forall s | s in sources :: WellFormed(s)
  {
    seq(|sources|, i requires 0 <= i < |sources| => assert sources[i] in sources; Requests(sources[i]))
  }

  /** The most a participant can put on either side of one tuple. */
  function Weight(s: Source): nat {
    if s.Node? then 2 else 1
  }

  function Weights(sources: seq<Source>): seq<nat> {
    seq(|sources|, i requires 0 <= i < |sources| => Weight(sources[i]))
  }

  function LeafWords(s: Source): seq<int>
    requires WellFormed(s) && (s.ProgramLeaf? || s.BoundaryLeaf?)
    ensures |LeafWords(s)| == 4
  {
    if s.ProgramLeaf? then s.program.values else s.boundary.values
  }

  function LeafAddress(s: Source): int
    requires s.ProgramLeaf? || s.BoundaryLeaf?
  {
    if s.ProgramLeaf? then s.program.addr else s.boundary.addr
  }

  function LeafRoot(s: Source): int
    requires s.ProgramLeaf? || s.BoundaryLeaf?
  {
    if s.ProgramLeaf? then s.program.root else s.boundary.root
  }

  function Leaf(s: Source, limb: nat): seq<int>
    requires WellFormed(s) && (s.ProgramLeaf? || s.BoundaryLeaf?) && limb < 4
  {
    LeafTuple(LeafAddress(s), limb, LeafWords(s)[limb], LeafRoot(s))
  }

  lemma LeafSourceContribution(s: Source, t: seq<int>)
    requires WellFormed(s) && (s.ProgramLeaf? || s.BoundaryLeaf?)
    ensures SignedSum(Requests(s), Merkle, t) ==
            if exists limb: nat | limb < 4 :: t == Leaf(s, limb) then -1 else 0
  {
    var leaves := LeafRequests(LeafAddress(s), LeafWords(s), LeafRoot(s));
    LeafContribution(LeafAddress(s), LeafWords(s), LeafRoot(s), t);
    assert forall limb: nat | limb < 4 ::
      Leaf(s, limb) == LeafTuple(LeafAddress(s), limb, LeafWords(s)[limb], LeafRoot(s));
    match s {
      case ProgramLeaf(row) =>
        var head := [MakeRequest(ProgramAccess, row.multiplicity, [row.addr] + row.values)];
        var tail := [MakeRequest(RangeCheck20, -1, [row.low20]), MakeRequest(RangeCheck88, -1, [row.high8, 0])];
        OtherDomain(head, Merkle, t);
        OtherDomain(tail, Merkle, t);
        SignedSumAppend(head, leaves, Merkle, t);
        SignedSumAppend(head + leaves, tail, Merkle, t);
        assert Requests(s) == head + leaves + tail;
      case BoundaryLeaf(row) =>
        var head := [MakeRequest(RangeCheck88, -1, row.values[0..2]),
                     MakeRequest(RangeCheck88, -1, row.values[2..4]),
                     MakeRequest(MemoryAccess, row.sign, [1, row.addr, row.clock] + row.values)];
        OtherDomain(head, Merkle, t);
        SignedSumAppend(head, leaves, Merkle, t);
        assert Requests(s) == head + leaves;
    }
  }

  lemma RootContribution(root: int, t: seq<int>)
    ensures SignedSum(RootRequests(root), Merkle, t) == if t == RootTuple(root) then 1 else 0
  {
    var r := RootRequests(root);
    assert r[1..] == [];
  }

  lemma ContributionBounded(s: Source, t: seq<int>)
    requires WellFormed(s)
    ensures Abs(SignedSum(Requests(s), Merkle, t)) <= Weight(s)
  {
    match s {
      case Node(row) =>
        NodeContribution(row, t);
        EdgesDistinct(row);
      case PublicRoot(root) => RootContribution(root, t);
      case _ => LeafSourceContribution(s, t);
    }
  }

  /**
    A field-balanced bus under the coefficient guard, in which no node row
    supplies a child without consuming a parent.
  */
  ghost predicate Closed(sources: seq<Source>) {
    && (forall s | s in sources :: WellFormed(s))
    && Sum(Weights(sources)) < P
    && FieldBalanced(Bus(sources), Merkle)
    && (forall s | s in sources && s.Node? :: Grounded(s.row))
  }

  predicate Grounded(row: MerkleNodeRow) {
    row.lhsMultiplicity != 0 || row.rhsMultiplicity != 0 ==> row.currentMultiplicity != 0
  }

  /** Participant k takes tuple t off the bus. */
  predicate Consumes(sources: seq<Source>, k: nat, t: seq<int>)
    requires forall s | s in sources :: WellFormed(s)
  {
    k < |sources| && SignedSum(Bus(sources)[k], Merkle, t) < 0
  }

  /** Row j supplies t as its child on side `bit`. */
  predicate ChildOf(row: MerkleNodeRow, bit: nat, t: seq<int>) {
    bit < 2 && t == ChildTuple(row, bit)
  }

  function ChildTuple(row: MerkleNodeRow, bit: nat): seq<int> {
    if bit == 0 then LeftTuple(row) else RightTuple(row)
  }

  /**
    The lift, instantiated: when the largest coefficients of all sources stay
    below P together, balance in the field is balance over the integers.
  */
  lemma BusBalancesOverIntegers(sources: seq<Source>)
    requires (forall s | s in sources :: WellFormed(s)) && Sum(Weights(sources)) < P
    ensures FieldBalanced(Bus(sources), Merkle) <==> IntegerBalanced(Bus(sources), Merkle)
  {
    hide FieldBalanced, Bus, WellFormed, Weights;
    if FieldBalanced(Bus(sources), Merkle) {
      forall t: seq<int> ensures Total(Bus(sources), Merkle, t) == 0 {
        TupleLifts(sources, t);
      }
    }
    if IntegerBalanced(Bus(sources), Merkle) {
      IntegerBalanceIsFieldBalance(Bus(sources));
    }
  }

  lemma TupleLifts(sources: seq<Source>, t: seq<int>)
    requires (forall s | s in sources :: WellFormed(s)) && Sum(Weights(sources)) < P
    requires FieldBalanced(Bus(sources), Merkle)
    ensures Total(Bus(sources), Merkle, t) == 0
  {
    forall i | 0 <= i < |sources| ensures Abs(SignedSum(Bus(sources)[i], Merkle, t)) <= Weights(sources)[i] {
      assert sources[i] in sources;
      ContributionBounded(sources[i], t);
    }
    CoefficientLift(Bus(sources), Weights(sources), Merkle, t);
  }

  /** A consumed tuple is a public root, or a child of a row that consumes its own parent. */
  lemma Supplier(sources: seq<Source>, k: nat, t: seq<int>) returns (j: nat, bit: nat)
    requires Closed(sources) && Consumes(sources, k, t)
    ensures j < |sources|
    ensures sources[j].Node? || (sources[j].PublicRoot? && t == RootTuple(sources[j].root))
    ensures sources[j].Node? ==>
              && ChildOf(sources[j].row, bit, t)
              && sources[j].row.currentMultiplicity != 0
              && Consumes(sources, j, ParentTuple(sources[j].row))
  {
    TupleLifts(sources, t);
    j := SupplierExists(Bus(sources), Merkle, t, k);
    bit := 0;
    var s := sources[j];
    assert s in sources;
    match s {
      case Node(row) =>
        NodeContribution(row, t);
        NodeContribution(row, ParentTuple(row));
        EdgesDistinct(row);
        bit := if t == LeftTuple(row) then 0 else 1;
      case PublicRoot(root) => RootContribution(root, t);
      case _ => LeafSourceContribution(s, t);
    }
  }

  // --- depth recurrence -----------------------------------------------------

  /** A tuple at depth zero that is none of the public roots. */
  predicate Unrooted(sources: seq<Source>, t: seq<int>) {
    |t| == 4 && t[1] == 0 && forall s | s in sources && s.PublicRoot? :: t != RootTuple(s.root)
  }

  lemma TupleDepths(row: MerkleNodeRow, bit: nat)
    requires Admissible(row)
    ensures |ChildTuple(row, bit)| == |ParentTuple(row)| == 4
    ensures ChildTuple(row, bit)[1] == row.depth
    ensures ParentTuple(row)[1] == (row.depth - 1) % P
    ensures ChildTuple(row, bit)[3] == row.root == ParentTuple(row)[3]
  {
  }

  /** Supplier, with the depth of the tuple it supplies read off. */
  lemma SupplierAtDepth(sources: seq<Source>, k: nat, t: seq<int>) returns (j: nat)
    requires Closed(sources) && Consumes(sources, k, t) && |t| == 4
    ensures j < |sources|
    ensures sources[j].Node? || (sources[j].PublicRoot? && t[1] == 0 && t == RootTuple(sources[j].root))
    ensures sources[j].Node? ==>
              sources[j].row.depth == t[1] && Consumes(sources, j, ParentTuple(sources[j].row))
  {
    var bit;
    j, bit := Supplier(sources, k, t);
    assert sources[j] in sources;
    if sources[j].Node? {
      TupleDepths(sources[j].row, bit);
    }
  }

  lemma DepthArithmetic(steps: int)
    requires 2 <= steps <= P
    ensures ((1 - (steps - 1)) % P - 1) % P == (1 - steps) % P != 0
  {
    assert -P < 1 - steps < 0 && -P < 2 - steps < P;
  }

  /** A node row at some depth, consuming its parent. */
  predicate ConsumesAtDepth(sources: seq<Source>, j: nat, depth: int)
    requires forall s | s in sources :: WellFormed(s)
  {
    && j < |sources| && sources[j].Node? && sources[j].row.depth == depth
    && Consumes(sources, j, ParentTuple(sources[j].row))
  }

  lemma DescendFirst(sources: seq<Source>, k: nat, t: seq<int>) returns (j: nat)
    requires Closed(sources) && Consumes(sources, k, t) && Unrooted(sources, t)
    ensures ConsumesAtDepth(sources, j, 0)
  {
    hide Bus, Requests, SignedSum, Sum, Weights, FieldBalanced;
    j := SupplierAtDepth(sources, k, t);
    assert sources[j] in sources;
  }

  lemma DescendOne(sources: seq<Source>, i: nat, t: seq<int>, steps: nat) returns (j: nat)
    requires Closed(sources) && Unrooted(sources, t)
    requires 2 <= steps <= P
    requires ConsumesAtDepth(sources, i, (1 - (steps - 1)) % P)
    ensures ConsumesAtDepth(sources, j, (1 - steps) % P)
  {
    assert sources[i] in sources;
    var u := ParentTuple(sources[i].row);
    TupleDepths(sources[i].row, 0);
    DepthArithmetic(steps);
    j := SupplierAtDepth(sources, i, u);
    assert sources[j] in sources;
  }

  /** From a consumed depth-zero tuple that is no public root, going from
      consumer to supplier never ends: every number of steps finds another row
      consuming its parent, at that many depths less, modulo P. */
  lemma {:induction false} Descend(sources: seq<Source>, k: nat, t: seq<int>, steps: nat) returns (j: nat)
    requires Closed(sources) && Consumes(sources, k, t) && Unrooted(sources, t)
    requires 1 <= steps <= P
    ensures ConsumesAtDepth(sources, j, (1 - steps) % P)
    decreases steps
  {
    if steps == 1 {
      j := DescendFirst(sources, k, t);
    } else {
      var i := Descend(sources, k, t, steps - 1);
      j := DescendOne(sources, i, t, steps);
    }
  }

  function Depths(sources: seq<Source>): set<int> {
    set s | s in sources && s.Node? :: s.row.depth
  }

  lemma {:induction false} DepthsFewerThanRows(sources: seq<Source>)
    ensures |Depths(sources)| <= |sources|
  {
    if sources != [] {
      var rest := sources[1..];
      DepthsFewerThanRows(rest);
      assert sources == [sources[0]] + rest;
      var head := if sources[0].Node? then {sources[0].row.depth} else {};
      assert Depths(sources) == head + Depths(rest);
    }
  }

  lemma LargerSetHasMore(a: set<int>, b: set<int>) returns (x: int)
    requires |a| > |b|
    ensures x in a && x !in b
  {
    if forall x | x in a :: x in b {
      SubsetCount(a, b);
      assert false;
    }
    x :| x in a && x !in b;
  }

  lemma {:induction false} RowsWithinWeights(sources: seq<Source>)
    ensures |sources| <= Sum(Weights(sources))
  {
    if sources != [] {
      RowsWithinWeights(sources[1..]);
      assert Weights(sources)[1..] == Weights(sources[1..]);
    }
  }

  lemma StepsToDepth(r: int) returns (steps: nat)
    requires Canonical(r)
    ensures 1 <= steps <= P && (1 - steps) % P == r
  {
    steps := if r == 0 then 1 else P + 1 - r;
  }

  lemma VisitsDepth(sources: seq<Source>, k: nat, t: seq<int>, r: int)
    requires Closed(sources) && Consumes(sources, k, t) && Unrooted(sources, t) && Canonical(r)
    ensures r in Depths(sources)
  {
    var steps := StepsToDepth(r);
    var j := Descend(sources, k, t, steps);
    assert sources[j] in sources;
  }

  lemma {:induction false} DepthsTooMany(sources: seq<Source>)
    requires Sum(Weights(sources)) < P
    ensures exists r :: Canonical(r) && r !in Depths(sources)
  {
    DepthsFewerThanRows(sources);
    RowsWithinWeights(sources);
    ResidueRange(P);
    ResidueCount(P);
    var r := LargerSetHasMore(Residues(P), Depths(sources));
    assert Canonical(r);
  }

  lemma RootDepthZero(root: int)
    ensures |RootTuple(root)| == 4 && RootTuple(root)[0] == RootTuple(root)[1] == 0
    ensures RootTuple(root)[3] == root % P
  {
  }

  /** A tuple consumed at depth zero is a public root: otherwise the walk from
      it would need a row at every depth, that is P rows. */
  lemma RootReached(sources: seq<Source>, k: nat, t: seq<int>)
    requires Closed(sources) && Consumes(sources, k, t) && |t| == 4 && t[1] == 0
    ensures PublicRoot(t[3]) in sources && t == RootTuple(t[3])
  {
    if Unrooted(sources, t) {
      DepthsTooMany(sources);
      var r :| Canonical(r) && r !in Depths(sources);
      VisitsDepth(sources, k, t, r);
    }
    var s :| s in sources && s.PublicRoot? && t == RootTuple(s.root);
    assert WellFormed(s);
    RootDepthZero(s.root);
  }

  /** Above depth zero the supplier is a node row one level down. */
  lemma ClimbOne(sources: seq<Source>, k: nat, t: seq<int>) returns (j: nat, row: MerkleNodeRow, bit: int)
    requires Closed(sources) && Consumes(sources, k, t) && |t| == 4 && 0 < t[1] < P
    ensures Node(row) in sources && 0 <= bit < 2 && t == ChildTuple(row, bit)
    ensures Consumes(sources, j, ParentTuple(row))
    ensures |ParentTuple(row)| == 4 && ParentTuple(row)[1] == t[1] - 1 && ParentTuple(row)[3] == t[3]
  {
    j, bit := Supplier(sources, k, t);
    var s := sources[j];
    assert s in sources;
    RootDepthZero(if s.PublicRoot? then s.root else 0);
    row := s.row;
    TupleDepths(row, bit);
  }

  /** Only canonical four-entry tuples are ever consumed. */
  lemma ConsumedTuple(sources: seq<Source>, k: nat, t: seq<int>)
    requires (forall s | s in sources :: WellFormed(s)) && Consumes(sources, k, t)
    ensures |t| == 4 && forall i | 0 <= i < 4 :: Canonical(t[i])
  {
    var s := sources[k];
    assert s in sources;
    match s {
      case Node(row) => NodeContribution(row, t);
      case PublicRoot(root) => RootContribution(root, t);
      case _ => LeafSourceContribution(s, t);
    }
  }

  /** In a closed relation every consumed tuple carries a public root. */
  lemma {:induction false} RootClosesWalk(sources: seq<Source>, k: nat, t: seq<int>)
    requires Closed(sources) && Consumes(sources, k, t)
    ensures |t| == 4 && PublicRoot(t[3]) in sources
    decreases if |t| == 4 then t[1] else 0
  {
    ConsumedTuple(sources, k, t);
    if t[1] == 0 {
      RootReached(sources, k, t);
    } else {
      var j, row, bit := ClimbOne(sources, k, t);
      RootClosesWalk(sources, j, ParentTuple(row));
    }
  }

  // --- no detached component ------------------------------------------------

  function Nodes(rows: seq<MerkleNodeRow>): seq<Source> {
    seq(|rows|, i requires 0 <= i < |rows| => Node(rows[i]))
  }

  predicate Inactive(row: MerkleNodeRow) {
    row.lhsMultiplicity == row.rhsMultiplicity == row.currentMultiplicity == 0
  }

  lemma {:induction false} NodeWeights(rows: seq<MerkleNodeRow>)
    ensures Sum(Weights(Nodes(rows))) == 2 * |rows|
  {
    if rows != [] {
      NodeWeights(rows[1..]);
      assert Weights(Nodes(rows))[1..] == Weights(Nodes(rows[1..]));
    }
  }

  lemma {:induction false} SilentTotal(bus: seq<seq<Request>>, t: seq<int>)
    requires forall i | 0 <= i < |bus| :: SignedSum(bus[i], Merkle, t) == 0
    ensures Total(bus, Merkle, t) == 0
  {
    if bus != [] {
      assert forall i | 0 <= i < |bus[1..]| :: bus[1..][i] == bus[i + 1];
      SilentTotal(bus[1..], t);
    }
  }

  lemma IntegerBalanceIsFieldBalance(bus: seq<seq<Request>>)
    requires IntegerBalanced(bus, Merkle)
    ensures FieldBalanced(bus, Merkle)
  {
    forall t: seq<int> ensures FieldSum(Flatten(bus), Merkle, t) % P == 0 {
      assert Total(bus, Merkle, t) == 0;
      TotalIsFlat(bus, Merkle, t);
      SignedCongruent(Flatten(bus), Merkle, t);
    }
  }

  lemma PairTotal(a: seq<Request>, b: seq<Request>, t: seq<int>)
    ensures Total([a, b], Merkle, t) == SignedSum(a, Merkle, t) + SignedSum(b, Merkle, t)
  {
    assert [b][1..] == [] && [a, b][1..] == [b];
    assert Total([b], Merkle, t) == SignedSum(b, Merkle, t);
  }

  lemma InactiveRowsBalance(sources: seq<Source>)
    requires forall s | s in sources :: s.Node? && WellFormed(s) && Inactive(s.row)
    ensures FieldBalanced(Bus(sources), Merkle)
  {
    forall t: seq<int> ensures Total(Bus(sources), Merkle, t) == 0 {
      forall i | 0 <= i < |sources| ensures SignedSum(Bus(sources)[i], Merkle, t) == 0 {
        assert sources[i] in sources;
        NodeContribution(sources[i].row, t);
      }
      SilentTotal(Bus(sources), t);
    }
    IntegerBalanceIsFieldBalance(Bus(sources));
  }

  lemma NodesClosedIsInactive(rows: seq<MerkleNodeRow>, k: nat)
    requires k < |rows| && Closed(Nodes(rows))
    ensures Inactive(rows[k])
  {
    assert Nodes(rows)[k] in Nodes(rows);
    if rows[k].currentMultiplicity != 0 {
      NodeContribution(rows[k], ParentTuple(rows[k]));
      EdgesDistinct(rows[k]);
      hide Closed, Admissible, Grounded, SignedSum, MerkleRequests, ParentTuple, LeftTuple, RightTuple;
      RootClosesWalk(Nodes(rows), k, ParentTuple(rows[k]));
    }
  }

  /**
    Node rows alone, each consuming a parent whenever it supplies a child,
    balance in the field exactly when none of them is active.
  */
  lemma NodesBalanceOnlyWhenInactive(rows: seq<MerkleNodeRow>)
    requires forall row | row in rows :: Admissible(row) && Grounded(row)
    requires 2 * |rows| < P
    ensures FieldBalanced(Bus(Nodes(rows)), Merkle) <==> forall row | row in rows :: Inactive(row)
  {
    var sources := Nodes(rows);
    assert forall i | 0 <= i < |rows| :: sources[i] in sources && rows[i] in rows;
    NodeWeights(rows);
    if FieldBalanced(Bus(sources), Merkle) {
      forall k | 0 <= k < |rows| ensures Inactive(rows[k]) {
        NodesClosedIsInactive(rows, k);
      }
    }
    if forall row | row in rows :: Inactive(row) {
      InactiveRowsBalance(sources);
    }
  }

  /** No non-empty collection of parent-consuming node rows closes on itself. */
  lemma NoDetachedComponent(rows: seq<MerkleNodeRow>)
    requires rows != [] && 2 * |rows| < P
    requires forall row | row in rows :: Admissible(row) && row.currentMultiplicity != 0
    ensures !FieldBalanced(Bus(Nodes(rows)), Merkle)
  {
    NodesBalanceOnlyWhenInactive(rows);
    assert rows[0] in rows;
  }

  const SUPPLY := MerkleNodeRow(0, 1, 5, 6, 7, 1, 0, 0, 9)
  const CONSUME := MerkleNodeRow(0, 2, 3, 4, 5, 0, 0, 1, 9)

  lemma PairCancels(t: seq<int>)
    ensures SignedSum(MerkleRequests(SUPPLY), Merkle, t) + SignedSum(MerkleRequests(CONSUME), Merkle, t) == 0
  {
    assert LeftTuple(SUPPLY) == ParentTuple(CONSUME) by {
      ReduceEqual([0, 1, 5, 9], [0 * INV2, 2 - 1, 5, 9]);
    }
    NodeContribution(SUPPLY, t);
    NodeContribution(CONSUME, t);
  }

  /** Without the grounding hypothesis two active rows do cancel: one supplies
      a child from nothing and the other consumes it. */
  lemma UngroundedPairBalances()
    ensures exists rows: seq<MerkleNodeRow> ::
              && |rows| == 2
              && (forall row | row in rows :: Admissible(row) && !Inactive(row))
              && FieldBalanced(Bus(Nodes(rows)), Merkle)
  {
    var rows := [SUPPLY, CONSUME];
    var bus := Bus(Nodes(rows));
    assert bus == [MerkleRequests(SUPPLY), MerkleRequests(CONSUME)];
    forall t: seq<int> ensures Total(bus, Merkle, t) == 0 {
      PairCancels(t);
      PairTotal(MerkleRequests(SUPPLY), MerkleRequests(CONSUME), t);
    }
    IntegerBalanceIsFieldBalance(bus);
    assert |rows| == 2 && forall row | row in rows :: Admissible(row) && !Inactive(row);
  }

  // --- grounding is exactly what excludes detachment ------------------------

  /** Admissible rows that ground themselves close the row's edges, within the guard. */
  ghost predicate Detaches(row: MerkleNodeRow, rest: seq<MerkleNodeRow>)
    requires Admissible(row)
  {
    && (forall r | r in rest :: Admissible(r) && Grounded(r))
    && 2 * (1 + |rest|) < P
    && (forall s | s in Nodes([row] + rest) :: WellFormed(s))
    && FieldBalanced(Bus(Nodes([row] + rest)), Merkle)
  }

  /** A row that consumes one tuple and supplies nothing. */
  function Consumer(index: int, depth: int, value: int, root: int, multiplicity: int): MerkleNodeRow {
    MerkleNodeRow(2 * index % P, (depth + 1) % P, 0, 0, value, 0, 0, multiplicity, root)
  }

  lemma DoubleThenHalve(index: int)
    ensures (2 * index % P) * INV2 % P == index % P
  {
    var q := 2 * index / P;
    assert (2 * index % P) * INV2 == index + (index - q * INV2) * P;
    AddMultiple(index, index - q * INV2, P);
  }

  lemma ConsumerTakes(index: int, depth: int, value: int, root: int, multiplicity: int, t: seq<int>)
    requires Canonical(depth) && Canonical(value) && Canonical(root) && EdgeMultiplicity(multiplicity)
    ensures Admissible(Consumer(index, depth, value, root, multiplicity))
    ensures Grounded(Consumer(index, depth, value, root, multiplicity))
    ensures SignedSum(MerkleRequests(Consumer(index, depth, value, root, multiplicity)), Merkle, t)
         == if t == Reduce([index, depth, value, root]) then -multiplicity else 0
  {
    var row := Consumer(index, depth, value, root, multiplicity);
    DoubleThenHalve(index);
    assert ((depth + 1) % P - 1) % P == depth % P;
    ReduceEqual([row.index * INV2, row.depth - 1, value, root], [index, depth, value, root]);
    NodeContribution(row, t);
  }

  function Consumers(row: MerkleNodeRow): seq<MerkleNodeRow> {
    [Consumer(row.index, row.depth, row.lhs, row.root, row.lhsMultiplicity),
     Consumer(row.index + 1, row.depth, row.rhs, row.root, row.rhsMultiplicity)]
  }

  lemma TripleTotal(a: seq<Request>, b: seq<Request>, c: seq<Request>, t: seq<int>)
    ensures Total([a, b, c], Merkle, t)
         == SignedSum(a, Merkle, t) + SignedSum(b, Merkle, t) + SignedSum(c, Merkle, t)
  {
    assert [a, b, c][1..] == [b, c];
    PairTotal(b, c, t);
  }

  lemma ConsumersDetach(row: MerkleNodeRow)
    requires Admissible(row) && !Grounded(row)
    ensures Detaches(row, Consumers(row))
  {
    var rest := Consumers(row);
    ConsumerTakes(row.index, row.depth, row.lhs, row.root, row.lhsMultiplicity, []);
    ConsumerTakes(row.index + 1, row.depth, row.rhs, row.root, row.rhsMultiplicity, []);
    var sources := Nodes([row] + rest);
    assert sources == [Node(row), Node(rest[0]), Node(rest[1])];
    var bus := Bus(sources);
    assert bus == [MerkleRequests(row), MerkleRequests(rest[0]), MerkleRequests(rest[1])];
    hide Admissible, Consumer, MerkleRequests, Reduce;
    forall t: seq<int> ensures Total(bus, Merkle, t) == 0 {
      NodeContribution(row, t);
      ConsumerTakes(row.index, row.depth, row.lhs, row.root, row.lhsMultiplicity, t);
      ConsumerTakes(row.index + 1, row.depth, row.rhs, row.root, row.rhsMultiplicity, t);
      TripleTotal(bus[0], bus[1], bus[2], t);
    }
    IntegerBalanceIsFieldBalance(bus);
  }

  /** An active row can be part of a detached component of otherwise grounded
      rows exactly when it supplies a child without consuming a parent. */
  lemma GroundedIffNeverDetached(row: MerkleNodeRow)
    requires Admissible(row) && !Inactive(row)
    ensures Grounded(row) <==> forall rest :: !Detaches(row, rest)
  {
    if Grounded(row) {
      forall rest ensures !Detaches(row, rest) {
        if Detaches(row, rest) {
          var rows := [row] + rest;
          assert forall r | r in rows :: r == row || r in rest;
          assert rows[0] in rows;
          NodesBalanceOnlyWhenInactive(rows);
        }
      }
    } else {
      ConsumersDetach(row);
    }
  }
}
