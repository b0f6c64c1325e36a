/**
  Rows that meet on the Merkle relation: sparse-tree nodes, program leaves,
  memory-boundary leaves and the public roots, with the requests each emits.
*/
module MerkleRows {
  import opened RelationBus

  const MERKLE_DEPTH: int := 30

  datatype MerkleNodeRow = MerkleNodeRow(
    index: int,
    depth: int,
    lhs: int,
    rhs: int,
    current: int,
    lhsMultiplicity: int,
    rhsMultiplicity: int,
    currentMultiplicity: int,
    root: int)

  datatype Violation = NotCanonical(field: string) | NotEdgeMultiplicity(field: string)

  predicate EdgeMultiplicity(value: int) {
    0 <= value <= 2
  }

  /** The direct constraints of one active node row. */
  predicate Admissible(row: MerkleNodeRow) {
    && Canonical(row.index) && Canonical(row.depth)
    && Canonical(row.lhs) && Canonical(row.rhs) && Canonical(row.current)
    && Canonical(row.root)
    && EdgeMultiplicity(row.lhsMultiplicity)
    && EdgeMultiplicity(row.rhsMultiplicity)
    && EdgeMultiplicity(row.currentMultiplicity)
  }

  /** A field among the first `n` named ones from `from` on fails a test. */
  predicate FailsAmong(fields: seq<(string, int)>, from: nat, n: nat, name: string, edge: bool)
    requires n <= |fields|
  {
    exists k :: from <= k < n && fields[k].0 == name
                && if edge then !EdgeMultiplicity(fields[k].1) else !Canonical(fields[k].1)
  }

  /** The violation list of one row, built field by field as the checker does:
      it names exactly the fields that are wrong, each with what is wrong. */
  method MerkleRowViolations(row: MerkleNodeRow) returns (violations: seq<Violation>)
    ensures violations == [] <==> Admissible(row)
    ensures forall v :: v in violations <==>
              match v
              case NotCanonical(name) => FailsAmong(Named(row), 0, 9, name, false)
              case NotEdgeMultiplicity(name) => FailsAmong(Named(row), 6, 9, name, true)
  {
    var fields := Named(row);
    violations := [];
    for i := 0 to |fields|
      invariant forall v :: v in violations <==> v.NotCanonical? && FailsAmong(fields, 0, i, v.field, false)
    {
      if !Canonical(fields[i].1) {
        violations := violations + [NotCanonical(fields[i].0)];
      }
    }
    for i := 6 to |fields|
      invariant forall v :: v in violations <==>
                  match v
                  case NotCanonical(name) => FailsAmong(fields, 0, 9, name, false)
                  case NotEdgeMultiplicity(name) => FailsAmong(fields, 6, i, name, true)
    {
      if !EdgeMultiplicity(fields[i].1) {
        violations := violations + [NotEdgeMultiplicity(fields[i].0)];
      }
    }
    NoneFails(row);
    if violations == [] {
      forall name ensures !FailsAmong(fields, 0, 9, name, false) && !FailsAmong(fields, 6, 9, name, true) {
        assert NotCanonical(name) !in violations && NotEdgeMultiplicity(name) !in violations;
      }
    } else {
      assert violations[0] in violations;
    }
  }

  lemma NoneFails(row: MerkleNodeRow)
    ensures Admissible(row) <==>
              forall name :: !FailsAmong(Named(row), 0, 9, name, false) && !FailsAmong(Named(row), 6, 9, name, true)
  {
    var fields := Named(row);
    assert fields[0].1 == row.index && fields[1].1 == row.depth && fields[2].1 == row.lhs;
    assert fields[3].1 == row.rhs && fields[4].1 == row.current && fields[5].1 == row.root;
    assert fields[6].1 == row.lhsMultiplicity && fields[7].1 == row.rhsMultiplicity;
    assert fields[8].1 == row.currentMultiplicity;
    if !Admissible(row) {
      var k :| 0 <= k < 9 && (!Canonical(fields[k].1) || (k >= 6 && !EdgeMultiplicity(fields[k].1)));
      assert FailsAmong(fields, 0, 9, fields[k].0, false) || FailsAmong(fields, 6, 9, fields[k].0, true);
    }
  }

  function Named(row: MerkleNodeRow): (fields: seq<(string, int)>)
    ensures |fields| == 9
  {
    [("index", row.index), ("depth", row.depth), ("lhs", row.lhs), ("rhs", row.rhs),
     ("current", row.current), ("root", row.root),
     ("lhs_multiplicity", row.lhsMultiplicity),
     ("rhs_multiplicity", row.rhsMultiplicity),
     ("current_multiplicity", row.currentMultiplicity)]
  }

  function LeftTuple(row: MerkleNodeRow): seq<int> {
    Reduce([row.index, row.depth, row.lhs, row.root])
  }

  function RightTuple(row: MerkleNodeRow): seq<int> {
    Reduce([row.index + 1, row.depth, row.rhs, row.root])
  }

  function ParentTuple(row: MerkleNodeRow): seq<int> {
    Reduce([row.index * INV2, row.depth - 1, row.current, row.root])
  }

  function Zeros(n: nat): seq<int> {
    seq(n, i => 0)
  }

  function MerkleRequests(row: MerkleNodeRow): seq<Request> {
    [MakeRequest(Merkle, row.lhsMultiplicity, [row.index, row.depth, row.lhs, row.root]),
     MakeRequest(Merkle, row.rhsMultiplicity, [row.index + 1, row.depth, row.rhs, row.root]),
     MakeRequest(Merkle, -row.currentMultiplicity, [row.index * INV2, row.depth - 1, row.current, row.root]),
     MakeRequest(Poseidon2, 1, [row.lhs, row.rhs] + Zeros(14)),
     MakeRequest(Poseidon2, -1, [row.current] + Zeros(15))]
  }

  lemma FiveRequests(a: Request, b: Request, c: Request, e: Request, f: Request, d: Domain, t: seq<int>)
    ensures SignedSum([a, b, c, e, f], d, t) ==
            Signed(Numerator(a, d, t)) + Signed(Numerator(b, d, t)) + Signed(Numerator(c, d, t))
            + Signed(Numerator(e, d, t)) + Signed(Numerator(f, d, t))
  {
    assert [f][1..] == [] && [e, f][1..] == [f] && [c, e, f][1..] == [e, f];
    assert SignedSum([f], d, t) == Signed(Numerator(f, d, t));
    assert SignedSum([e, f], d, t) == Signed(Numerator(e, d, t)) + Signed(Numerator(f, d, t));
    assert SignedSum([c, e, f], d, t) ==
      Signed(Numerator(c, d, t)) + Signed(Numerator(e, d, t)) + Signed(Numerator(f, d, t));
    assert [b, c, e, f][1..] == [c, e, f];
    assert SignedSum([b, c, e, f], d, t) == Signed(Numerator(b, d, t)) + SignedSum([c, e, f], d, t);
    assert [a, b, c, e, f][1..] == [b, c, e, f];
  }

  /** A small signed coefficient survives reduction to a residue and back. */
  lemma SmallRequest(m: int, values: seq<int>, t: seq<int>)
    requires -2 <= m <= 2
    ensures Signed(Numerator(MakeRequest(Merkle, m, values), Merkle, t)) == if t == Reduce(values) then m else 0
  {
  }

  /** What one node row puts on one Merkle tuple, edge by edge. */
  lemma NodeContribution(row: MerkleNodeRow, t: seq<int>)
    requires Admissible(row)
    ensures SignedSum(MerkleRequests(row), Merkle, t) ==
            (if t == LeftTuple(row) then row.lhsMultiplicity else 0)
            + (if t == RightTuple(row) then row.rhsMultiplicity else 0)
            - (if t == ParentTuple(row) then row.currentMultiplicity else 0)
  {
    var r := MerkleRequests(row);
    assert r == [r[0], r[1], r[2], r[3], r[4]];
    FiveRequests(r[0], r[1], r[2], r[3], r[4], Merkle, t);
    SmallRequest(row.lhsMultiplicity, [row.index, row.depth, row.lhs, row.root], t);
    SmallRequest(row.rhsMultiplicity, [row.index + 1, row.depth, row.rhs, row.root], t);
    SmallRequest(-row.currentMultiplicity, [row.index * INV2, row.depth - 1, row.current, row.root], t);
    assert Numerator(r[3], Merkle, t) == Numerator(r[4], Merkle, t) == 0;
  }

  /** The three edges of a row are three different tuples. */
  lemma EdgesDistinct(row: MerkleNodeRow)
    requires Admissible(row)
    ensures LeftTuple(row) != RightTuple(row)
    ensures LeftTuple(row) != ParentTuple(row) && RightTuple(row) != ParentTuple(row)
  {
    assert LeftTuple(row)[0] != RightTuple(row)[0];
    assert LeftTuple(row)[1] == RightTuple(row)[1] != ParentTuple(row)[1];
  }

  // --- leaves ---------------------------------------------------------------

  datatype ProgramRow = ProgramRow(
    addr: int, values: seq<int>, multiplicity: int, root: int, low20: int, high8: int)

  datatype MemoryBoundaryRow = MemoryBoundaryRow(
    addr: int, clock: int, values: seq<int>, sign: int, root: int)

  predicate ProgramAdmissible(row: ProgramRow) {
    && Canonical(row.addr) && Canonical(row.multiplicity) && Canonical(row.root)
    && Canonical(row.low20) && Canonical(row.high8)
    && (forall i | 0 <= i < |row.values| :: Canonical(row.values[i]))
    && |row.values| == 4
    && 0 <= row.low20 < 0x10_0000
    && 0 <= row.high8 < 0x100
    && row.addr % P == 4 * (row.low20 + 0x10_0000 * row.high8) % P
  }

  predicate BoundaryAdmissible(row: MemoryBoundaryRow) {
    && Canonical(row.addr) && Canonical(row.clock) && Canonical(row.root)
    && (forall i | 0 <= i < |row.values| :: Canonical(row.values[i]))
    && |row.values| == 4
    && (row.sign == -1 || row.sign == 1)
    && (forall i | 0 <= i < 4 :: 0 <= row.values[i] < 256)
  }

  /** The tuple that opens one limb of a leaf word. */
  function LeafTuple(addr: int, limb: nat, value: int, root: int): seq<int> {
    Reduce([addr + limb, MERKLE_DEPTH, value, root])
  }

  function LeafRequests(addr: int, values: seq<int>, root: int): seq<Request>
    requires |values| == 4
  {
    [MakeRequest(Merkle, -1, [addr + 0, MERKLE_DEPTH, values[0], root]),
     MakeRequest(Merkle, -1, [addr + 1, MERKLE_DEPTH, values[1], root]),
     MakeRequest(Merkle, -1, [addr + 2, MERKLE_DEPTH, values[2], root]),
     MakeRequest(Merkle, -1, [addr + 3, MERKLE_DEPTH, values[3], root])]
  }

  function ProgramRequests(row: ProgramRow): seq<Request>
    requires |row.values| == 4
  {
    [MakeRequest(ProgramAccess, row.multiplicity, [row.addr] + row.values)]
    + LeafRequests(row.addr, row.values, row.root)
    + [MakeRequest(RangeCheck20, -1, [row.low20]),
       MakeRequest(RangeCheck88, -1, [row.high8, 0])]
  }

  function BoundaryRequests(row: MemoryBoundaryRow): seq<Request>
    requires |row.values| == 4
  {
    [MakeRequest(RangeCheck88, -1, row.values[0..2]),
     MakeRequest(RangeCheck88, -1, row.values[2..4]),
     MakeRequest(MemoryAccess, row.sign, [1, row.addr, row.clock] + row.values)]
    + LeafRequests(row.addr, row.values, row.root)
  }

  /** A present public root emits one tuple at index zero and depth zero. */
  function RootTuple(root: int): seq<int> {
    Reduce([0, 0, root, root])
  }

  function RootRequests(root: int): seq<Request> {
    [MakeRequest(Merkle, 1, [0, 0, root, root])]
  }

  lemma OtherDomain(requests: seq<Request>, d: Domain, t: seq<int>)
    requires forall i | 0 <= i < |requests| :: requests[i].domain != d
    ensures SignedSum(requests, d, t) == 0
  {
  }

  lemma FourConsumers(r: seq<Request>, t: seq<int>)
    requires |r| == 4
    requires forall i | 0 <= i < 4 :: r[i].domain == Merkle && r[i].numerator == P - 1
    requires forall i, j | 0 <= i < j < 4 :: r[i].values != r[j].values
    ensures SignedSum(r, Merkle, t) ==
            if t == r[0].values || t == r[1].values || t == r[2].values || t == r[3].values then -1 else 0
  {
    var a, b, c, e := r[0], r[1], r[2], r[3];
    assert SignedSum([e], Merkle, t) == if t == e.values then -1 else 0;
    assert [c, e][1..] == [e];
    assert SignedSum([c, e], Merkle, t) == if t == c.values || t == e.values then -1 else 0;
    assert [b, c, e][1..] == [c, e];
    assert SignedSum([b, c, e], Merkle, t) == if t == b.values || t == c.values || t == e.values then -1 else 0;
    assert r[1..] == [b, c, e];
  }

  lemma LeafTuplesDistinct(addr: int, values: seq<int>, root: int, i: nat, j: nat)
    requires |values| == 4 && i < j < 4
    ensures LeafTuple(addr, i, values[i], root) != LeafTuple(addr, j, values[j], root)
  {
    assert LeafTuple(addr, i, values[i], root)[0] == (addr + i) % P;
    assert LeafTuple(addr, j, values[j], root)[0] == (addr + j) % P;
    assert (addr + i) % P != (addr + j) % P;
  }

  /** The four limbs of a leaf consume four different tuples, one each. */
  lemma LeafContribution(addr: int, values: seq<int>, root: int, t: seq<int>)
    requires |values| == 4
    ensures SignedSum(LeafRequests(addr, values, root), Merkle, t) ==
            if exists limb: nat | limb < 4 :: t == LeafTuple(addr, limb, values[limb], root) then -1 else 0
  {
    var r := LeafRequests(addr, values, root);
    forall i: nat, j: nat | i < j < 4 { LeafTuplesDistinct(addr, values, root, i, j); }
    var t0 := LeafTuple(addr, 0, values[0], root);
    var t1 := LeafTuple(addr, 1, values[1], root);
    var t2 := LeafTuple(addr, 2, values[2], root);
    var t3 := LeafTuple(addr, 3, values[3], root);
    assert r[0].values == t0 && r[1].values == t1 && r[2].values == t2 && r[3].values == t3;
    FourConsumers(r, t);
    assert (exists limb: nat | limb < 4 :: t == LeafTuple(addr, limb, values[limb], root))
      <==> t == t0 || t == t1 || t == t2 || t == t3;
  }
}
