/**
  Paths through the sparse Merkle tree: binary index folding, the recurrence a
  chain of node rows obeys, and the opening of every leaf to a public root.
*/
module MerklePaths {
  import opened Basics
  import opened RelationBus
  import opened MerkleRows
  import opened MerkleBus

  predicate Bits(bits: seq<int>) {
    forall i | 0 <= i < |bits| :: 0 <= bits[i] < 2
  }

  /** The integer whose binary digits, most significant first, are `bits`. */
  function PathValue(bits: seq<int>): int {
    if bits == [] then 0 else 2 * PathValue(bits[..|bits| - 1]) + bits[|bits| - 1]
  }

  lemma {:induction false} PathValueRange(bits: seq<int>)
    requires Bits(bits)
    ensures 0 <= PathValue(bits) < Pow2(|bits|)
  {
    if bits != [] {
      PathValueRange(bits[..|bits| - 1]);
    }
  }

  lemma {:induction false} PathValueInjective(a: seq<int>, b: seq<int>)
    requires Bits(a) && Bits(b) && |a| == |b| && PathValue(a) == PathValue(b)
    ensures a == b
  {
    if a != [] {
      var n := |a| - 1;
      PathValueInjective(a[..n], b[..n]);
      assert a == a[..n] + [a[n]] && b == b[..n] + [b[n]];
    }
  }

  /** The digits of `leaf`, most significant first. */
  function Digits(leaf: int, depth: nat): (bits: seq<int>)
    ensures |bits| == depth && Bits(bits)
    decreases depth
  {
    if depth == 0 then [] else Digits(leaf / 2, depth - 1) + [leaf % 2]
  }

  lemma {:induction false} PathValueOfDigits(leaf: int, depth: nat)
    requires 0 <= leaf < Pow2(depth)
    ensures PathValue(Digits(leaf, depth)) == leaf
  {
    if depth > 0 {
      PathValueOfDigits(leaf / 2, depth - 1);
      assert Digits(leaf, depth)[..depth - 1] == Digits(leaf / 2, depth - 1);
    }
  }

  lemma DigitsOfPathValue(bits: seq<int>)
    requires Bits(bits)
    ensures Digits(PathValue(bits), |bits|) == bits
  {
    PathValueRange(bits);
    PathValueOfDigits(PathValue(bits), |bits|);
    PathValueInjective(Digits(PathValue(bits), |bits|), bits);
  }

  datatype Result<T> = Ok(value: T) | Err

  /** fold_path with an optional modulus: it rejects a non-bit and a modulus
      below two, and otherwise returns the path value, reduced if asked. */
  method FoldPath(bits: seq<int>, reduce: bool, modulus: int) returns (r: Result<int>)
    ensures r.Ok? <==> Bits(bits) && (reduce ==> modulus > 1)
    ensures r.Ok? ==> r.value == if reduce then PathValue(bits) % modulus else PathValue(bits)
  {
    if reduce && modulus <= 1 {
      return Err;
    }
    var index := 0;
    for i := 0 to |bits|
      invariant Bits(bits[..i])
      invariant index == if reduce then PathValue(bits[..i]) % modulus else PathValue(bits[..i])
    {
      if bits[i] != 0 && bits[i] != 1 {
        return Err;
      }
      ghost var before := PathValue(bits[..i]);
      assert bits[..i + 1][..i] == bits[..i];
      index := 2 * index + bits[i];
      if reduce {
        DoubleMod(before, bits[i], modulus);
        index := index % modulus;
      }
    }
    assert bits[..|bits|] == bits;
    return Ok(index);
  }

  lemma DoubleMod(x: int, b: int, m: int)
    requires m > 1
    ensures (2 * (x % m) + b) % m == (2 * x + b) % m
  {
    var q := x / m;
    assert 2 * x + b == 2 * (x % m) + b + (2 * q) * m;
    AddMultiple(2 * (x % m) + b, 2 * q, m);
  }

  /** decode_leaf_index: rejects an index outside the tree, and otherwise peels
      the digits off the low end and reverses them. */
  method DecodeLeafIndex(leaf: int, depth: nat) returns (r: Result<seq<int>>)
    ensures r.Ok? <==> 0 <= leaf < Pow2(depth)
    ensures r.Ok? ==> |r.value| == depth && Bits(r.value) && PathValue(r.value) == leaf
  {
    if !(0 <= leaf < Pow2(depth)) {
      return Err;
    }
    var index := leaf;
    var bits: seq<int> := [];
    PathValueOfDigits(leaf, depth);
    for i := 0 to depth
      invariant 0 <= index < Pow2(depth - i)
      invariant Digits(index, depth - i) + bits == Digits(leaf, depth)
    {
      bits := [index % 2] + bits;
      index := index / 2;
    }
    assert Digits(index, 0) + bits == bits;
    return Ok(bits);
  }

  /** Follow the digits of one leaf down from index zero. */
  method WalkDigits(bits: seq<int>) returns (leaf: int, edges: nat, everyEven: bool)
    ensures leaf == PathValue(bits) && edges == |bits| && everyEven
  {
    leaf, edges, everyEven := 0, 0, true;
    for i := 0 to |bits|
      invariant leaf == PathValue(bits[..i]) && everyEven && edges == i
    {
      assert bits[..i + 1][..i] == bits[..i];
      var base := 2 * leaf;
      everyEven := everyEven && base % 2 == 0;
      leaf := base + bits[i];
      edges := edges + 1;
    }
    assert bits[..|bits|] == bits;
  }

  /** The exhaustive prefix check of the connectivity certificate: every leaf of
      a depth-d tree is reached along its own digits over even base indices. */
  method ExhaustPrefix(depth: nat) returns (edges: nat, everyEven: bool, reachedAll: bool)
    ensures edges == depth * Pow2(depth) && everyEven && reachedAll
  {
    edges, everyEven, reachedAll := 0, true, true;
    var paths := Pow2(depth);
    for leaf := 0 to paths
      invariant edges == depth * leaf && everyEven && reachedAll
    {
      var decoded := DecodeLeafIndex(leaf, depth);
      var reached, steps, even := WalkDigits(decoded.value);
      everyEven := everyEven && even;
      reachedAll := reachedAll && reached == leaf;
      edges := edges + steps;
    }
  }

  // --- chains of node rows --------------------------------------------------

  /** Rows from root to leaf: each consumes the tuple the row above supplies on
      the side its bit selects; `end` is the child tuple of the last row. */
  predicate PathFrom(top: seq<int>, rows: seq<MerkleNodeRow>, bits: seq<int>, end: seq<int>) {
    && |rows| == |bits|
    && if rows == [] then top == end
       else
         var n := |rows| - 1;
         && 0 <= bits[n] < 2
         && end == ChildTuple(rows[n], bits[n])
         && PathFrom(top, rows[..n], bits[..n], ParentTuple(rows[n]))
  }

  lemma {:induction false} PathBits(top: seq<int>, rows: seq<MerkleNodeRow>, bits: seq<int>, end: seq<int>)
    requires PathFrom(top, rows, bits, end)
    ensures Bits(bits)
  {
    if rows != [] {
      var n := |rows| - 1;
      PathBits(top, rows[..n], bits[..n], ParentTuple(rows[n]));
      assert bits == bits[..n] + [bits[n]];
    }
  }

  /** Halving in the field undoes doubling: a row's base index is the only
      canonical index whose parent index is `parent`. */
  lemma HalvingIsExact(index: int, parent: int)
    requires Canonical(index) && Canonical(parent) && index * INV2 % P == parent
    ensures 2 * parent % P == index
  {
    var q := index * INV2 / P;
    assert 2 * parent == index + P * (index - 2 * q);
  }

  /** One row under a parent index that fits: no wrap, an even base, one more depth. */
  lemma LastRow(row: MerkleNodeRow, n: nat, parent: int, bit: int)
    requires Admissible(row) && n < MERKLE_DEPTH && 0 <= bit < 2
    requires 0 <= parent < Pow2(n)
    requires ParentTuple(row)[0] == parent && ParentTuple(row)[1] == n
    ensures row.index == 2 * parent && row.depth == n + 1
    ensures |ChildTuple(row, bit)| == 4
    ensures ChildTuple(row, bit)[0] == 2 * parent + bit && ChildTuple(row, bit)[1] == n + 1
    ensures ChildTuple(row, bit)[3] == row.root == ParentTuple(row)[3]
  {
    assert 2 * parent + 1 < P by {
      Pow2Monotone(n, 29);
      Pow2At31();
    }
    HalvingIsExact(row.index, parent);
  }

  /** The end of a chain of at most thirty rows hanging from index and depth zero. */
  lemma {:induction false} PathEnd(top: seq<int>, rows: seq<MerkleNodeRow>, bits: seq<int>, end: seq<int>)
    requires PathFrom(top, rows, bits, end) && |rows| <= MERKLE_DEPTH
    requires forall row | row in rows :: Admissible(row)
    requires |top| == 4 && top[0] == 0 && top[1] == 0
    ensures |end| == 4 && end[0] == PathValue(bits) && end[1] == |rows| && end[3] == top[3]
  {
    if rows != [] {
      var n := |rows| - 1;
      assert rows[n] in rows;
      PathEnd(top, rows[..n], bits[..n], ParentTuple(rows[n]));
      PathBits(top, rows[..n], bits[..n], ParentTuple(rows[n]));
      PathValueRange(bits[..n]);
      LastRow(rows[n], n, PathValue(bits[..n]), bits[n]);
    }
  }

  lemma {:induction false} PathPrefix(top: seq<int>, rows: seq<MerkleNodeRow>, bits: seq<int>, end: seq<int>, k: nat)
    requires PathFrom(top, rows, bits, end) && k < |rows|
    ensures PathFrom(top, rows[..k], bits[..k], ParentTuple(rows[k]))
    decreases |rows|
  {
    var n := |rows| - 1;
    if k < n {
      PathPrefix(top, rows[..n], bits[..n], ParentTuple(rows[n]), k);
      assert rows[..n][..k] == rows[..k] && bits[..n][..k] == bits[..k];
    }
  }

  /**
    A chain of at most thirty rows hanging from index zero and depth zero is the
    canonical binary path: its end has the index its bits spell, the depth its
    length, and the root of its start; the k-th row's base index is twice the
    value of the k bits above it, hence even, at depth k + 1 under the same root.
  */
  lemma ConnectedPathIsCanonical(top: seq<int>, rows: seq<MerkleNodeRow>, bits: seq<int>, end: seq<int>)
    requires PathFrom(top, rows, bits, end) && |rows| <= MERKLE_DEPTH
    requires forall row | row in rows :: Admissible(row)
    requires |top| == 4 && top[0] == 0 && top[1] == 0
    ensures |end| == 4 && end[0] == PathValue(bits) && end[1] == |rows| && end[3] == top[3]
    ensures forall k | 0 <= k < |rows| ::
              && rows[k].index == 2 * PathValue(bits[..k])
              && rows[k].depth == k + 1 && rows[k].root == top[3]
  {
    PathEnd(top, rows, bits, end);
    forall k | 0 <= k < |rows|
      ensures rows[k].index == 2 * PathValue(bits[..k]) && rows[k].depth == k + 1 && rows[k].root == top[3]
    {
      assert rows[k] in rows;
      PathPrefix(top, rows, bits, end, k);
      PathEnd(top, rows[..k], bits[..k], ParentTuple(rows[k]));
      PathBits(top, rows[..k], bits[..k], ParentTuple(rows[k]));
      PathValueRange(bits[..k]);
      LastRow(rows[k], k, PathValue(bits[..k]), 0);
    }
  }

  /** Two root-connected chains of the same length ending at the same index took the same turns. */
  lemma IndexDeterminesPath(
      top: seq<int>, rows: seq<MerkleNodeRow>, bits: seq<int>, end: seq<int>,
      top': seq<int>, rows': seq<MerkleNodeRow>, bits': seq<int>, end': seq<int>)
    requires PathFrom(top, rows, bits, end) && PathFrom(top', rows', bits', end')
    requires |rows| == |rows'| <= MERKLE_DEPTH
    requires forall row | row in rows :: Admissible(row)
    requires forall row | row in rows' :: Admissible(row)
    requires |top| == |top'| == 4 && top[0] == top[1] == top'[0] == top'[1] == 0
    requires |end| > 0 && |end'| > 0 && end[0] == end'[0]
    ensures bits == bits'
    ensures forall k | 0 <= k < |rows| :: rows[k].index == rows'[k].index && rows[k].depth == rows'[k].depth
  {
    ConnectedPathIsCanonical(top, rows, bits, end);
    ConnectedPathIsCanonical(top', rows', bits', end');
    PathBits(top, rows, bits, end);
    PathBits(top', rows', bits', end');
    PathValueInjective(bits, bits');
  }

  /** Two digit strings of this length that name one field index are equal. */
  ghost predicate FieldIndexInjective(depth: nat) {
    forall a: seq<int>, b: seq<int> ::
      Bits(a) && Bits(b) && |a| == |b| == depth && PathValue(a) % P == PathValue(b) % P ==> a == b
  }

  lemma Pow2BelowField(depth: nat)
    requires depth <= 30
    ensures Pow2(depth) < P
  {
    Pow2At31();
    Pow2Monotone(depth, 30);
  }

  lemma ShortIndicesInjective(depth: nat)
    requires depth <= 30
    ensures FieldIndexInjective(depth)
  {
    Pow2BelowField(depth);
    forall a: seq<int>, b: seq<int> |
      Bits(a) && Bits(b) && |a| == |b| == depth && PathValue(a) % P == PathValue(b) % P
      ensures a == b
    {
      PathValueRange(a);
      PathValueRange(b);
      PathValueInjective(a, b);
    }
  }

  /** Beyond depth thirty the paths spelling 0 and P share the field index 0. */
  lemma LongIndicesCollide(depth: nat)
    requires depth > 30
    ensures !FieldIndexInjective(depth)
  {
    Pow2At31();
    Pow2Monotone(31, depth);
    PathValueOfDigits(0, depth);
    PathValueOfDigits(P, depth);
    var zero, wrapped := Digits(0, depth), Digits(P, depth);
    assert PathValue(zero) % P == PathValue(wrapped) % P && zero != wrapped;
  }

  /** Depth thirty is the last depth at which a field index names one path. */
  lemma FieldIndexInjectiveUpToThirty(depth: nat)
    ensures FieldIndexInjective(depth) <==> depth <= 30
  {
    if depth <= 30 { ShortIndicesInjective(depth); } else { LongIndicesCollide(depth); }
  }

  // --- every leaf opens to a public root ------------------------------------

  predicate RowsOf(rows: seq<MerkleNodeRow>, sources: seq<Source>) {
    forall row | row in rows :: Node(row) in sources
  }

  lemma PathExtends(top: seq<int>, above: seq<MerkleNodeRow>, turns: seq<int>,
                    row: MerkleNodeRow, bit: int, end: seq<int>)
    requires PathFrom(top, above, turns, ParentTuple(row)) && 0 <= bit < 2 && end == ChildTuple(row, bit)
    ensures PathFrom(top, above + [row], turns + [bit], end)
  {
    assert (above + [row])[..|above|] == above && (turns + [bit])[..|above|] == turns;
  }

  /** Climb from a consumed tuple of depth d: d node rows lead to the public
      root the tuple carries. */
  lemma {:induction false} Climb(sources: seq<Source>, k: nat, t: seq<int>, d: nat)
    returns (rows: seq<MerkleNodeRow>, bits: seq<int>)
    requires Closed(sources) && Consumes(sources, k, t) && |t| == 4 && t[1] == d && d < P
    ensures PublicRoot(t[3]) in sources
    ensures |rows| == d && RowsOf(rows, sources)
    ensures PathFrom(RootTuple(t[3]), rows, bits, t)
    decreases d
  {
    if d == 0 {
      RootReached(sources, k, t);
      rows, bits := [], [];
    } else {
      var j, row, bit := ClimbOne(sources, k, t);
      var above, turns := Climb(sources, j, ParentTuple(row), d - 1);
      rows, bits := above + [row], turns + [bit];
      PathExtends(RootTuple(t[3]), above, turns, row, bit, t);
    }
  }

  /**
    The production guard: twice the node rows, the leaf rows and three public
    roots together stay below P.
  */
  predicate AllSourceGuard(sources: seq<Source>) {
    && Count(sources, 2) <= 3
    && 2 * Count(sources, 0) + Count(sources, 1) + 3 < P
  }

  function Kind(s: Source): nat {
    if s.Node? then 0 else if s.PublicRoot? then 2 else 1
  }

  function Count(sources: seq<Source>, kind: nat): nat {
    if sources == [] then 0 else (if Kind(sources[0]) == kind then 1 else 0) + Count(sources[1..], kind)
  }

  lemma {:induction false} GuardBoundsWeights(sources: seq<Source>)
    ensures Sum(Weights(sources)) == 2 * Count(sources, 0) + Count(sources, 1) + Count(sources, 2)
  {
    if sources != [] {
      GuardBoundsWeights(sources[1..]);
      assert Weights(sources)[1..] == Weights(sources[1..]);
    }
  }

  /** The guard supplies the integer lift of the whole relation, for all sources alike. */
  lemma GuardSuppliesLift(sources: seq<Source>)
    requires (forall s | s in sources :: WellFormed(s)) && AllSourceGuard(sources)
    ensures Sum(Weights(sources)) < P
    ensures FieldBalanced(Bus(sources), Merkle) <==> IntegerBalanced(Bus(sources), Merkle)
  {
    GuardBoundsWeights(sources);
    BusBalancesOverIntegers(sources);
  }

  /**
    Under the production guard, on a field-balanced Merkle relation whose node
    rows never supply a child without consuming a parent, every limb of every
    program or memory-boundary row opens, along thirty of the node rows, to a
    public root equal to the row's own root; the limb's address lies below
    2^30 and spells the path.
  */
  lemma LeafOpensToPublicRoot(sources: seq<Source>, k: nat, limb: nat)
    returns (rows: seq<MerkleNodeRow>, bits: seq<int>)
    requires forall s | s in sources :: WellFormed(s)
    requires forall s | s in sources && s.Node? :: Grounded(s.row)
    requires AllSourceGuard(sources) && FieldBalanced(Bus(sources), Merkle)
    requires k < |sources| && limb < 4 && (sources[k].ProgramLeaf? || sources[k].BoundaryLeaf?)
    ensures PublicRoot(LeafRoot(sources[k])) in sources
    ensures |rows| == MERKLE_DEPTH && RowsOf(rows, sources)
    ensures sources[k] in sources &&
            PathFrom(RootTuple(LeafRoot(sources[k])), rows, bits, Leaf(sources[k], limb))
    ensures (LeafAddress(sources[k]) + limb) % P < 0x4000_0000
    ensures bits == Digits((LeafAddress(sources[k]) + limb) % P, |rows|)
  {
    hide Digits, PathFrom, Sum, Weights, Count, SignedSum, Requests, Leaf, LeafRoot, LeafAddress, FieldBalanced,
         Admissible, Grounded;
    GuardBoundsWeights(sources);
    assert Closed(sources);
    assert sources[k] in sources;
    LeafIsConsumed(sources[k], limb);
    var t := Leaf(sources[k], limb);
    rows, bits := Climb(sources, k, t, t[1]);
    RowsAdmissible(rows, sources);
    RootDepthZero(t[3]);
    PathSpellsIndex(RootTuple(t[3]), rows, bits, t);
  }

  lemma LeafIsConsumed(s: Source, limb: nat)
    requires WellFormed(s) && (s.ProgramLeaf? || s.BoundaryLeaf?) && limb < 4
    ensures SignedSum(Requests(s), Merkle, Leaf(s, limb)) < 0
    ensures |Leaf(s, limb)| == 4
    ensures Leaf(s, limb)[0] == (LeafAddress(s) + limb) % P
    ensures Leaf(s, limb)[1] == MERKLE_DEPTH && Leaf(s, limb)[3] == LeafRoot(s)
  {
    LeafSourceContribution(s, Leaf(s, limb));
  }

  lemma RowsAdmissible(rows: seq<MerkleNodeRow>, sources: seq<Source>)
    requires RowsOf(rows, sources) && forall s | s in sources :: WellFormed(s)
    ensures forall row | row in rows :: Admissible(row)
  {
    forall row | row in rows ensures Admissible(row) {
      assert WellFormed(Node(row));
    }
  }

  lemma PathSpellsIndex(top: seq<int>, rows: seq<MerkleNodeRow>, bits: seq<int>, end: seq<int>)
    requires PathFrom(top, rows, bits, end) && |rows| == MERKLE_DEPTH
    requires forall row | row in rows :: Admissible(row)
    requires |top| == 4 && top[0] == 0 && top[1] == 0
    ensures |end| == 4 && 0 <= end[0] < 0x4000_0000 && bits == Digits(end[0], |rows|) && end[3] == top[3]
  {
    ConnectedPathIsCanonical(top, rows, bits, end);
    PathBits(top, rows, bits, end);
    PathValueRange(bits);
    Pow2At31();
    DigitsOfPathValue(bits);
  }

  // --- the grounding hypothesis is needed for every leaf --------------------

  /** A row that supplies one limb of a leaf out of nothing. */
  function LimbSupplier(s: Source, limb: nat): MerkleNodeRow
    requires WellFormed(s) && (s.ProgramLeaf? || s.BoundaryLeaf?) && limb < 4
  {
    MerkleNodeRow((LeafAddress(s) + limb) % P, MERKLE_DEPTH, LeafWords(s)[limb], 0, 0, 1, 0, 0, LeafRoot(s))
  }

  lemma LimbSupplierEdges(s: Source, limb: nat)
    requires WellFormed(s) && (s.ProgramLeaf? || s.BoundaryLeaf?) && limb < 4
    ensures Admissible(LimbSupplier(s, limb)) && LeftTuple(LimbSupplier(s, limb)) == Leaf(s, limb)
  {
    var row := LimbSupplier(s, limb);
    ReduceEqual([row.index, row.depth, row.lhs, row.root],
                [LeafAddress(s) + limb, MERKLE_DEPTH, LeafWords(s)[limb], LeafRoot(s)]);
  }

  lemma LimbSupplierGives(s: Source, limb: nat, t: seq<int>)
    requires WellFormed(s) && (s.ProgramLeaf? || s.BoundaryLeaf?) && limb < 4
    ensures SignedSum(MerkleRequests(LimbSupplier(s, limb)), Merkle, t) == if t == Leaf(s, limb) then 1 else 0
  {
    LimbSupplierEdges(s, limb);
    var row := LimbSupplier(s, limb);
    assert row.lhsMultiplicity == 1 && row.rhsMultiplicity == row.currentMultiplicity == 0;
    hide LimbSupplier, Admissible, WellFormed, Leaf, LeftTuple, RightTuple, ParentTuple, MerkleRequests, SignedSum;
    NodeContribution(row, t);
  }

  function SelfSupplied(s: Source): seq<Source>
    requires WellFormed(s) && (s.ProgramLeaf? || s.BoundaryLeaf?)
  {
    [s, Node(LimbSupplier(s, 0)), Node(LimbSupplier(s, 1)), Node(LimbSupplier(s, 2)), Node(LimbSupplier(s, 3))]
  }

  lemma FiveTotal(a: seq<Request>, b: seq<Request>, c: seq<Request>, e: seq<Request>, f: seq<Request>, t: seq<int>)
    ensures Total([a, b, c, e, f], Merkle, t)
         == SignedSum(a, Merkle, t) + SignedSum(b, Merkle, t) + SignedSum(c, Merkle, t)
            + SignedSum(e, Merkle, t) + SignedSum(f, Merkle, t)
  {
    assert [a, b, c, e, f][1..] == [b, c, e, f] && [b, c, e, f][1..] == [c, e, f];
    TripleTotal(c, e, f, t);
  }

  lemma LimbsApart(s: Source)
    requires WellFormed(s) && (s.ProgramLeaf? || s.BoundaryLeaf?)
    ensures forall i: nat, j: nat | i < j < 4 :: Leaf(s, i) != Leaf(s, j)
  {
    forall i: nat, j: nat | i < j < 4 ensures Leaf(s, i) != Leaf(s, j) {
      LeafTuplesDistinct(LeafAddress(s), LeafWords(s), LeafRoot(s), i, j);
    }
  }

  lemma SelfSuppliedBalances(s: Source, t: seq<int>)
    requires WellFormed(s) && (s.ProgramLeaf? || s.BoundaryLeaf?)
    ensures SignedSum(Requests(s), Merkle, t)
            + SignedSum(MerkleRequests(LimbSupplier(s, 0)), Merkle, t)
            + SignedSum(MerkleRequests(LimbSupplier(s, 1)), Merkle, t)
            + SignedSum(MerkleRequests(LimbSupplier(s, 2)), Merkle, t)
            + SignedSum(MerkleRequests(LimbSupplier(s, 3)), Merkle, t) == 0
  {
    hide WellFormed, Requests, MerkleRequests, LimbSupplier, Leaf, SignedSum;
    LimbSupplierGives(s, 0, t);
    LimbSupplierGives(s, 1, t);
    LimbSupplierGives(s, 2, t);
    LimbSupplierGives(s, 3, t);
    LimbsApart(s);
    LeafSourceContribution(s, t);
  }

  /** Every leaf whatever, closed by four ungrounded rows alone: balanced, within
      the guard, and with no public root to open to. */
  lemma UngroundedLeafOpensNowhere(s: Source)
    requires WellFormed(s) && (s.ProgramLeaf? || s.BoundaryLeaf?)
    ensures exists sources ::
              && s in sources && (forall x | x in sources :: WellFormed(x) && !x.PublicRoot?)
              && AllSourceGuard(sources) && FieldBalanced(Bus(sources), Merkle)
  {
    var sources := SelfSupplied(s);
    SelfSuppliedWellFormed(s);
    GuardOfFive(s);
    var bus := Bus(sources);
    assert bus == [Requests(s), MerkleRequests(LimbSupplier(s, 0)), MerkleRequests(LimbSupplier(s, 1)),
                   MerkleRequests(LimbSupplier(s, 2)), MerkleRequests(LimbSupplier(s, 3))];
    hide LimbSupplier, MerkleRequests, Requests, WellFormed, AllSourceGuard;
    forall t: seq<int> ensures Total(bus, Merkle, t) == 0 {
      SelfSuppliedBalances(s, t);
      FiveTotal(bus[0], bus[1], bus[2], bus[3], bus[4], t);
    }
    IntegerBalanceIsFieldBalance(bus);
    assert s in sources;
  }

  lemma SelfSuppliedWellFormed(s: Source)
    requires WellFormed(s) && (s.ProgramLeaf? || s.BoundaryLeaf?)
    ensures forall x | x in SelfSupplied(s) :: WellFormed(x)
  {
    hide LimbSupplier, Admissible;
    LimbSupplierEdges(s, 0);
    LimbSupplierEdges(s, 1);
    LimbSupplierEdges(s, 2);
    LimbSupplierEdges(s, 3);
  }

  lemma GuardOfFive(s: Source)
    requires WellFormed(s) && (s.ProgramLeaf? || s.BoundaryLeaf?)
    ensures AllSourceGuard(SelfSupplied(s)) && forall x | x in SelfSupplied(s) :: !x.PublicRoot?
  {
    hide LimbSupplier;
    var a, b := Node(LimbSupplier(s, 0)), Node(LimbSupplier(s, 1));
    var c, e := Node(LimbSupplier(s, 2)), Node(LimbSupplier(s, 3));
    assert SelfSupplied(s) == [s, a, b, c, e];
    assert [s, a, b, c, e][1..] == [a, b, c, e] && [a, b, c, e][1..] == [b, c, e];
    assert [b, c, e][1..] == [c, e] && [c, e][1..] == [e] && [e][1..] == [];
    forall kind ensures Count([s, a, b, c, e], kind) == if kind == 0 then 4 else if kind == 1 then 1 else 0 {
      assert Count([e], kind) == if kind == 0 then 1 else 0;
      assert Count([c, e], kind) == if kind == 0 then 2 else 0;
      assert Count([b, c, e], kind) == if kind == 0 then 3 else 0;
      assert Count([a, b, c, e], kind) == if kind == 0 then 4 else 0;
    }
  }
}
