/**
  How many node rows a modulus can tolerate before a non-zero coefficient can
  pass for zero: the witness the checker builds, and the exact bound.
*/
module MerkleGuard {
  import opened RelationBus
  import opened MerkleRows
  import opened MerkleBus

  /** The ordinary coefficient node rows put on a tuple. */
  function Ordinary(rows: seq<MerkleNodeRow>, t: seq<int>): int
    requires forall row | row in rows :: Admissible(row)
  {
    Total(Bus(Nodes(rows)), Merkle, t)
  }

  lemma VanishingIsZero(x: int, m: int)
    requires m > 0 && -m < x < m && x % m == 0
    ensures x == 0
  {
    assert x == (x / m) * m;
    MultipleOutOfRange(x / m, m);
  }

  /** With at most (m - 1) / 2 rows, a coefficient zero modulo m is zero. */
  lemma GuardLifts(rows: seq<MerkleNodeRow>, m: int, t: seq<int>)
    requires m > 2 && m % 2 == 1
    requires forall row | row in rows :: Admissible(row)
    requires |rows| <= (m - 1) / 2 && Ordinary(rows, t) % m == 0
    ensures Ordinary(rows, t) == 0
  {
    var sources := Nodes(rows);
    forall i | 0 <= i < |rows| ensures Abs(SignedSum(Bus(sources)[i], Merkle, t)) <= Weights(sources)[i] {
      assert rows[i] in rows;
      ContributionBounded(sources[i], t);
    }
    TotalBounded(Bus(sources), Weights(sources), Merkle, t);
    NodeWeights(rows);
    VanishingIsZero(Ordinary(rows, t), m);
  }

  // --- the wrap witness -----------------------------------------------------

  const COEFFICIENT_TWO := MerkleNodeRow(0, 1, 1, 2, 3, 0, 0, 2, 7)
  const COEFFICIENT_ONE := COEFFICIENT_TWO.(currentMultiplicity := 1)
  const SILENT := COEFFICIENT_TWO.(currentMultiplicity := 0)

  function Repeat(row: MerkleNodeRow, n: nat): seq<MerkleNodeRow> {
    seq(n, i => row)
  }

  /** (m - 1) / 2 rows of parent coefficient two and one of coefficient one. */
  function WrapRows(m: int): seq<MerkleNodeRow>
    requires m > 2
  {
    [COEFFICIENT_ONE] + Repeat(COEFFICIENT_TWO, (m - 1) / 2)
  }

  lemma OrdinaryCons(row: MerkleNodeRow, rest: seq<MerkleNodeRow>, t: seq<int>)
    requires Admissible(row) && forall r | r in rest :: Admissible(r)
    ensures Ordinary([row] + rest, t) == SignedSum(MerkleRequests(row), Merkle, t) + Ordinary(rest, t)
  {
    assert Bus(Nodes([row] + rest))[1..] == Bus(Nodes(rest));
  }

  lemma {:induction false} RepeatCoefficient(row: MerkleNodeRow, n: nat, c: nat)
    requires row == COEFFICIENT_TWO.(currentMultiplicity := c) && c <= 2
    ensures forall r | r in Repeat(row, n) :: Admissible(r)
    ensures Ordinary(Repeat(row, n), ParentTuple(COEFFICIENT_TWO)) == -(c * n)
  {
    if n > 0 {
      RepeatCoefficient(row, n - 1, c);
      assert Repeat(row, n) == [row] + Repeat(row, n - 1);
      OrdinaryCons(row, Repeat(row, n - 1), ParentTuple(COEFFICIENT_TWO));
      NodeContribution(row, ParentTuple(COEFFICIENT_TWO));
      EdgesDistinct(row);
    }
  }

  lemma {:induction false} OrdinaryAppend(a: seq<MerkleNodeRow>, b: seq<MerkleNodeRow>, t: seq<int>)
    requires forall r | r in a + b :: Admissible(r)
    ensures (forall r | r in a :: Admissible(r)) && (forall r | r in b :: Admissible(r))
    ensures Ordinary(a + b, t) == Ordinary(a, t) + Ordinary(b, t)
  {
    assert forall r | r in a :: r in a + b;
    assert forall r | r in b :: r in a + b;
    if a == [] {
      assert a + b == b;
    } else {
      assert a + b == [a[0]] + (a[1..] + b) && a == [a[0]] + a[1..];
      assert forall r | r in a[1..] + b :: r in a + b;
      OrdinaryAppend(a[1..], b, t);
      OrdinaryCons(a[0], a[1..] + b, t);
      OrdinaryCons(a[0], a[1..], t);
    }
  }

  /** The witness rows are admissible and put exactly -m on their parent. */
  lemma WrapRowsCoefficient(m: int)
    requires m > 2 && m % 2 == 1
    ensures forall r | r in WrapRows(m) :: Admissible(r)
    ensures |WrapRows(m)| == (m + 1) / 2
    ensures Ordinary(WrapRows(m), ParentTuple(COEFFICIENT_TWO)) == -m
  {
    RepeatCoefficient(COEFFICIENT_TWO, (m - 1) / 2, 2);
    OrdinaryCons(COEFFICIENT_ONE, Repeat(COEFFICIENT_TWO, (m - 1) / 2), ParentTuple(COEFFICIENT_TWO));
    NodeContribution(COEFFICIENT_ONE, ParentTuple(COEFFICIENT_TWO));
    EdgesDistinct(COEFFICIENT_ONE);
  }

  ghost predicate LiftsAt(m: int, n: nat)
    requires m > 0
  {
    forall rows: seq<MerkleNodeRow>, t: seq<int> ::
      |rows| == n && (forall row | row in rows :: Admissible(row)) && Ordinary(rows, t) % m == 0
      ==> Ordinary(rows, t) == 0
  }

  /** One row more than the guard allows, and any larger number, fails to lift. */
  lemma TooManyRowsWrap(m: int, n: nat)
    requires m > 2 && m % 2 == 1 && n > (m - 1) / 2
    ensures !LiftsAt(m, n)
  {
    hide Ordinary, Admissible, ParentTuple;
    var padding := Repeat(SILENT, n - (m + 1) / 2);
    var rows := WrapRows(m) + padding;
    WrapRowsCoefficient(m);
    RepeatCoefficient(SILENT, |padding|, 0);
    OrdinaryAppend(WrapRows(m), padding, ParentTuple(COEFFICIENT_TWO));
    NegatedModulus(m);
    assert Ordinary(rows, ParentTuple(COEFFICIENT_TWO)) == -m;
  }

  /** The guard is exact: n rows lift modulo m if and only if n <= (m - 1) / 2. */
  lemma GuardIsTight(m: int, n: nat)
    requires m > 2 && m % 2 == 1
    ensures LiftsAt(m, n) <==> n <= (m - 1) / 2
  {
    if n <= (m - 1) / 2 {
      forall rows: seq<MerkleNodeRow>, t: seq<int> |
        |rows| == n && (forall row | row in rows :: Admissible(row)) && Ordinary(rows, t) % m == 0
        ensures Ordinary(rows, t) == 0
      {
        GuardLifts(rows, m, t);
      }
    } else {
      TooManyRowsWrap(m, n);
    }
  }

  lemma NegatedModulus(m: int)
    requires m > 0
    ensures (-m) % m == 0 && m % m == 0
  {
    AddMultiple(0, -1, m);
    AddMultiple(0, 1, m);
  }

  datatype WrapCounterexample = WrapCounterexample(
    coefficientTwoRows: int,
    activeRows: int,
    ordinaryCoefficient: int,
    fieldCoefficient: int,
    admittedByRowsLessThanModulus: bool,
    admittedByProductionGuard: bool,
    locallyAdmissible: bool)

  datatype BuildResult = Built(found: WrapCounterexample) | BadModulus | Malformed

  /**
    The witness builder.  It rejects only moduli that are not odd and above two,
    its final self-check never fails, and what it reports is the coefficient of
    the rows it describes.
  */
  method BuildWrapCounterexample(modulus: int) returns (r: BuildResult)
    ensures r.Built? <==> modulus > 2 && modulus % 2 == 1
    ensures !r.Malformed?
    ensures r.Built? ==>
              && r.found.coefficientTwoRows >= 0
              && WrapRows(modulus) == [COEFFICIENT_ONE] + Repeat(COEFFICIENT_TWO, r.found.coefficientTwoRows)
              && r.found.activeRows == |WrapRows(modulus)| == r.found.coefficientTwoRows + 1
              && r.found.ordinaryCoefficient == modulus
              && (forall row | row in WrapRows(modulus) :: Admissible(row))
              && r.found.ordinaryCoefficient
                 == -Ordinary(WrapRows(modulus), ParentTuple(COEFFICIENT_TWO)) != 0
              && r.found.fieldCoefficient == 0 == r.found.ordinaryCoefficient % modulus
              && r.found.activeRows < modulus && r.found.admittedByRowsLessThanModulus
              && 2 * r.found.activeRows > modulus && !r.found.admittedByProductionGuard
              && r.found.locallyAdmissible
  {
    if modulus <= 2 || modulus % 2 == 0 {
      return BadModulus;
    }
    var coefficientTwoRows := (modulus - 1) / 2;
    var active := coefficientTwoRows + 1;
    var ordinary := 2 * coefficientTwoRows + 1;
    var violationsTwo := MerkleRowViolations(COEFFICIENT_TWO);
    var violationsOne := MerkleRowViolations(COEFFICIENT_ONE);
    var result := WrapCounterexample(
      coefficientTwoRows, active, ordinary, ordinary % modulus,
      active < modulus, active <= (modulus - 1) / 2,
      violationsTwo == [] && violationsOne == []);
    WrapRowsCoefficient(modulus);
    NegatedModulus(modulus);
    if result.fieldCoefficient != 0 || !result.admittedByRowsLessThanModulus
       || result.admittedByProductionGuard || !result.locallyAdmissible
       || result.ordinaryCoefficient == 0 {
      return Malformed;
    }
    return Built(result);
  }
}
