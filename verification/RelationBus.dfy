/**
  Signed relation requests over the Mersenne-31 field, and the step every bus
  argument of the repository rests on: a coefficient that vanishes modulo P,
  and whose possible size stays below P, vanishes as an ordinary integer.

  A bus participant (an AIR row or a public term) is the list of requests it
  emits; a bus is a sequence of participants.
*/
module RelationBus {

  const P: int := 0x7FFF_FFFF
  const INV2: int := 0x4000_0000

  datatype Domain =
    | ProgramAccess
    | MemoryAccess
    | Merkle
    | Poseidon2
    | RangeCheck20
    | RangeCheck88

  datatype Request = Request(domain: Domain, numerator: int, values: seq<int>)

  function Reduce(values: seq<int>): seq<int> {
    seq(|values|, i requires 0 <= i < |values| => values[i] % P)
  }

  function MakeRequest(domain: Domain, numerator: int, values: seq<int>): Request {
    Request(domain, numerator % P, Reduce(values))
  }

  predicate Canonical(value: int) {
    0 <= value < P
  }

  /** Two reductions agree exactly when the tuples agree modulo P in every place. */
  lemma ReduceEqual(a: seq<int>, b: seq<int>)
    requires |a| == |b|
    ensures Reduce(a) == Reduce(b) <==> forall i | 0 <= i < |a| :: a[i] % P == b[i] % P
  {
    if forall i | 0 <= i < |a| :: a[i] % P == b[i] % P {
      assert Reduce(a) == Reduce(b);
    }
    if Reduce(a) == Reduce(b) {
      forall i | 0 <= i < |a| ensures a[i] % P == b[i] % P {
        assert Reduce(a)[i] == Reduce(b)[i];
      }
    }
  }

  /** The representative of a residue closest to zero. */
  function Signed(numerator: int): int {
    if numerator <= (P - 1) / 2 then numerator else numerator - P
  }

  function Numerator(r: Request, d: Domain, t: seq<int>): int {
    if r.domain == d && r.values == t then r.numerator else 0
  }

  /** Sum of the residues requested on one tuple of one relation. */
  function FieldSum(requests: seq<Request>, d: Domain, t: seq<int>): int {
    if requests == [] then 0 else Numerator(requests[0], d, t) + FieldSum(requests[1..], d, t)
  }

  /** The same sum over ordinary signed integers. */
  function SignedSum(requests: seq<Request>, d: Domain, t: seq<int>): int {
    if requests == [] then 0
    else Signed(Numerator(requests[0], d, t)) + SignedSum(requests[1..], d, t)
  }

  function Flatten(bus: seq<seq<Request>>): seq<Request> {
    if bus == [] then [] else bus[0] + Flatten(bus[1..])
  }

  /** Tuple-wise balance in the field: what the exact relation check gives. */
  ghost predicate FieldBalanced(bus: seq<seq<Request>>, d: Domain) {
    forall t: seq<int> :: FieldSum(Flatten(bus), d, t) % P == 0
  }

  /** The integer coefficient a whole bus puts on one tuple. */
  function Total(bus: seq<seq<Request>>, d: Domain, t: seq<int>): int {
    if bus == [] then 0 else SignedSum(bus[0], d, t) + Total(bus[1..], d, t)
  }

  /** Tuple-wise balance over the integers: what a graph argument needs. */
  ghost predicate IntegerBalanced(bus: seq<seq<Request>>, d: Domain) {
    forall t: seq<int> :: Total(bus, d, t) == 0
  }

  lemma {:induction false} SignedSumAppend(a: seq<Request>, b: seq<Request>, d: Domain, t: seq<int>)
    ensures SignedSum(a + b, d, t) == SignedSum(a, d, t) + SignedSum(b, d, t)
  {
    if a == [] {
      assert a + b == b;
    } else {
      assert (a + b)[1..] == a[1..] + b;
      SignedSumAppend(a[1..], b, d, t);
    }
  }

  lemma {:induction false} TotalIsFlat(bus: seq<seq<Request>>, d: Domain, t: seq<int>)
    ensures Total(bus, d, t) == SignedSum(Flatten(bus), d, t)
  {
    if bus != [] {
      TotalIsFlat(bus[1..], d, t);
      SignedSumAppend(bus[0], Flatten(bus[1..]), d, t);
    }
  }

  lemma AddMod(a: int, b: int, c: int, e: int)
    requires a % P == b % P && c % P == e % P
    ensures (a + c) % P == (b + e) % P
  {
  }

  lemma AddMultiple(x: int, q: int, m: int)
    requires m > 0
    ensures (x + q * m) % m == x % m
  {
    var y := x + q * m;
    var k := y / m - x / m - q;
    assert y % m - x % m == -(k * m) by {
      assert y == m * (y / m) + y % m && x == m * (x / m) + x % m;
      assert k * m == m * (y / m) - m * (x / m) - q * m;
    }
    MultipleOutOfRange(k, m);
  }

  lemma MultipleOutOfRange(k: int, m: int)
    requires m > 0
    ensures k != 0 ==> k * m >= m || k * m <= -m
  {
    if k >= 1 {
      assert (k - 1) * m >= 0;
    } else if k <= -1 {
      assert (-1 - k) * m >= 0;
    }
  }

  /** Taking signed representatives does not change a coefficient modulo P. */
  lemma {:induction false} SignedCongruent(requests: seq<Request>, d: Domain, t: seq<int>)
    ensures SignedSum(requests, d, t) % P == FieldSum(requests, d, t) % P
  {
    if requests != [] {
      SignedCongruent(requests[1..], d, t);
      var n := Numerator(requests[0], d, t);
      AddMod(Signed(n), n, SignedSum(requests[1..], d, t), FieldSum(requests[1..], d, t));
    }
  }

  function Sum(weights: seq<nat>): nat {
    if weights == [] then 0 else weights[0] + Sum(weights[1..])
  }

  function Abs(x: int): nat {
    if x < 0 then -x else x
  }

  lemma {:induction false} TotalBounded(bus: seq<seq<Request>>, weights: seq<nat>, d: Domain, t: seq<int>)
    requires |bus| == |weights|
    requires forall i | 0 <= i < |bus| :: Abs(SignedSum(bus[i], d, t)) <= weights[i]
    ensures Abs(Total(bus, d, t)) <= Sum(weights)
  {
    if bus != [] {
      assert forall i | 0 <= i < |bus[1..]| :: bus[1..][i] == bus[i + 1] && weights[1..][i] == weights[i + 1];
      TotalBounded(bus[1..], weights[1..], d, t);
    }
  }

  /**
    The coefficient lift.  When the participants' largest coefficients add up
    to less than P, field balance on a tuple is integer balance on that tuple.
  */
  lemma CoefficientLift(bus: seq<seq<Request>>, weights: seq<nat>, d: Domain, t: seq<int>)
    requires |bus| == |weights| && Sum(weights) < P
    requires forall i | 0 <= i < |bus| :: Abs(SignedSum(bus[i], d, t)) <= weights[i]
    requires FieldBalanced(bus, d)
    ensures Total(bus, d, t) == 0
  {
    TotalBounded(bus, weights, d, t);
    TotalResidue(bus, d, t);
    SmallMultipleIsZero(Total(bus, d, t));
  }

  lemma TotalResidue(bus: seq<seq<Request>>, d: Domain, t: seq<int>)
    ensures Total(bus, d, t) % P == FieldSum(Flatten(bus), d, t) % P
  {
    TotalIsFlat(bus, d, t);
    SignedCongruent(Flatten(bus), d, t);
  }

  lemma SmallMultipleIsZero(x: int)
    requires -P < x < P && x % P == 0
    ensures x == 0
  {
  }

  lemma {:induction false} NonPositiveTotal(bus: seq<seq<Request>>, d: Domain, t: seq<int>, k: nat)
    requires k < |bus|
    requires forall i | 0 <= i < |bus| :: SignedSum(bus[i], d, t) <= 0
    ensures Total(bus, d, t) <= SignedSum(bus[k], d, t)
  {
    assert forall i | 0 <= i < |bus[1..]| :: bus[1..][i] == bus[i + 1];
    if k > 0 {
      NonPositiveTotal(bus[1..], d, t, k - 1);
    } else if |bus| > 1 {
      NonPositiveTotal(bus[1..], d, t, 0);
    }
  }

  /** In integer balance every consumer of a tuple has a supplier of it. */
  lemma SupplierExists(bus: seq<seq<Request>>, d: Domain, t: seq<int>, k: nat) returns (j: nat)
    requires k < |bus| && SignedSum(bus[k], d, t) < 0
    requires Total(bus, d, t) == 0
    ensures j < |bus| && SignedSum(bus[j], d, t) > 0
  {
    if forall i | 0 <= i < |bus| :: SignedSum(bus[i], d, t) <= 0 {
      NonPositiveTotal(bus, d, t, k);
      j := k;
    } else {
      j :| 0 <= j < |bus| && SignedSum(bus[j], d, t) > 0;
    }
  }
}
