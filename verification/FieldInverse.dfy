/**
  Congruence modulo P, and inverses: by Fermat's little theorem the power
  a^(P - 2) inverts every a that does not vanish modulo P.
*/
module FieldInverse {
  import opened Basics
  import opened RelationBus
  import FieldPrime

  predicate Congruent(a: int, b: int) {
    (a - b) % P == 0
  }

  lemma CongruentSum(a: int, b: int, c: int, d: int)
    requires Congruent(a, b) && Congruent(c, d)
    ensures Congruent(a + c, b + d) && Congruent(a - c, b - d) && Congruent(-a, -b)
  {
  }

  lemma CongruentTimes(a: int, b: int, c: int)
    requires Congruent(a, b)
    ensures Congruent(a * c, b * c) && Congruent(c * a, c * b)
  {
    var k := (a - b) / P;
    assert a - b == k * P;
    assert a * c - b * c == (a - b) * c == (k * c) * P;
    AddMultiple(0, k * c, P);
  }

  lemma CongruentChain(a: int, b: int, c: int)
    requires Congruent(a, b) && Congruent(b, c)
    ensures Congruent(a, c)
  {
  }

  lemma ReducedIsCongruent(a: int)
    ensures Congruent(a % P, a)
  {
  }

  /** Congruent numbers have the same residue. */
  lemma CongruentResidues(a: int, b: int)
    ensures Congruent(a, b) <==> a % P == b % P
  {
  }

  /** A factor that does not vanish can be cancelled. */
  lemma Cancel(c: int, a: int, b: int)
    requires c % P != 0 && Congruent(c * a, c * b)
    ensures Congruent(a, b)
  {
    assert c * a - c * b == c * (a - b);
    FieldPrime.ProductVanishes(c, a - b);
  }

  // --- powers and Fermat's little theorem -----------------------------------

  function ModPow(a: int, n: nat): (r: int)
    ensures 0 <= r < P
  {
    if n == 0 then 1 else a * ModPow(a, n - 1) % P
  }

  lemma HasMember(xs: set<int>)
    requires xs != {}
    ensures exists x :: x in xs
  {
    assert (forall x: int :: x !in xs) ==> xs == {};
  }

  ghost function Member(xs: set<int>): (x: int)
    requires xs != {}
    ensures x in xs
  {
    HasMember(xs);
    var x :| x in xs;
    x
  }

  ghost function Product(xs: set<int>): int {
    if xs == {} then 1
    else
      var x := Member(xs);
      x * Product(xs - {x})
  }

  lemma {:induction false} ProductRemove(xs: set<int>, x: int)
    requires x in xs
    ensures Product(xs) == x * Product(xs - {x})
  {
    var first := Member(xs);
    if first != x {
      ProductRemove(xs - {first}, x);
      ProductRemove(xs - {x}, first);
      assert xs - {first} - {x} == xs - {x} - {first};
      Swap(first, x, Product(xs - {x} - {first}));
    }
  }

  lemma Swap(a: int, b: int, c: int)
    ensures a * (b * c) == b * (a * c)
  {
  }

  function Multiple(a: int, n: nat): int {
    a * n % P
  }

  /** The residues of the first n multiples of a. */
  function Multiples(a: int, n: nat): set<int> {
    if n == 0 then {} else Multiples(a, n - 1) + {Multiple(a, n)}
  }

  lemma {:induction false} MultipleAt(a: int, n: nat, x: int) returns (i: nat)
    requires x in Multiples(a, n)
    ensures 1 <= i <= n && x == Multiple(a, i)
  {
    if x == Multiple(a, n) { i := n; } else { i := MultipleAt(a, n - 1, x); }
  }

  lemma NewMultiple(a: int, n: nat)
    requires a % P != 0 && 0 < n < P
    ensures Multiple(a, n) !in Multiples(a, n - 1) && 0 < Multiple(a, n) < P
  {
    hide Multiples;
    FieldPrime.ProductVanishes(a, n);
    var x := Multiple(a, n);
    if x in Multiples(a, n - 1) {
      var i := MultipleAt(a, n - 1, x);
      DifferentMultiples(a, i, n);
    }
  }

  lemma DifferentMultiples(a: int, i: nat, n: nat)
    requires a % P != 0 && 0 < i < n < P
    ensures Multiple(a, i) != Multiple(a, n)
  {
    if Multiple(a, i) == Multiple(a, n) {
      CongruentResidues(a * i, a * n);
      Cancel(a, i, n);
    }
  }

  /** They are distinct residues. */
  lemma {:induction false} MultiplesCount(a: int, n: nat)
    requires a % P != 0 && n < P
    ensures |Multiples(a, n)| == n && forall x | x in Multiples(a, n) :: 0 < x < P
  {
    if n > 0 {
      MultiplesCount(a, n - 1);
      MultiplesSplit(a, n);
    }
  }

  lemma {:induction false} ProductSurvives(a: int, n: nat)
    requires a % P != 0 && n < P
    ensures Product(Multiples(a, n)) % P != 0
  {
    if n > 0 {
      ProductSurvives(a, n - 1);
      MultiplesSplit(a, n);
      hide Product, Multiples, Multiple;
      FieldPrime.ProductVanishes(Multiple(a, n), Product(Multiples(a, n - 1)));
    }
  }

  /** Their product is a^n times that of the first n numbers. */
  lemma {:induction false} MultiplesProduct(a: int, n: nat)
    requires a % P != 0 && n < P
    ensures Congruent(Product(Multiples(a, n)), ModPow(a, n) * Product(Multiples(1, n)))
  {
    if n > 0 {
      MultiplesProduct(a, n - 1);
      MultiplesSplit(a, n);
      MultiplesSplit(1, n);
      UnitMultiple(n);
      hide Multiples, Product, Congruent, Multiple;
      PowerStep(a, n, Product(Multiples(a, n - 1)), Product(Multiples(a, n)), ModPow(a, n - 1), ModPow(a, n),
                Product(Multiples(1, n - 1)), Product(Multiples(1, n)));
    }
  }

  lemma UnitMultiple(n: nat)
    requires n < P
    ensures Multiple(1, n) == n
  {
  }

  lemma MultiplesSplit(a: int, n: nat)
    requires a % P != 0 && 0 < n < P
    ensures Multiples(a, n) == Multiples(a, n - 1) + {Multiple(a, n)} && Multiple(a, n) !in Multiples(a, n - 1)
    ensures |Multiples(a, n)| == |Multiples(a, n - 1)| + 1 && 0 < Multiple(a, n) < P
    ensures Product(Multiples(a, n)) == Multiple(a, n) * Product(Multiples(a, n - 1))
  {
    NewMultiple(a, n);
    ProductRemove(Multiples(a, n), Multiple(a, n));
    assert Multiples(a, n) - {Multiple(a, n)} == Multiples(a, n - 1);
  }

  lemma PowerStep(a: int, n: nat, before: int, after: int, power: int, next: int, rest: int, all: int)
    requires Congruent(before, power * rest)
    requires after == Multiple(a, n) * before && next == a * power % P && all == n * rest
    ensures Congruent(after, next * all)
  {
    ReducedIsCongruent(a * n);
    ReducedIsCongruent(a * power);
    CongruentTimes(Multiple(a, n), a * n, before);
    CongruentTimes(before, power * rest, a * n);
    CongruentTimes(next, a * power, all);
    Regroup(a, n, power, rest);
    CongruentChain(after, a * n * before, a * n * (power * rest));
    CongruentSum(0, 0, next * all, a * power * all);
    CongruentChain(after, a * power * all, next * all);
  }

  lemma Regroup(a: int, n: int, power: int, rest: int)
    ensures a * n * (power * rest) == a * power * (n * rest)
  {
    var x := n * (power * rest);
    assert x == power * (n * rest) by { Swap(n, power, rest); }
    assert a * n * (power * rest) == a * x;
    assert a * power * (n * rest) == a * (power * (n * rest));
  }

  lemma AllResidues(xs: set<int>, n: nat)
    requires n > 0 && |xs| == n - 1 && forall x | x in xs :: 0 < x < n
    ensures xs == Residues(n) - {0}
  {
    ResidueRange(n);
    ResidueCount(n);
    hide Residues;
    var all := Residues(n) - {0};
    assert 0 in Residues(n) && |all| == n - 1;
    forall x | x in xs ensures x in all {}
    assert xs <= all;
    assert |all - xs| == 0;
  }

  /** a^(P - 1) is one. */
  lemma Fermat(a: int, n: nat)
    requires a % P != 0 && n == P - 1
    ensures ModPow(a, n) == 1
  {
    hide Product, Multiples, ModPow, Residues;
    MultiplesProduct(a, n);
    MultiplesCount(a, n);
    MultiplesCount(1, n);
    ProductSurvives(1, n);
    AllResidues(Multiples(a, n), n + 1);
    AllResidues(Multiples(1, n), n + 1);
    var x, power := Product(Multiples(1, n)), ModPow(a, n);
    CongruentSum(power * x, power * x, x, power * x);
    assert x * power - x * 1 == power * x - x;
    Cancel(x, power, 1);
  }

  /** `pow(a, P - 2, P)` is the inverse of a, and zero if a has none. */
  function Inverse(a: int): (r: int)
    ensures 0 <= r < P
    ensures a % P != 0 ==> a * r % P == 1
    ensures a % P == 0 ==> r == 0
  {
    InverseLaws(a, P - 2);
    ModPow(a, P - 2)
  }

  lemma InverseLaws(a: int, n: nat)
    requires n == P - 2
    ensures a % P != 0 ==> a * ModPow(a, n) % P == 1
    ensures a % P == 0 ==> ModPow(a, n) == 0
  {
    if a % P != 0 {
      Fermat(a, n + 1);
    } else {
      FieldPrime.ProductVanishes(a, ModPow(a, n - 1));
    }
  }
}
