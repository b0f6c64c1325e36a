/** Shared helpers. */
module Basics {

  datatype Option<T> = None | Some(value: T)

  const U32_LIMIT: int := 0x1_0000_0000

  predicate U32(n: int) {
    0 <= n < U32_LIMIT
  }

  function Pow2(n: nat): (r: nat)
    ensures r >= 1
  {
    if n == 0 then 1 else 2 * Pow2(n - 1)
  }

  lemma {:induction false} Pow2Monotone(a: nat, b: nat)
    requires a <= b
    ensures Pow2(a) <= Pow2(b)
    decreases b - a
  {
    if a < b {
      Pow2Monotone(a + 1, b);
    }
  }

  lemma Pow2At31()
    ensures Pow2(30) == 0x4000_0000 && Pow2(31) == 0x8000_0000
  {
    assert Pow2(5) == 32;
    assert Pow2(10) == 1024;
    assert Pow2(15) == 0x8000;
    assert Pow2(20) == 0x10_0000;
    assert Pow2(25) == 0x200_0000;
    assert Pow2(30) == 0x4000_0000;
  }

  lemma {:induction false} Pow2Sum(i: nat, j: nat)
    ensures Pow2(i + j) == Pow2(i) * Pow2(j)
    decreases i
  {
    if i > 0 {
      Pow2Sum(i - 1, j);
      TwiceProduct(Pow2(i - 1), Pow2(j));
    }
  }

  lemma TwiceProduct(a: int, b: int)
    ensures 2 * a * b == 2 * (a * b)
  {
  }

  lemma SubsetCount<T>(a: set<T>, b: set<T>)
    requires a <= b
    ensures |a| <= |b|
  {
    assert b == a + (b - a);
  }

  /** The numbers below n. */
  function Residues(n: nat): set<int> {
    if n == 0 then {} else Residues(n - 1) + {n - 1}
  }

  lemma {:induction false} ResidueRange(n: nat)
    ensures forall x :: x in Residues(n) <==> 0 <= x < n
  {
    if n > 0 {
      ResidueRange(n - 1);
    }
  }

  lemma {:induction false} ResidueCount(n: nat)
    ensures |Residues(n)| == n
  {
    if n > 0 {
      ResidueCount(n - 1);
      ResidueRange(n - 1);
    }
  }

  // --- sums over a list in any order ----------------------------------------

  /** f adds up over concatenation. */
  ghost predicate Additive<T(!new), U>(f: seq<T> -> U, plus: (U, U) -> U) {
    forall a: seq<T>, b: seq<T> :: f(a + b) == plus(f(a), f(b))
  }

  ghost predicate Exchanges<U(!new)>(plus: (U, U) -> U) {
    forall x: U, y: U, z: U :: plus(plus(x, y), z) == plus(plus(x, z), y)
  }

  lemma Adds<T(!new), U>(f: seq<T> -> U, plus: (U, U) -> U, a: seq<T>, b: seq<T>)
    requires Additive(f, plus)
    ensures f(a + b) == plus(f(a), f(b))
  {
  }

  lemma MoveLast<T(!new), U(!new)>(f: seq<T> -> U, plus: (U, U) -> U, left: seq<T>, x: T, right: seq<T>)
    requires Additive(f, plus) && Exchanges(plus)
    ensures f(left + [x] + right) == plus(f(left + right), f([x]))
  {
    Adds(f, plus, left + [x], right);
    Adds(f, plus, left, [x]);
    Adds(f, plus, left, right);
    hide Additive;
  }

  /** What adds up over concatenation does not depend on the order. */
  lemma {:induction false} AdditivePermuted<T(!new), U(!new)>(f: seq<T> -> U, plus: (U, U) -> U, a: seq<T>, b: seq<T>)
    requires Additive(f, plus) && Exchanges(plus) && multiset(a) == multiset(b)
    ensures f(a) == f(b)
    decreases |a|
  {
    hide Additive, Exchanges;
    if a == [] {
      assert |multiset(b)| == 0;
      assert a == b;
    } else {
      var before, last := a[..|a| - 1], a[|a| - 1];
      var left, right := Around(a, b);
      AdditivePermuted(f, plus, before, left + right);
      MoveLast(f, plus, before, last, []);
      MoveLast(f, plus, left, last, right);
      assert before + [last] + [] == a && before + [] == before;
    }
  }

  /** The last element of a, found in b. */
  lemma Around<T>(a: seq<T>, b: seq<T>) returns (left: seq<T>, right: seq<T>)
    requires multiset(a) == multiset(b) && a != []
    ensures b == left + [a[|a| - 1]] + right && multiset(a[..|a| - 1]) == multiset(left + right)
  {
    var n := |a| - 1;
    var x := a[n];
    assert a == a[..n] + [x];
    assert x in multiset(b);
    var k :| 0 <= k < |b| && b[k] == x;
    left, right := b[..k], b[k + 1..];
    assert b == left + [x] + right;
    assert multiset(a[..n]) == multiset(a) - multiset{x} == multiset(left + right);
  }

  function Plus(x: int, y: int): int {
    x + y
  }

  function Join<T>(x: multiset<T>, y: multiset<T>): multiset<T> {
    x + y
  }

  lemma JoinExchanges<T(!new)>()
    ensures Exchanges<multiset<T>>(Join)
  {
    forall x: multiset<T>, y: multiset<T>, z: multiset<T> ensures Join(Join(x, y), z) == Join(Join(x, z), y) {
      assert x + y + z == x + z + y;
    }
  }
}
