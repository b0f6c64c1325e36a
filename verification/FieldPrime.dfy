/**
  P = 2^31 - 1 is prime, and so a product that vanishes modulo P has a factor
  that does.

  The primality proof is Lucas and Lehmer's.  Write w = 2 + sqrt 3.  If the
  Lucas sequence reaches zero, then w^(2^30) is -1 modulo every divisor q of P,
  so the first 2^31 powers of w differ modulo q; but there are only q * q
  residues, and a least divisor has q * q <= P.
*/
module FieldPrime {
  import opened Basics
  import opened RelationBus

  predicate Divides(d: int, n: int)
    requires d > 0
  {
    n % d == 0
  }

  lemma DividesMeans(d: int, n: int)
    requires d > 0 && Divides(d, n)
    ensures n == d * (n / d)
  {
  }

  lemma MultipleDivides(d: int, k: int)
    requires d > 0
    ensures Divides(d, d * k) && Divides(d, k * d)
  {
    AddMultiple(0, k, d);
    assert k * d == d * k;
  }

  lemma DividesThrough(d: int, m: int, n: int)
    requires d > 0 && m > 0 && Divides(d, m) && Divides(m, n)
    ensures Divides(d, n)
  {
    DividesMeans(d, m);
    DividesMeans(m, n);
    var i, j := m / d, n / m;
    assert n == d * (i * j);
    MultipleDivides(d, i * j);
  }

  lemma DividesSum(d: int, m: int, n: int, k: int)
    requires d > 0 && Divides(d, m) && Divides(d, n)
    ensures Divides(d, m + n) && Divides(d, m - n) && Divides(d, k * m)
  {
    DividesMeans(d, m);
    DividesMeans(d, n);
    var i, j := m / d, n / d;
    assert m + n == d * (i + j) && m - n == d * (i - j) && k * m == d * (k * i);
    MultipleDivides(d, i + j);
    MultipleDivides(d, i - j);
    MultipleDivides(d, k * i);
  }

  // --- integers with a square root of three ---------------------------------

  /** a + b sqrt 3. */
  datatype Quad = Quad(a: int, b: int)

  const ONE := Quad(1, 0)
  const MINUS := Quad(-1, 0)
  const OMEGA := Quad(2, 1)

  function Times(x: Quad, y: Quad): Quad {
    Quad(x.a * y.a + 3 * (x.b * y.b), x.a * y.b + x.b * y.a)
  }

  function Power(n: nat): Quad {
    if n == 0 then ONE else Times(OMEGA, Power(n - 1))
  }

  lemma TimesOne(x: Quad)
    ensures Times(ONE, x) == x == Times(x, ONE)
  {
  }

  lemma OmegaAssociates(x: Quad, y: Quad)
    ensures Times(Times(OMEGA, x), y) == Times(OMEGA, Times(x, y))
  {
    assert (2 * x.a + 3 * x.b) * y.a == 2 * (x.a * y.a) + 3 * (x.b * y.a);
    assert (2 * x.b + x.a) * y.b == 2 * (x.b * y.b) + x.a * y.b;
    assert (2 * x.a + 3 * x.b) * y.b == 2 * (x.a * y.b) + 3 * (x.b * y.b);
    assert (2 * x.b + x.a) * y.a == 2 * (x.b * y.a) + x.a * y.a;
  }

  lemma {:induction false} PowerSum(m: nat, n: nat)
    ensures Power(m + n) == Times(Power(m), Power(n))
    decreases m
  {
    if m == 0 {
      TimesOne(Power(n));
    } else {
      PowerSum(m - 1, n);
      OmegaAssociates(Power(m - 1), Power(n));
    }
  }

  lemma {:induction false} Norm(n: nat)
    ensures Power(n).a * Power(n).a - 3 * (Power(n).b * Power(n).b) == 1
  {
    if n > 0 {
      Norm(n - 1);
      NormStep(Power(n - 1).a, Power(n - 1).b);
    }
  }

  lemma NormStep(a: int, b: int)
    ensures var c, d := 2 * a + 3 * b, 2 * b + a; c * c - 3 * (d * d) == a * a - 3 * (b * b)
  {
    var c, d := 2 * a + 3 * b, 2 * b + a;
    assert c * c == 4 * (a * a) + 12 * (a * b) + 9 * (b * b);
    assert d * d == 4 * (b * b) + 4 * (a * b) + a * a;
  }

  /** Squaring a power: w^2n = (2 a^2 - 1) + 2 a b sqrt 3. */
  lemma PowerDouble(n: nat)
    ensures Power(2 * n).a == 2 * (Power(n).a * Power(n).a) - 1
    ensures Power(2 * n).b == 2 * (Power(n).a * Power(n).b)
  {
    PowerSum(n, n);
    Norm(n);
  }

  // --- modulo q -------------------------------------------------------------

  predicate Same(q: int, x: Quad, y: Quad)
    requires q > 0
  {
    Divides(q, x.a - y.a) && Divides(q, x.b - y.b)
  }

  lemma SameChain(q: int, x: Quad, y: Quad, z: Quad)
    requires q > 0 && Same(q, x, y) && Same(q, y, z)
    ensures Same(q, x, z) && Same(q, y, x)
  {
    DividesSum(q, x.a - y.a, y.a - z.a, -1);
    DividesSum(q, x.b - y.b, y.b - z.b, -1);
    DividesSum(q, 0, x.a - y.a, 0);
    DividesSum(q, 0, x.b - y.b, 0);
  }

  lemma SameSelf(q: int, x: Quad)
    requires q > 0
    ensures Same(q, x, x)
  {
  }

  lemma OneIsNotMinus(q: int)
    requires q > 2
    ensures !Same(q, ONE, MINUS)
  {
  }

  lemma DifferenceTimes(k: int, x: int, y: int)
    ensures k * x - k * y == k * (x - y)
  {
  }

  lemma SameTimes(q: int, x: Quad, y: Quad, z: Quad)
    requires q > 0 && Same(q, x, y)
    ensures Same(q, Times(z, x), Times(z, y))
  {
    var da, db := x.a - y.a, x.b - y.b;
    DividesSum(q, da, db, z.a);
    DividesSum(q, db, da, z.b);
    DividesSum(q, da, db, z.b);
    DividesSum(q, db, da, z.a);
    DifferenceTimes(z.a, x.a, y.a);
    DifferenceTimes(z.b, x.b, y.b);
    DifferenceTimes(z.a, x.b, y.b);
    DifferenceTimes(z.b, x.a, y.a);
    var s, t, u, v := z.a * da, z.b * db, z.a * db, z.b * da;
    assert Times(z, x).a - Times(z, y).a == s + 3 * t && Times(z, x).b - Times(z, y).b == u + v;
    hide Times, Divides;
    DividesSum(q, t, 0, 3) by { assert Divides(q, 0) by { MultipleDivides(q, 0); } }
    DividesSum(q, s, 3 * t, 0);
    DividesSum(q, u, v, 0);
  }

  function Sign(m: nat): Quad {
    if m % 2 == 1 then MINUS else ONE
  }

  /** If w^h is -1 modulo q, odd multiples of h give -1 and even ones 1. */
  lemma {:induction false} PowerOfMinus(q: int, h: nat, m: nat, n: nat)
    requires q > 0 && Same(q, Power(h), MINUS) && n == m * h
    ensures Same(q, Power(n), Sign(m))
    decreases m
  {
    hide Times, Same, Divides;
    if m == 0 {
      SameSelf(q, ONE);
    } else {
      var less := n - h;
      LessMultiple(m, h, n);
      hide Power;
      PowerOfMinus(q, h, m - 1, less);
      PowerSum(less, h);
      SameTimes(q, Power(h), MINUS, Power(less));
      TimesMinus(q, Power(less), Sign(m - 1));
      SameChain(q, Power(n), Times(Power(less), MINUS), Sign(m));
    }
  }

  lemma LessMultiple(m: nat, h: nat, n: nat)
    requires m > 0 && n == m * h
    ensures n >= h && n - h == (m - 1) * h
  {
    assert m * h == h + (m - 1) * h;
    assert (m - 1) * h >= 0;
  }

  lemma TimesMinus(q: int, x: Quad, y: Quad)
    requires q > 0 && Same(q, x, y) && (y == ONE || y == MINUS)
    ensures Same(q, Times(x, MINUS), if y == ONE then MINUS else ONE)
  {
    DividesSum(q, x.a - y.a, 0, -1);
    DividesSum(q, x.b - y.b, 0, -1);
    assert Times(x, MINUS) == Quad(-x.a, -x.b);
  }

  /** If w^k is 1 modulo q, so are its powers. */
  lemma {:induction false} PowerOfOne(q: int, k: nat, m: nat, n: nat)
    requires q > 0 && Same(q, Power(k), ONE) && n == m * k
    ensures Same(q, Power(n), ONE)
    decreases m
  {
    hide Times, Same, Divides;
    if m == 0 {
      SameSelf(q, ONE);
    } else {
      var less := n - k;
      LessMultiple(m, k, n);
      hide Power;
      PowerOfOne(q, k, m - 1, less);
      PowerSum(less, k);
      SameTimes(q, Power(k), ONE, Power(less));
      TimesOne(Power(less));
      SameChain(q, Power(n), Power(less), ONE);
    }
  }

  /** k is an odd number times a power of two. */
  lemma {:induction false} OddTimesPower(k: nat) returns (m: nat, e: nat)
    requires k > 0
    ensures m % 2 == 1 && k == m * Pow2(e)
  {
    if k % 2 == 1 {
      m, e := k, 0;
    } else {
      m, e := OddTimesPower(k / 2);
      assert k == 2 * (m * Pow2(e)) == m * Pow2(e + 1);
      e := e + 1;
    }
  }

  /** If w^(2^n) is -1 modulo q > 2, no earlier power than the 2^(n+1)-th is 1. */
  lemma OrderIsFull(q: int, n: nat, k: nat)
    requires q > 2 && Same(q, Power(Pow2(n)), MINUS) && 0 < k < Pow2(n + 1)
    ensures !Same(q, Power(k), ONE)
  {
    hide Power, Times, Same, Divides, Pow2;
    if Same(q, Power(k), ONE) {
      var m, e := OddTimesPower(k);
      ExponentBound(k, m, e, n);
      Pow2Sum(e, n - e);
      var lift := Pow2(n - e);
      assert lift * k == m * Pow2(n) by { Reorder(lift, m, Pow2(e)); }
      var all := lift * k;
      PowerOfOne(q, k, lift, all);
      PowerOfMinus(q, Pow2(n), m, all);
      SameSelf(q, ONE);
      SameChain(q, Power(all), ONE, ONE);
      SameChain(q, ONE, Power(all), MINUS);
      OneIsNotMinus(q);
    }
  }

  lemma ExponentBound(k: nat, m: nat, e: nat, n: nat)
    requires m % 2 == 1 && k == m * Pow2(e) && k < Pow2(n + 1)
    ensures e <= n
  {
    hide Pow2;
    if e > n {
      Pow2Monotone(n + 1, e);
      AtLeastOnce(m, Pow2(e));
    }
  }

  lemma AtLeastOnce(m: nat, x: nat)
    requires m > 0
    ensures m * x >= x
  {
    assert (m - 1) * x >= 0;
  }

  lemma Distribute(k: int, u: int, v: int)
    ensures k * (u + v) == k * u + k * v && k * (u + 3 * v) == k * u + 3 * (k * v)
  {
  }

  lemma Reorder(a: int, b: int, x: int)
    ensures a * (b * x) == b * (a * x) == (a * b) * x
  {
  }

  lemma ConjugateProducts(a: int, b: int, x: int, y: int)
    requires a * a - 3 * (b * b) == 1
    ensures a * (a * x + 3 * (b * y)) + 3 * (-b * (a * y + b * x)) == x
    ensures a * (a * y + b * x) + -b * (a * x + 3 * (b * y)) == y
  {
    Distribute(a, a * x, b * y);
    Distribute(-b, a * y, b * x);
    Distribute(a, a * y, b * x);
    Distribute(-b, a * x, b * y);
    Reorder(a, a, x);
    Reorder(a, a, y);
    Reorder(a, b, x);
    Reorder(a, b, y);
    Reorder(b, b, x);
    Reorder(b, b, y);
    UnitTimes(a * a, b * b, x);
    UnitTimes(a * a, b * b, y);
    MinusTimes(b, a * y);
    MinusTimes(b, b * x);
    MinusTimes(b, a * x);
    MinusTimes(b, b * y);
  }

  lemma UnitTimes(s: int, t: int, x: int)
    requires s - 3 * t == 1
    ensures s * x - 3 * (t * x) == x
  {
    assert (s - 3 * t) * x == s * x - 3 * t * x;
  }

  lemma MinusTimes(b: int, x: int)
    ensures -b * x == -(b * x)
  {
  }

  lemma ConjugateCancels(n: nat, x: Quad)
    ensures Times(Quad(Power(n).a, -Power(n).b), Times(Power(n), x)) == x
  {
    Norm(n);
    ConjugateProducts(Power(n).a, Power(n).b, x.a, x.b);
    hide Power;
  }

  lemma PowersDiffer(q: int, n: nat, i: nat, j: nat)
    requires q > 2 && Same(q, Power(Pow2(n)), MINUS) && i < j < Pow2(n + 1)
    ensures !Same(q, Power(j), Power(i))
  {
    hide Power, Times, Same, Divides, Pow2;
    if Same(q, Power(j), Power(i)) {
      var k := j - i;
      PowerSum(i, k);
      TimesOne(Power(i));
      SameTimes(q, Power(j), Power(i), Quad(Power(i).a, -Power(i).b));
      ConjugateCancels(i, Power(k));
      ConjugateCancels(i, ONE);
      OrderIsFull(q, n, k);
    }
  }

  // --- counting residues ----------------------------------------------------

  /** The residues of both parts as one number below q * q. */
  function Residue(q: int, x: Quad): int
    requires q > 0
  {
    x.a % q * q + x.b % q
  }

  lemma ResidueBelow(q: int, x: Quad)
    requires q > 0
    ensures 0 <= Residue(q, x) < q * q
  {
    var a := x.a % q;
    assert a * q >= 0 && (q - 1 - a) * q >= 0;
    assert (q - 1 - a) * q == q * q - q - a * q;
  }

  lemma SameResidue(q: int, x: Quad, y: Quad)
    requires q > 0 && Residue(q, x) == Residue(q, y)
    ensures Same(q, x, y)
  {
    var i, j := x.a % q - y.a % q, y.b % q - x.b % q;
    assert i * q == j by { assert i * q == x.a % q * q - y.a % q * q; }
    MultipleOutOfRange(i, q);
    assert i == j == 0;
    assert x.a - y.a == q * (x.a / q - y.a / q) && x.b - y.b == q * (x.b / q - y.b / q);
    MultipleDivides(q, x.a / q - y.a / q);
    MultipleDivides(q, x.b / q - y.b / q);
  }

  function PowersBelow(q: int, n: nat): set<int>
    requires q > 0
  {
    if n == 0 then {} else PowersBelow(q, n - 1) + {Residue(q, Power(n - 1))}
  }

  lemma {:induction false} PowerBelow(q: int, n: nat, x: int) returns (i: nat)
    requires q > 0 && x in PowersBelow(q, n)
    ensures i < n && x == Residue(q, Power(i))
  {
    hide Power, Residue;
    if x == Residue(q, Power(n - 1)) {
      i := n - 1;
    } else {
      i := PowerBelow(q, n - 1, x);
    }
  }

  lemma {:induction false} ManyPowers(q: int, e: nat, n: nat)
    requires q > 2 && Same(q, Power(Pow2(e)), MINUS) && n <= Pow2(e + 1)
    ensures |PowersBelow(q, n)| == n
    decreases n
  {
    hide Power, Pow2, Same, Residue;
    if n > 0 {
      ManyPowers(q, e, n - 1);
      if Residue(q, Power(n - 1)) in PowersBelow(q, n - 1) {
        var i := PowerBelow(q, n - 1, Residue(q, Power(n - 1)));
        SameResidue(q, Power(n - 1), Power(i));
        PowersDiffer(q, e, i, n - 1);
      }
    }
  }

  /** Modulo such a q there is room for all those powers. */
  lemma SquareIsLarge(q: int, e: nat)
    requires q > 2 && Same(q, Power(Pow2(e)), MINUS)
    ensures Pow2(e + 1) <= q * q
  {
    hide Power, Same, Pow2, PowersBelow, Residues, Residue;
    var n := Pow2(e + 1);
    ManyPowers(q, e, n);
    ResidueCount(q * q);
    ResidueRange(q * q);
    forall x | x in PowersBelow(q, n) ensures x in Residues(q * q) {
      var i := PowerBelow(q, n, x);
      ResidueBelow(q, Power(i));
    }
    SubsetCount(PowersBelow(q, n), Residues(q * q));
  }

  // --- the Lucas sequence ---------------------------------------------------

  /** The i-th term, up to a factor of two: the rational part of w^(2^i) modulo P. */
  predicate Term(i: nat, c: int) {
    Divides(P, Power(Pow2(i)).a - c)
  }

  /** Each term is twice the square of the one before, less one. */
  lemma Next(i: nat, c: int, e: int)
    requires Term(i, c) && (2 * (c * c) - 1 - e) % 0x7FFF_FFFF == 0
    ensures Term(i + 1, e)
  {
    hide Power;
    PowerDouble(Pow2(i));
    var x := Power(Pow2(i)).a;
    DividesSum(P, x - c, 0, 2 * (x + c));
    assert 2 * (x + c) * (x - c) == 2 * (x * x) - 2 * (c * c);
    DividesSum(P, 2 * (x * x) - 2 * (c * c), 2 * (c * c) - 1 - e, 0);
  }

  lemma FirstTerm(i: nat)
    requires i == 0
    ensures Term(i, 2)
  {
    assert Pow2(i) == 1;
    PowerAtOne(Pow2(i));
    hide Power, Pow2;
  }

  lemma PowerAtOne(n: nat)
    requires n == 1
    ensures Power(n) == OMEGA
  {
    assert Power(n - 1) == ONE;
    TimesOne(OMEGA);
  }

  /** The sequence reaches zero. */
  lemma LucasRuns()
    ensures Term(29, 0)
  {
    hide Term;
    FirstTerm(0);
    Next(0, 2, 7);
    Next(1, 7, 97);
    Next(2, 97, 18817);
    Next(3, 18817, 708158977);
    Next(4, 708158977, 334835419);
    Next(5, 334835419, 2042371533);
    Next(6, 2042371533, 212706801);
    Next(7, 212706801, 421007138);
    Next(8, 421007138, 6346213);
    Next(9, 6346213, 1022251061);
    Next(10, 1022251061, 1633461177);
    Next(11, 1633461177, 595037635);
    Next(12, 595037635, 1799120754);
    Next(13, 1799120754, 438833264);
    Next(14, 438833264, 1389168750);
    Next(15, 1389168750, 1543902459);
    Next(16, 1543902459, 1330239767);
    Next(17, 1330239767, 1420207432);
    Next(18, 1420207432, 2015554631);
    Next(19, 2015554631, 996212859);
    Next(20, 996212859, 1434706457);
    Next(21, 1434706457, 13610297);
    Next(22, 13610297, 785043271);
    Next(23, 785043271, 838195206);
    Next(24, 838195206, 579625837);
    Next(25, 579625837, 1179735656);
    Next(26, 1179735656, 590768354);
    Next(27, 590768354, 32768);
    Next(28, 32768, 0);
  }

  /** So w^(2^30) is -1 modulo P. */
  lemma LucasReachesZero(q: int, e: nat)
    requires q > 0 && Divides(q, P) && Term(e, 0)
    ensures Same(q, Power(Pow2(e + 1)), MINUS)
  {
    var n := Pow2(e);
    assert Pow2(e + 1) == 2 * n && Divides(P, Power(n).a - 0);
    PowerDouble(n);
    var a, b := Power(n).a, Power(n).b;
    DividesThrough(q, P, a);
    SquareVanishes(q, a, b);
    assert Power(2 * n).a - MINUS.a == 2 * (a * a) && Power(2 * n).b - MINUS.b == 2 * (a * b);
    hide Power, Pow2;
  }

  lemma SquareVanishes(q: int, a: int, b: int)
    requires q > 0 && Divides(q, a)
    ensures Divides(q, 2 * (a * a)) && Divides(q, 2 * (a * b))
  {
    DividesMeans(q, a);
    var k := a / q;
    Reorder(2 * a, q, k);
    Reorder(2 * b, q, k);
    assert 2 * (a * a) == 2 * a * (q * k) && 2 * (a * b) == 2 * b * (q * k);
    MultipleDivides(q, 2 * a * k);
    MultipleDivides(q, 2 * b * k);
  }

  lemma TwoToThe31(e: nat)
    requires e == 31
    ensures Pow2(e) == P + 1
  {
    Pow2At31();
  }

  /** No divisor of P above two has a square up to P. */
  lemma NoSmallDivisor(q: int)
    requires q > 2 && Divides(q, P)
    ensures q * q > P
  {
    hide Power, Pow2, Same, Term;
    LucasRuns();
    var e: nat := 29;
    LucasReachesZero(q, e);
    SquareIsLarge(q, e + 1);
    TwoToThe31(e + 2);
  }

  lemma Cofactor(d: int, e: int)
    requires 1 < d < P && d * e == P
    ensures 1 < e < P
  {
    assert e > 0 && e != 1;
    assert d * e >= 2 * e;
  }

  /** P is prime. */
  lemma FieldIsPrime(d: int)
    requires 1 < d < P
    ensures !Divides(d, P)
  {
    if Divides(d, P) {
      DividesMeans(d, P);
      var e := P / d;
      assert 1 < e < P by { Cofactor(d, e); }
      MultipleDivides(e, d);
      var least, most := if d <= e then d else e, if d <= e then e else d;
      assert least * least <= least * most == P;
      assert P % 2 == 1;
      NoSmallDivisor(least);
    }
  }

  // --- no zero divisors -----------------------------------------------------

  /** The least multiplier that takes b to a multiple of P is one or P. */
  lemma {:induction false} Multipliers(m: int, b: int)
    requires 0 < m < P && Divides(P, m * b)
    ensures Divides(P, b)
    decreases m
  {
    if m > 1 {
      var q, r := P / m, P % m;
      FieldIsPrime(m);
      assert 0 < r < m && P == m * q + r;
      DividesSum(P, m * b, 0, q);
      MultipleDivides(P, b);
      DividesSum(P, P * b, q * (m * b), 0);
      assert r * b == P * b - q * (m * b);
      Multipliers(r, b);
    }
  }

  /** A product that vanishes modulo P has a factor that does. */
  lemma ProductVanishes(a: int, b: int)
    ensures (a * b) % P == 0 <==> a % P == 0 || b % P == 0
  {
    var q, r := a / P, a % P;
    assert a == P * q + r;
    MultipleDivides(P, q * b);
    assert a * b == P * (q * b) + r * b;
    if Divides(P, a * b) {
      DividesSum(P, a * b, P * (q * b), 0);
      if r > 0 { Multipliers(r, b); }
    }
    if Divides(P, a) { DividesSum(P, a, 0, b); assert b * a == a * b; }
    if Divides(P, b) { DividesSum(P, b, 0, a); }
  }
}
