/**
  Which one-hot groups the analysis finds: a constraint's form against what the
  constraint says of every row.
*/
module OneHotGroups {
  import opened Basics
  import opened RelationBus
  import opened FieldInverse
  import opened LinearForms
  import opened AirSystem
  import opened Names
  import ColumnLines
  import LinearSystem
  import opened ColumnBounds
  import opened CaseSplit
  import BitBounds

  /** Signs aside, the node is not a product. */
  predicate NotProduct(nodes: seq<Node>, i: nat)
    requires i < |nodes| && Ordered(nodes)
    decreases i
  {
    assert ArgsBefore(nodes[i], i);
    match nodes[i]
    case Mul(_, _) => false
    case Neg(a) => NotProduct(nodes, a)
    case _ => true
  }

  lemma {:induction false} SomeFactor(nodes: seq<Node>, i: nat)
    requires i < |nodes| && Ordered(nodes)
    ensures |FactorsOf(nodes, i)| >= 1
    decreases i
  {
    assert ArgsBefore(nodes[i], i);
    match nodes[i]
    case Mul(l, r) => SomeFactor(nodes, l); SomeFactor(nodes, r);
    case Neg(a) => SomeFactor(nodes, a);
    case _ =>
  }

  lemma {:induction false} OneFactor(nodes: seq<Node>, i: nat)
    requires i < |nodes| && Ordered(nodes)
    ensures |FactorsOf(nodes, i)| == 1 <==> NotProduct(nodes, i)
    decreases i
  {
    assert ArgsBefore(nodes[i], i);
    match nodes[i]
    case Mul(l, r) => SomeFactor(nodes, l); SomeFactor(nodes, r);
    case Neg(a) => OneFactor(nodes, a);
    case _ =>
  }

  ghost function ColumnSum(names: set<string>, row: Row): int
    requires names <= row.Keys
  {
    if names == {} then 0
    else
      var n :| n in names;
      row[n] + ColumnSum(names - {n}, row)
  }

  lemma {:induction false} ColumnSumRemove(names: set<string>, row: Row, n: string)
    requires names <= row.Keys && n in names
    ensures ColumnSum(names, row) == row[n] + ColumnSum(names - {n}, row)
  {
    var first :| first in names && ColumnSum(names, row) == row[first] + ColumnSum(names - {first}, row);
    if first != n {
      ColumnSumRemove(names - {first}, row, n);
      ColumnSumRemove(names - {n}, row, first);
      assert names - {first} - {n} == names - {n} - {first};
    }
  }

  /** On every row the constraint is the sum of these columns, less one. */
  ghost predicate SumsToOne(s: System, c: nat, names: set<string>)
    requires Loaded(s) && c < |s.nodes|
  {
    && names <= ColumnNames(s)
    && forall row: Row | row.Keys == ColumnNames(s) ::
         Congruent(Value(s.nodes, c, row), ColumnSum(names, row) - 1)
  }

  function UnitTerms(names: set<string>): map<string, int> {
    map n | n in names :: 1
  }

  lemma {:induction false} OnesSum(names: set<string>, all: set<string>, row: Row)
    requires names <= all <= row.Keys
    ensures SumOn(all, UnitTerms(names), row) == ColumnSum(names, row)
    decreases all
  {
    if all != {} {
      var n :| n in all;
      SumOnRemove(all, UnitTerms(names), row, n);
      if n in names {
        ColumnSumRemove(names, row, n);
        OnesSum(names - {n}, all - {n}, row);
        SameOn(all - {n}, UnitTerms(names), UnitTerms(names - {n}), row);
      } else {
        OnesSum(names, all - {n}, row);
      }
    } else {
      assert names == {};
    }
  }

  lemma {:induction false} SameOn(names: set<string>, a: map<string, int>, b: map<string, int>, row: Row)
    requires names <= row.Keys && forall n | n in names :: Coefficient(a, n) == Coefficient(b, n)
    ensures SumOn(names, a, row) == SumOn(names, b, row)
  {
    if names != {} {
      var n :| n in names;
      SumOnRemove(names, a, row, n);
      SumOnRemove(names, b, row, n);
      SameOn(names - {n}, a, b, row);
    }
  }

  /** The form without zero coefficients, of a node that has one. */
  predicate Linear(s: System, c: nat)
    requires Loaded(s) && c < |s.nodes|
  {
    && FormOf(s.nodes, map[], c).Some?
    && forall n | n in FormOf(s.nodes, map[], c).value.terms :: FormOf(s.nodes, map[], c).value.terms[n] != 0
  }

  function SumForm(names: set<string>): Form {
    Form(UnitTerms(names), P - 1)
  }

  lemma SumFormMeans(s: System, c: nat, names: set<string>)
    requires Loaded(s) && c < |s.nodes| && FormOf(s.nodes, map[], c) == Some(SumForm(names))
    ensures SumsToOne(s, c, names)
  {
    hide Value, FormOf, Loaded;
    LoadedForms(s);
    LinearSystem.FormColumns(s.nodes, map[], c, ColumnNames(s));
    assert UnitTerms(names).Keys == names;
    forall row: Row | row.Keys == ColumnNames(s)
      ensures Congruent(Value(s.nodes, c, row), ColumnSum(names, row) - 1)
    {
      FormSound(s.nodes, map[], c, row);
      OnesSum(names, row.Keys, row);
      var v, x := Value(s.nodes, c, row), ColumnSum(names, row);
      LessOne(v, x);
    }
  }

  lemma LessOne(v: int, x: int)
    requires Congruent(x + (P - 1), v)
    ensures Congruent(v, x - 1)
  {
  }

  lemma LoadedForms(s: System)
    requires Loaded(s)
    ensures WellFormed(s.nodes, ColumnNames(s)) && Ordered(s.nodes) && Inside(s.nodes, s.constraints)
  {
  }

  // --- from what a constraint says to its form ------------------------------

  lemma {:induction false} UnitColumnSum(names: set<string>, all: set<string>, n: string)
    requires names <= all
    ensures ColumnSum(names, ColumnLines.Unit(all, n)) == if n in names then 1 else 0
  {
    if names != {} {
      var m :| m in names;
      ColumnSumRemove(names, ColumnLines.Unit(all, n), m);
      UnitColumnSum(names - {m}, all, n);
    }
  }

  function Zeros(all: set<string>): Row {
    map n | n in all :: 0
  }

  lemma {:induction false} ZeroSums(names: set<string>, all: set<string>, terms: map<string, int>)
    requires names <= all
    ensures ColumnSum(names, Zeros(all)) == 0 && SumOn(names, terms, Zeros(all)) == 0
  {
    if names != {} {
      var n :| n in names;
      ColumnSumRemove(names, Zeros(all), n);
      SumOnRemove(names, terms, Zeros(all), n);
      ZeroSums(names - {n}, all, terms);
    }
  }

  /** The form's value on a row, when the constraint sums the columns. */
  lemma FormSums(s: System, c: nat, names: set<string>, row: Row)
    requires Loaded(s) && c < |s.nodes| && Linear(s, c) && SumsToOne(s, c, names) && row.Keys == ColumnNames(s)
    ensures Congruent(FormValue(FormOf(s.nodes, map[], c).value, row), ColumnSum(names, row) - 1)
  {
    hide FormValue, Value, FormOf, Loaded;
    LoadedForms(s);
    FormSound(s.nodes, map[], c, row);
    CongruentChain(FormValue(FormOf(s.nodes, map[], c).value, row), Value(s.nodes, c, row), ColumnSum(names, row) - 1);
  }

  lemma ConstantIs(s: System, c: nat, names: set<string>)
    requires Loaded(s) && c < |s.nodes| && Linear(s, c) && SumsToOne(s, c, names)
    ensures FormOf(s.nodes, map[], c).value.constant == P - 1
  {
    var form, row := FormOf(s.nodes, map[], c).value, Zeros(ColumnNames(s));
    assert row.Keys == ColumnNames(s);
    FormSums(s, c, names, row);
    ZeroSums(names, ColumnNames(s), form.terms);
    ZeroSums(ColumnNames(s), ColumnNames(s), form.terms);
    LoadedForms(s);
    ColumnLines.FormReduced(s.nodes, map[], c);
    hide FormOf, Loaded, SumsToOne, SumOn;
    assert Congruent(form.constant, -1);
  }

  lemma CoefficientIs(s: System, c: nat, names: set<string>, n: string)
    requires Loaded(s) && c < |s.nodes| && Linear(s, c) && SumsToOne(s, c, names) && n in ColumnNames(s)
    ensures Coefficient(FormOf(s.nodes, map[], c).value.terms, n) == if n in names then 1 else 0
  {
    var form, all := FormOf(s.nodes, map[], c).value, ColumnNames(s);
    var row := ColumnLines.Unit(all, n);
    assert row.Keys == all;
    FormSums(s, c, names, row);
    UnitColumnSum(names, all, n);
    ColumnLines.UnitSum(form.terms, all, all, n);
    ConstantIs(s, c, names);
    LoadedForms(s);
    ColumnLines.FormReduced(s.nodes, map[], c);
    hide FormOf, Loaded, SumsToOne, SumOn;
    var k := Coefficient(form.terms, n);
    assert Congruent(k + (P - 1), (if n in names then 1 else 0) - 1);
    SmallResidue(k, if n in names then 1 else 0);
  }

  lemma SmallResidue(k: int, b: int)
    requires Canonical(k) && (b == 0 || b == 1) && Congruent(k + (P - 1), b - 1)
    ensures k == b
  {
    CongruentResidues(k + (P - 1), b - 1);
  }

  /** A linear node's form is that of the sum exactly if the node is the sum on every row. */
  lemma FormExactly(s: System, c: nat, names: set<string>)
    requires Loaded(s) && c < |s.nodes| && Linear(s, c)
    ensures SumsToOne(s, c, names) <==> FormOf(s.nodes, map[], c) == Some(SumForm(names))
  {
    if FormOf(s.nodes, map[], c) == Some(SumForm(names)) { SumFormMeans(s, c, names); }
    if SumsToOne(s, c, names) {
      var form := FormOf(s.nodes, map[], c).value;
      LoadedForms(s);
      LinearSystem.FormColumns(s.nodes, map[], c, ColumnNames(s));
      ConstantIs(s, c, names);
      forall n | n in ColumnNames(s) ensures n in form.terms <==> n in names {
        CoefficientIs(s, c, names, n);
      }
      forall n | n in form.terms ensures form.terms[n] == 1 {
        CoefficientIs(s, c, names, n);
      }
      hide FormOf, Loaded, SumsToOne;
      assert form.terms.Keys == names;
      assert form.terms == UnitTerms(names);
    }
  }

  // --- the groups the analysis finds ----------------------------------------

  /** The implied bounds leave the column exactly 0 and 1. */
  ghost predicate ImpliedBit(s: System, n: string)
    requires Loaded(s)
  {
    exists bounds: Bounds :: Implied(s, bounds) && n in bounds && bounds[n].lo == 0 && bounds[n].hi == 1
  }

  /** The constraint is no product, its form holds no zero coefficient, and it says of every row that
      these inputs, at least two and all of them bits, add up to one. */
  ghost predicate SaysOneOf(s: System, c: nat, names: set<string>)
    requires Loaded(s) && c < |s.nodes|
  {
    && NotProduct(s.nodes, c) && Linear(s, c) && SumsToOne(s, c, names) && |names| >= 2
    && forall n | n in names :: n in ByRole(s.columns, Input) && ImpliedBit(s, n)
  }

  lemma BitIs(s: System, bounds: Bounds, n: string)
    requires Loaded(s) && Implied(s, bounds)
    ensures IsBit(bounds, n) <==> ImpliedBit(s, n)
  {
    hide Implied;
    if ImpliedBit(s, n) {
      var other: Bounds :| Implied(s, other) && n in other && other[n].lo == 0 && other[n].hi == 1;
      ImpliedUnique(s, bounds, other);
    }
  }

  lemma OneHotSays(s: System, bounds: Bounds, c: nat)
    requires Loaded(s) && Implied(s, bounds) && c < |s.nodes| && OneHot(s, bounds, c)
    ensures SaysOneOf(s, c, TermsOf(s, c).Keys)
  {
    LoadedForms(s);
    OneFactor(s.nodes, c);
    var names := TermsOf(s, c).Keys;
    assert |names| == |TermsOf(s, c)|;
    assert FormOf(s.nodes, map[], c).value.terms == UnitTerms(names);
    SumFormMeans(s, c, names);
    forall n | n in names ensures ImpliedBit(s, n) { BitIs(s, bounds, n); }
  }

  lemma SaysOneHot(s: System, bounds: Bounds, c: nat, names: set<string>)
    requires Loaded(s) && Implied(s, bounds) && c < |s.nodes| && SaysOneOf(s, c, names)
    ensures OneHot(s, bounds, c) && TermsOf(s, c).Keys == names
  {
    LoadedForms(s);
    OneFactor(s.nodes, c);
    FormExactly(s, c, names);
    forall n | n in names ensures IsBit(bounds, n) { BitIs(s, bounds, n); }
    var terms := FormOf(s.nodes, map[], c).value.terms;
    assert terms.Keys == names && |terms.Keys| == |terms|;
  }

  /** The group of the first constraint that says so, in name order; none if none does. */
  ghost predicate FirstGroup(s: System, found: seq<string>)
    requires Loaded(s)
  {
    if forall k, names | 0 <= k < |s.constraints| :: !SaysOneOf(s, s.constraints[k], names) then found == []
    else exists k, names ::
      && 0 <= k < |s.constraints| && SaysOneOf(s, s.constraints[k], names) && found == SortedList(names)
      && forall j, others | 0 <= j < k :: !SaysOneOf(s, s.constraints[j], others)
  }

  /** What the analysis returns, by what the constraints say of every row. */
  lemma SelectorsAreFirstGroup(s: System, found: seq<string>)
    requires Loaded(s) && SelectorsOf(s, found)
    ensures FirstGroup(s, found)
  {
    hide OneHot, SaysOneOf, Implied, TermsOf, SortedList;
    var bounds :| Implied(s, bounds) && SelectorsIn(s, bounds, found);
    forall j, others | 0 <= j < |s.constraints| && SaysOneOf(s, s.constraints[j], others)
      ensures OneHot(s, bounds, s.constraints[j])
    {
      SaysOneHot(s, bounds, s.constraints[j], others);
    }
    if k :| 0 <= k < |s.constraints| && FirstOneHot(s, bounds, found, k) {
      OneHotSays(s, bounds, s.constraints[k]);
    }
  }

  /** A column with a bit constraint that takes both values is a bit to the analysis. */
  lemma BitIsImplied(s: System, k: nat, n: string, zero: Row, one: Row)
    requires Loaded(s) && k < |s.constraints| && BitBounds.BitConstraint(s.nodes, s.constraints[k], n)
    requires Accepts(s, zero) && Accepts(s, one) && n in zero && n in one && zero[n] == 0 && one[n] == 1
    requires exists bounds :: Implied(s, bounds)
    ensures ImpliedBit(s, n)
  {
    hide Implied, Accepts, BitBounds.BitConstraint, Loaded;
    var bounds: Bounds :| Implied(s, bounds);
    BitBounds.BitBounded(s, bounds, k, n, zero);
    ImpliedSound(s, bounds);
    assert Within(zero, bounds) && Within(one, bounds);
  }

  /** Bit constraints for all names, each of which takes both values on accepted rows. */
  ghost predicate ProvenBits(s: System, names: set<string>)
    requires Loaded(s)
  {
    forall n | n in names ::
      && (exists k :: 0 <= k < |s.constraints| && BitBounds.BitConstraint(s.nodes, s.constraints[k], n))
      && (exists row :: Accepts(s, row) && n in row && row[n] == 0)
      && (exists row :: Accepts(s, row) && n in row && row[n] == 1)
  }

  /**
    Completeness: where a constraint, no product and with a form without zero
    coefficients, is on every row the sum of n >= 2 inputs less one, and each has
    a bit constraint and takes both values, the analysis returns a group: that of
    the first constraint of the kind.
  */
  lemma GroupFound(s: System, k: nat, names: set<string>, found: seq<string>)
    requires Loaded(s) && SelectorsOf(s, found)
    requires k < |s.constraints| && NotProduct(s.nodes, s.constraints[k]) && Linear(s, s.constraints[k])
    requires SumsToOne(s, s.constraints[k], names) && |names| >= 2 && ProvenBits(s, names)
    requires forall n | n in names :: n in ByRole(s.columns, Input)
    ensures |found| >= 2 && FirstGroup(s, found)
  {
    hide SelectorsOf, FirstGroup, SaysOneOf, NotProduct, Linear, SumsToOne, ProvenBits, Loaded;
    SelectorsAreFirstGroup(s, found);
    ProvenGroup(s, k, names, found);
    GroupIsNotEmpty(s, k, names, found);
  }

  lemma ProvenGroup(s: System, k: nat, names: set<string>, found: seq<string>)
    requires Loaded(s) && SelectorsOf(s, found)
    requires k < |s.constraints| && NotProduct(s.nodes, s.constraints[k]) && Linear(s, s.constraints[k])
    requires SumsToOne(s, s.constraints[k], names) && |names| >= 2 && ProvenBits(s, names)
    requires forall n | n in names :: n in ByRole(s.columns, Input)
    ensures SaysOneOf(s, s.constraints[k], names)
  {
    hide Implied, SelectorsIn, NotProduct, Linear, SumsToOne, ProvenBits, Loaded, ImpliedBit;
    assert exists bounds :: Implied(s, bounds);
    forall n | n in names ensures ImpliedBit(s, n) {
      ProvenBit(s, names, n);
    }
  }

  lemma GroupIsNotEmpty(s: System, k: nat, names: set<string>, found: seq<string>)
    requires Loaded(s) && FirstGroup(s, found) && k < |s.constraints| && SaysOneOf(s, s.constraints[k], names)
    ensures |found| >= 2
  {
    hide SaysOneOf, SortedList;
    var j, others :|
      && 0 <= j < |s.constraints| && SaysOneOf(s, s.constraints[j], others) && found == SortedList(others)
      && forall i, more | 0 <= i < j :: !SaysOneOf(s, s.constraints[i], more);
    TwoNames(s, s.constraints[j], others);
  }

  lemma TwoNames(s: System, c: nat, names: set<string>)
    requires Loaded(s) && c < |s.nodes| && SaysOneOf(s, c, names)
    ensures |names| >= 2
  {
  }

  lemma ProvenBit(s: System, names: set<string>, n: string)
    requires Loaded(s) && ProvenBits(s, names) && n in names && exists bounds :: Implied(s, bounds)
    ensures ImpliedBit(s, n)
  {
    hide Implied, Accepts, BitBounds.BitConstraint;
    var k :| 0 <= k < |s.constraints| && BitBounds.BitConstraint(s.nodes, s.constraints[k], n);
    var zero :| Accepts(s, zero) && n in zero && zero[n] == 0;
    var one :| Accepts(s, one) && n in one && one[n] == 1;
    BitIsImplied(s, k, n, zero, one);
  }

  // --- a sum the analysis does not see --------------------------------------

  /** x * x - x * x + a + b - 1. */
  predicate HiddenSum(nodes: seq<Node>, a: string, b: string, x: string) {
    && |nodes| == 9
    && nodes[0] == Col(a) && nodes[1] == Col(b) && nodes[2] == Col(x) && nodes[3] == Mul(2, 2)
    && nodes[4] == Sub(3, 3) && nodes[5] == Add(4, 0) && nodes[6] == Add(5, 1)
    && nodes[7] == Const(1) && nodes[8] == Sub(6, 7)
  }

  /** A form is needed: this constraint, too, is the sum of two columns less one, yet it is never taken
      for one-hot, because its squares have no form. */
  lemma SquaresHide(s: System, a: string, b: string, x: string, bounds: Bounds)
    requires Loaded(s) && HiddenSum(s.nodes, a, b, x) && a != b
    ensures SumsToOne(s, 8, {a, b}) && NotProduct(s.nodes, 8) && !OneHot(s, bounds, 8)
  {
    assert FormOf(s.nodes, map[], 2) == Some(Form(map[x := 1], 0));
    assert FormOf(s.nodes, map[], 3) == None by { assert x in map[x := 1]; }
    assert FormOf(s.nodes, map[], 4) == None && FormOf(s.nodes, map[], 5) == None;
    assert FormOf(s.nodes, map[], 6) == None && FormOf(s.nodes, map[], 8) == None;
    hide FormOf;
    forall row: Row | row.Keys == ColumnNames(s)
      ensures Congruent(Value(s.nodes, 8, row), ColumnSum({a, b}, row) - 1)
    {
      HiddenValue(s.nodes, a, b, x, row);
      PairSum(a, b, row);
    }
  }

  lemma HiddenValue(nodes: seq<Node>, a: string, b: string, x: string, row: Row)
    requires WellFormed(nodes, row.Keys) && HiddenSum(nodes, a, b, x)
    ensures a in row && b in row && Value(nodes, 8, row) == row[a] + row[b] - 1
  {
    assert Value(nodes, 4, row) == 0;
    assert Value(nodes, 5, row) == row[a] && Value(nodes, 6, row) == row[a] + row[b] && Value(nodes, 7, row) == 1;
  }

  lemma PairSum(a: string, b: string, row: Row)
    requires a != b && a in row && b in row
    ensures ColumnSum({a, b}, row) == row[a] + row[b]
  {
    ColumnSumRemove({a, b}, row, a);
    assert {a, b} - {a} == {b};
    ColumnSumRemove({b}, row, b);
    assert {b} - {b} == {};
  }
}
