/**
  The complete case split of one family's two-copy question: over the outputs
  that may differ, and over the input columns that the constraints force into
  exactly-one-of.
*/
module CaseSplit {
  import opened Basics
  import opened RelationBus
  import opened LinearForms
  import opened AirSystem
  import opened ColumnBounds
  import opened Names
  import FieldInverse

  // --- one-hot selectors ----------------------------------------------------

  function TermsOf(s: System, c: nat): map<string, int>
    requires Loaded(s)
  {
    if c < |s.nodes| && FormOf(s.nodes, map[], c).Some? then FormOf(s.nodes, map[], c).value.terms else map[]
  }

  predicate IsBit(bounds: Bounds, n: string) {
    n in bounds && bounds[n] == Span(0, 1)
  }

  /** The constraint says that at least two bit inputs sum to one. */
  predicate OneHot(s: System, bounds: Bounds, c: nat)
    requires Loaded(s)
  {
    && c < |s.nodes| && |FactorsOf(s.nodes, c)| == 1
    && var form := FormOf(s.nodes, map[], c);
       && form.Some? && form.value.constant == P - 1 && |form.value.terms| >= 2
       && forall n | n in form.value.terms ::
            form.value.terms[n] == 1 && n in ByRole(s.columns, Input) && IsBit(bounds, n)
  }

  ghost predicate FirstOneHot(s: System, bounds: Bounds, names: seq<string>, k: nat)
    requires Loaded(s) && k < |s.constraints|
  {
    && OneHot(s, bounds, s.constraints[k])
    && (forall j | 0 <= j < k :: !OneHot(s, bounds, s.constraints[j]))
    && names == SortedList(TermsOf(s, s.constraints[k]).Keys)
  }

  ghost predicate SelectorsIn(s: System, bounds: Bounds, names: seq<string>)
    requires Loaded(s)
  {
    if forall k | 0 <= k < |s.constraints| :: !OneHot(s, bounds, s.constraints[k]) then names == []
    else exists k :: 0 <= k < |s.constraints| && FirstOneHot(s, bounds, names, k)
  }

  /** The selectors that the system itself implies. */
  ghost predicate SelectorsOf(s: System, names: seq<string>)
    requires Loaded(s)
  {
    exists bounds :: Implied(s, bounds) && SelectorsIn(s, bounds, names)
  }

  lemma SelectorsUnique(s: System, a: seq<string>, b: seq<string>)
    requires Loaded(s) && SelectorsOf(s, a) && SelectorsOf(s, b)
    ensures a == b
  {
    hide Implied, OneHot, TermsOf;
    var x :| Implied(s, x) && SelectorsIn(s, x, a);
    var y :| Implied(s, y) && SelectorsIn(s, y, b);
    ImpliedUnique(s, x, y);
    if k, j :| 0 <= k < |s.constraints| && FirstOneHot(s, x, a, k)
               && 0 <= j < |s.constraints| && FirstOneHot(s, x, b, j) {
      assert k == j;
    }
  }

  method IsOneHot(s: System, bounds: Bounds, c: nat, form: Option<Form>) returns (yes: bool)
    requires Loaded(s) && c < |s.nodes| && form == FormOf(s.nodes, map[], c)
    ensures yes <==> OneHot(s, bounds, c)
  {
    hide FormOf, FactorsOf;
    var factors := Factors(s.nodes, c);
    if |factors| != 1 {
      return false;
    }
    if form.None? || form.value.constant != P - 1 || |form.value.terms| < 2 {
      return false;
    }
    var terms := form.value.terms;
    yes := forall n | n in terms :: terms[n] == 1 && n in ByRole(s.columns, Input) && IsBit(bounds, n);
  }

  method OneHotSelectors(s: System) returns (names: seq<string>)
    requires Loaded(s)
    ensures SelectorsOf(s, names)
  {
    var bounds := ImpliedColumnBounds(s);
    names := SelectorsWithin(s, bounds);
  }

  method SelectorsWithin(s: System, bounds: Bounds) returns (names: seq<string>)
    requires Loaded(s)
    ensures SelectorsIn(s, bounds, names)
  {
    hide FormOf, OneHot, SortedList;
    var forms := ExpandArena(s.nodes, map[]);
    for k := 0 to |s.constraints|
      invariant forall j | 0 <= j < k :: !OneHot(s, bounds, s.constraints[j])
    {
      var c := s.constraints[k];
      var yes := IsOneHot(s, bounds, c, forms[c]);
      if yes {
        OneHotHasForm(s, bounds, c);
        names := Sorted(forms[c].value.terms.Keys);
        assert FirstOneHot(s, bounds, names, k);
        return;
      }
    }
    names := [];
  }

  lemma OneHotHasForm(s: System, bounds: Bounds, c: nat)
    requires Loaded(s) && OneHot(s, bounds, c)
    ensures c < |s.nodes| && FormOf(s.nodes, map[], c).Some?
  {
  }

  // --- exactly one selector -------------------------------------------------

  /** The row picks one selector and no other. */
  predicate Picks(names: seq<string>, row: Row, n: string) {
    n in names && n in row && row[n] == 1 && forall m | m in names && m in row && m != n :: row[m] == 0
  }

  function Ones(names: set<string>, terms: map<string, int>, row: Row): set<string> {
    set n | n in names && n in terms && n in row && row[n] == 1
  }

  /** Unit coefficients on bits of the row. */
  predicate BitSum(terms: map<string, int>, row: Row) {
    forall n | n in terms :: terms[n] == 1 && n in row && 0 <= row[n] <= 1
  }

  /** A sum of bits with unit coefficients counts the ones. */
  lemma {:induction false} SumCountsOnes(names: set<string>, terms: map<string, int>, row: Row)
    requires names <= row.Keys && BitSum(terms, row)
    ensures SumOn(names, terms, row) == |Ones(names, terms, row)|
  {
    if names != {} {
      var name :| name in names;
      SumOnRemove(names, terms, row, name);
      SumCountsOnes(names - {name}, terms, row);
      var rest := Ones(names - {name}, terms, row);
      if name in terms && row[name] == 1 {
        assert Ones(names, terms, row) == rest + {name};
      } else {
        assert Ones(names, terms, row) == rest;
      }
    }
  }

  /** The bits add up to one modulo P only where exactly one of them is set. */
  ghost predicate PicksOne(terms: map<string, int>) {
    forall row: Row | BitSum(terms, row) && SumOn(row.Keys, terms, row) % P == 1 ::
      exists n :: n in terms && row[n] == 1 && forall m | m in terms && m != n :: row[m] == 0
  }

  /** Unit coefficients force exactly one of n bits if and only if n <= P. */
  lemma OneHotExactly(terms: map<string, int>)
    requires forall n | n in terms :: terms[n] == 1
    ensures PicksOne(terms) <==> |terms| <= P
  {
    hide SumOn;
    if |terms| <= P {
      forall row: Row | BitSum(terms, row) && SumOn(row.Keys, terms, row) % P == 1
        ensures exists n :: n in terms && row[n] == 1 && forall m | m in terms && m != n :: row[m] == 0
      {
        var n := OnePicked(terms, row);
      }
    } else {
      TooManyBits(terms);
    }
  }

  lemma OnePicked(terms: map<string, int>, row: Row) returns (n: string)
    requires BitSum(terms, row) && |terms| <= P && SumOn(row.Keys, terms, row) % P == 1
    ensures n in terms && row[n] == 1 && forall m | m in terms && m != n :: row[m] == 0
  {
    SumCountsOnes(row.Keys, terms, row);
    hide SumOn;
    var ones := Ones(row.Keys, terms, row);
    SubsetCount(ones, terms.Keys);
    assert |ones| == 1;
    n :| n in ones;
    forall m | m in terms && m != n ensures row[m] == 0 {
      if row[m] == 1 { Single(ones, n, m); }
    }
  }

  lemma {:induction false} SubsetOfSize(all: set<string>, n: nat) returns (some: set<string>)
    requires n <= |all|
    ensures some <= all && |some| == n
  {
    if n == 0 {
      some := {};
    } else {
      var x :| x in all;
      some := SubsetOfSize(all - {x}, n - 1);
      some := some + {x};
    }
  }

  function Chosen(names: set<string>, chosen: set<string>): Row {
    map n | n in names :: if n in chosen then 1 else 0
  }

  lemma ChosenSum(terms: map<string, int>, chosen: set<string>)
    requires (forall n | n in terms :: terms[n] == 1) && chosen <= terms.Keys
    ensures var row := Chosen(terms.Keys, chosen); BitSum(terms, row) && SumOn(row.Keys, terms, row) == |chosen|
  {
    var row := Chosen(terms.Keys, chosen);
    assert row.Keys == terms.Keys;
    SumCountsOnes(row.Keys, terms, row);
    assert Ones(row.Keys, terms, row) == chosen;
  }

  /** P + 1 set bits also add up to one. */
  lemma TooManyBits(terms: map<string, int>)
    requires (forall n | n in terms :: terms[n] == 1) && |terms| > P
    ensures !PicksOne(terms)
  {
    assert |terms.Keys| == |terms|;
    var chosen := SubsetOfSize(terms.Keys, P + 1);
    ChosenSum(terms, chosen);
    var row := Chosen(terms.Keys, chosen);
    assert SumOn(row.Keys, terms, row) % P == 1;
    hide SumOn, BitSum, Chosen;
    if PicksOne(terms) {
      assert exists n :: n in terms && row[n] == 1 && forall m | m in terms && m != n :: row[m] == 0;
      var n :| n in terms && row[n] == 1 && forall m | m in terms && m != n :: row[m] == 0;
      OnlyChosen(terms.Keys, chosen, n);
      assert false;
    }
  }

  lemma OnlyChosen(names: set<string>, chosen: set<string>, n: string)
    requires chosen <= names
    requires forall m | m in names && m != n :: m in Chosen(names, chosen) && Chosen(names, chosen)[m] == 0
    ensures |chosen| <= 1
  {
    forall m | m in chosen ensures m == n {}
    assert chosen <= {n};
    SubsetCount(chosen, {n});
  }

  lemma Single(names: set<string>, a: string, b: string)
    requires |names| == 1 && a in names && b in names
    ensures a == b
  {
    assert |names - {a}| == 0;
  }

  lemma FormVanishes(s: System, bounds: Bounds, c: nat, row: Row)
    requires Loaded(s) && WellFormed(s.nodes, row.Keys) && OneHot(s, bounds, c) && Value(s.nodes, c, row) % P == 0
    ensures SumOn(row.Keys, TermsOf(s, c), row) % P == 1
  {
    hide FactorsOf, SumOn, ByRole;
    FormSound(s.nodes, map[], c, row);
    hide FormOf, Value;
    SumIsOne(SumOn(row.Keys, TermsOf(s, c), row), Value(s.nodes, c, row));
  }

  lemma SumIsOne(sum: int, v: int)
    requires v % P == 0 && FieldInverse.Congruent(sum + (P - 1), v)
    ensures sum % P == 1
  {
  }

  lemma TermsAreBits(s: System, bounds: Bounds, c: nat, row: Row)
    requires Loaded(s) && OneHot(s, bounds, c) && Implied(s, bounds) && Accepts(s, row)
    ensures BitSum(TermsOf(s, c), row)
    ensures forall n | n in TermsOf(s, c) :: n in ByRole(s.columns, Input)
  {
    ImpliedSound(s, bounds);
    hide Implied, Accepts, FormOf, FactorsOf;
    assert row.Keys == ColumnNames(s) by { AcceptedKeys(s, row); }
  }

  lemma AcceptedKeys(s: System, row: Row)
    requires Loaded(s) && Accepts(s, row)
    ensures row.Keys == ColumnNames(s)
  {
  }

  /** A constraint that the analysis takes for one-hot picks one selector in every accepted row,
      given at most P of them. */
  lemma OneHotPicks(s: System, bounds: Bounds, k: nat, row: Row) returns (n: string)
    requires Loaded(s) && Implied(s, bounds) && Accepts(s, row)
    requires k < |s.constraints| && OneHot(s, bounds, s.constraints[k]) && |TermsOf(s, s.constraints[k])| <= P
    ensures Picks(SortedList(TermsOf(s, s.constraints[k]).Keys), row, n)
    ensures n in ByRole(s.columns, Input)
  {
    var c := s.constraints[k];
    TermsAreBits(s, bounds, c, row);
    assert WellFormed(s.nodes, row.Keys) && Value(s.nodes, c, row) % P == 0 by { ConstraintVanishes(s, k, row); }
    hide TermsOf, OneHot, Implied, Accepts, Loaded, SortedList, Value, SumOn;
    FormVanishes(s, bounds, c, row);
    n := OnePicked(TermsOf(s, c), row);
  }

  lemma ConstraintVanishes(s: System, k: nat, row: Row)
    requires Loaded(s) && Accepts(s, row) && k < |s.constraints|
    ensures WellFormed(s.nodes, row.Keys) && Value(s.nodes, s.constraints[k], row) % P == 0
  {
    assert Residue(s, s.constraints[k], row) == 0;
  }

  // --- shards ---------------------------------------------------------------

  /** An empty output or selector is an axis not split on. */
  datatype Shard = Shard(output: string, selector: string)

  function Cases(selectors: seq<string>): seq<string> {
    if selectors == [] then [""] else selectors
  }

  function Axes(names: seq<string>, split: bool): seq<string> {
    if split then names else [""]
  }

  predicate InPlan(shard: Shard, outputs: seq<string>, selectors: seq<string>) {
    shard.output in outputs && shard.selector in selectors
  }

  function ShardsOf(outputs: seq<string>, selector: string): seq<Shard> {
    seq(|outputs|, j requires 0 <= j < |outputs| => Shard(outputs[j], selector))
  }

  /** Case by case, every output. */
  function ShardsFor(outputs: seq<string>, cases: seq<string>): seq<Shard> {
    if cases == [] then []
    else ShardsFor(outputs, cases[..|cases| - 1]) + ShardsOf(outputs, cases[|cases| - 1])
  }

  lemma {:induction false} ShardMembers(outputs: seq<string>, cases: seq<string>)
    ensures forall shard :: shard in ShardsFor(outputs, cases) <==> InPlan(shard, outputs, cases)
  {
    if cases != [] {
      var n := |cases| - 1;
      ShardMembers(outputs, cases[..n]);
      assert cases == cases[..n] + [cases[n]];
      forall shard
        ensures shard in ShardsOf(outputs, cases[n]) <==> shard.output in outputs && shard.selector == cases[n]
      {
        if shard.output in outputs && shard.selector == cases[n] {
          var j :| 0 <= j < |outputs| && outputs[j] == shard.output;
          assert ShardsOf(outputs, cases[n])[j] == shard;
        }
      }
    }
  }

  /** Selector by selector, output by output. */
  lemma {:induction false} ShardAt(outputs: seq<string>, cases: seq<string>, i: nat, j: nat)
    requires i < |cases| && j < |outputs|
    ensures |ShardsFor(outputs, cases)| == |cases| * |outputs|
    ensures i * |outputs| + j < |ShardsFor(outputs, cases)|
    ensures ShardsFor(outputs, cases)[i * |outputs| + j] == Shard(outputs[j], cases[i])
    decreases |cases|
  {
    var n := |cases| - 1;
    ShardCount(outputs, cases);
    ShardCount(outputs, cases[..n]);
    RowMajor(i, j, |cases|, |outputs|);
    if i < n {
      RowMajor(i, j, n, |outputs|);
      ShardAt(outputs, cases[..n], i, j);
    }
  }

  lemma {:induction false} ShardCount(outputs: seq<string>, cases: seq<string>)
    ensures |ShardsFor(outputs, cases)| == |cases| * |outputs|
  {
    if cases != [] {
      ShardCount(outputs, cases[..|cases| - 1]);
      assert |cases| * |outputs| == (|cases| - 1) * |outputs| + |outputs|;
    }
  }

  lemma RowMajor(i: nat, j: nat, n: nat, width: nat)
    requires i < n && j < width
    ensures i * width + j < n * width
  {
    assert (n - i - 1) * width >= 0;
    assert n * width == (n - i - 1) * width + i * width + width;
  }

  /** No shard is asked twice. */
  lemma {:induction false} ShardsDistinct(outputs: seq<string>, cases: seq<string>)
    requires Distinct(outputs) && Distinct(cases)
    ensures forall i, j | 0 <= i < j < |ShardsFor(outputs, cases)| ::
              ShardsFor(outputs, cases)[i] != ShardsFor(outputs, cases)[j]
  {
    if cases != [] {
      var n := |cases| - 1;
      ShardsDistinct(outputs, cases[..n]);
      ShardMembers(outputs, cases[..n]);
      var before, last := ShardsFor(outputs, cases[..n]), ShardsOf(outputs, cases[n]);
      forall i, j | 0 <= i < |before| && 0 <= j < |last| ensures before[i] != last[j] {
        assert before[i] in before;
      }
    }
  }

  method PlanShards(s: System, selectors: seq<string>, byOutput: bool) returns (shards: seq<Shard>)
    ensures shards == ShardsFor(Axes(ByRole(s.columns, Output), byOutput), Cases(selectors))
  {
    var outputs := Axes(ByRole(s.columns, Output), byOutput);
    var cases := Cases(selectors);
    shards := [];
    for i := 0 to |cases|
      invariant shards == ShardsFor(outputs, cases[..i])
    {
      assert cases[..i + 1][..i] == cases[..i];
      for j := 0 to |outputs|
        invariant shards == ShardsFor(outputs, cases[..i]) + ShardsOf(outputs, cases[i])[..j]
      {
        shards := shards + [Shard(outputs[j], cases[i])];
      }
    }
    assert cases[..|cases|] == cases;
  }

  ghost predicate SameInputs(s: System, a: Row, b: Row) {
    forall n | n in ByRole(s.columns, Input) && n in a && n in b :: a[n] == b[n]
  }

  predicate Differ(a: Row, b: Row, n: string) {
    n in a && n in b && a[n] != b[n]
  }

  /** Two accepted rows with the same inputs and different outputs. */
  ghost predicate Counterexample(s: System, a: Row, b: Row)
    requires Loaded(s)
  {
    && Accepts(s, a) && Accepts(s, b) && SameInputs(s, a, b)
    && exists o :: o in ByRole(s.columns, Output) && Differ(a, b, o)
  }

  /** The counterexample lies in the shard: it differs on its output, under its selector. */
  ghost predicate InShard(s: System, selectors: seq<string>, shard: Shard, a: Row, b: Row)
    requires Loaded(s)
  {
    && Counterexample(s, a, b)
    && (shard.output != "" ==> shard.output in ByRole(s.columns, Output) && Differ(a, b, shard.output))
    && (shard.selector != "" ==> Picks(selectors, a, shard.selector) && Picks(selectors, b, shard.selector))
  }

  ghost predicate Unique(s: System)
    requires Loaded(s)
  {
    forall a, b :: !Counterexample(s, a, b)
  }

  ghost predicate ShardUnique(s: System, selectors: seq<string>, shard: Shard)
    requires Loaded(s)
  {
    forall a, b :: !InShard(s, selectors, shard, a, b)
  }

  /** The selectors the plan splits on: the system's own, or none. */
  ghost predicate Splits(s: System, selectors: seq<string>)
    requires Loaded(s)
  {
    selectors == [] || (SelectorsOf(s, selectors) && |selectors| <= P)
  }

  lemma ShardOfCounterexample(s: System, selectors: seq<string>, byOutput: bool, a: Row, b: Row)
    returns (shard: Shard)
    requires Loaded(s) && Splits(s, selectors) && Counterexample(s, a, b)
    ensures InPlan(shard, Axes(ByRole(s.columns, Output), byOutput), Cases(selectors))
    ensures InShard(s, selectors, shard, a, b)
  {
    hide SelectorsOf, Loaded, Accepts;
    var o :| o in ByRole(s.columns, Output) && Differ(a, b, o);
    var output := if byOutput then o else "";
    if selectors == [] {
      shard := Shard(output, "");
    } else {
      var n := SelectorOfCounterexample(s, selectors, a, b);
      shard := Shard(output, n);
    }
  }

  lemma SelectorOfCounterexample(s: System, selectors: seq<string>, a: Row, b: Row)
    returns (n: string)
    requires Loaded(s) && selectors != [] && Splits(s, selectors) && Counterexample(s, a, b)
    ensures Picks(selectors, a, n) && Picks(selectors, b, n)
  {
    AcceptedKeys(s, a);
    AcceptedKeys(s, b);
    hide Loaded, Accepts, Splits, Picks;
    n := PickedSelector(s, selectors, a);
    var m := PickedSelector(s, selectors, b);
    hide ColumnNames;
    SamePick(s, selectors, a, b, n, m);
  }

  lemma PickedSelector(s: System, selectors: seq<string>, row: Row) returns (n: string)
    requires Loaded(s) && selectors != [] && Splits(s, selectors) && Accepts(s, row)
    ensures Picks(selectors, row, n) && n in ByRole(s.columns, Input)
  {
    hide Implied, OneHot, Loaded, Accepts, TermsOf, SortedList, Picks;
    var bounds :| Implied(s, bounds) && SelectorsIn(s, bounds, selectors);
    var k :| 0 <= k < |s.constraints| && FirstOneHot(s, bounds, selectors, k);
    n := OneHotPicks(s, bounds, k, row);
  }

  lemma SamePick(s: System, selectors: seq<string>, a: Row, b: Row, n: string, m: string)
    requires a.Keys == b.Keys && SameInputs(s, a, b) && m in ByRole(s.columns, Input)
    requires Picks(selectors, a, n) && Picks(selectors, b, m)
    ensures n == m
  {
    assert m in a && a[m] == b[m];
  }

  /** The case split is complete: a family is unique exactly when each of its shards is. */
  lemma UniqueIffEveryShard(s: System, selectors: seq<string>, byOutput: bool)
    requires Loaded(s) && Splits(s, selectors)
    ensures Unique(s) <==>
              forall shard | InPlan(shard, Axes(ByRole(s.columns, Output), byOutput),
                                    Cases(selectors)) ::
                ShardUnique(s, selectors, shard)
  {
    hide Counterexample, Splits, Axes, InPlan, Loaded;
    if !Unique(s) {
      var a, b :| Counterexample(s, a, b);
      var shard := ShardOfCounterexample(s, selectors, byOutput, a, b);
      assert !ShardUnique(s, selectors, shard);
    }
  }
}
