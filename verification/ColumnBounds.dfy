/**
  Intervals that the obligations themselves imply for the columns: the roots of
  lines that are single columns, pivots that reduce to a constant, and live
  requests to a table, iterated until nothing narrows.
*/
module ColumnBounds {
  import opened Basics
  import opened RelationBus
  import opened FieldInverse
  import opened LinearForms
  import opened AirSystem
  import opened ColumnLines
  import opened LinearSystem

  datatype Span = Span(lo: int, hi: int)

  type Bounds = map<string, Span>

  function Full(s: System): Bounds {
    map n | n in ColumnNames(s) :: Span(0, P - 1)
  }

  /** The columns narrowed to a single value. */
  function Pins(bounds: Bounds): Pinned {
    map n | n in bounds && bounds[n].lo == bounds[n].hi :: bounds[n].lo
  }

  predicate Within(row: Row, bounds: Bounds) {
    forall n | n in bounds && n in row :: bounds[n].lo <= row[n] <= bounds[n].hi
  }

  /** Both ends are field elements, though the interval may be empty. */
  predicate InField(bounds: Bounds) {
    forall n | n in bounds :: Canonical(bounds[n].lo) && Canonical(bounds[n].hi)
  }

  // --- the sources of a narrowing -------------------------------------------

  /** A column lies in an interval. */
  datatype Claim = Claim(name: string, lo: int, hi: int)

  ghost predicate Ends(values: set<int>, lo: int, hi: int) {
    lo in values && hi in values && forall v | v in values :: lo <= v <= hi
  }

  /** A node that is a column takes finitely many values. */
  ghost predicate FromLine(s: System, pinned: Pinned, i: nat, claim: Claim)
    requires Loaded(s)
  {
    && i < |s.nodes| && s.nodes[i] == Col(claim.name)
    && Ends(NodeValues(s, pinned, i), claim.lo, claim.hi)
  }

  ghost predicate FromPivot(pivots: Pivots, claim: Claim) {
    && claim.name in pivots && pivots[claim.name].terms == map[]
    && claim.lo == claim.hi == pivots[claim.name].constant
  }

  /** Component j of lookup k is a column, and the request is live. */
  ghost predicate FromLookup(s: System, pinned: Pinned, k: nat, j: nat, claim: Claim)
    requires Loaded(s)
  {
    && k < |s.lookups|
    && var lookup := s.lookups[k];
       && BoxWidths(lookup.table).Some? && j < |lookup.components| && j < |BoxWidths(lookup.table).value|
       && Live(s, pinned, lookup.numerator) && s.nodes[lookup.components[j]] == Col(claim.name)
       && claim.lo == 0 && claim.hi == Pow2(BoxWidths(lookup.table).value[j]) - 1
  }

  ghost predicate Source(s: System, pinned: Pinned, claim: Claim)
    requires Loaded(s)
  {
    || (exists i: nat :: FromLine(s, pinned, i, claim))
    || FromPivot(PivotsOf(s, pinned, s.constraints), claim)
    || (exists k: nat, j: nat :: FromLookup(s, pinned, k, j, claim))
  }

  /** The bounds met with the claims, and with nothing else. */
  ghost predicate Meets(bounds: Bounds, claims: set<Claim>, refined: Bounds) {
    && refined.Keys == bounds.Keys
    && (forall n | n in bounds :: bounds[n].lo <= refined[n].lo && refined[n].hi <= bounds[n].hi)
    && (forall c | c in claims && c.name in bounds :: c.lo <= refined[c.name].lo && refined[c.name].hi <= c.hi)
    && (forall n | n in bounds :: refined[n].lo == bounds[n].lo || LowEnd(claims, n, refined[n].lo))
    && (forall n | n in bounds :: refined[n].hi == bounds[n].hi || HighEnd(claims, n, refined[n].hi))
  }

  ghost predicate LowEnd(claims: set<Claim>, n: string, lo: int) {
    exists c :: c in claims && c.name == n && c.lo == lo
  }

  ghost predicate HighEnd(claims: set<Claim>, n: string, hi: int) {
    exists c :: c in claims && c.name == n && c.hi == hi
  }

  ghost predicate Sources(s: System, pinned: Pinned, claims: set<Claim>)
    requires Loaded(s)
  {
    forall c :: c in claims <==> Source(s, pinned, c)
  }

  /** One pass: every source, and only they, read with the columns already pinned. */
  ghost predicate Narrows(s: System, bounds: Bounds, refined: Bounds)
    requires Loaded(s)
  {
    exists claims :: Sources(s, Pins(bounds), claims) && Meets(bounds, claims, refined)
  }

  /** There is only one such pass. */
  lemma NarrowsUnique(s: System, bounds: Bounds, a: Bounds, b: Bounds)
    requires Loaded(s) && Narrows(s, bounds, a) && Narrows(s, bounds, b)
    ensures a == b
  {
    hide Source;
    var c :| Sources(s, Pins(bounds), c) && Meets(bounds, c, a);
    var d :| Sources(s, Pins(bounds), d) && Meets(bounds, d, b);
    assert c == d;
    forall n | n in bounds ensures a[n].lo == b[n].lo && a[n].hi == b[n].hi {
      SameEnds(bounds, c, a, b, n);
      SameEnds(bounds, c, b, a, n);
    }
  }

  lemma SameEnds(bounds: Bounds, claims: set<Claim>, a: Bounds, b: Bounds, n: string)
    requires Meets(bounds, claims, a) && Meets(bounds, claims, b) && n in bounds
    ensures a[n].lo <= b[n].lo && b[n].hi <= a[n].hi
  {
  }

  // --- sources are implied --------------------------------------------------

  lemma WithinObeys(row: Row, bounds: Bounds)
    requires Within(row, bounds)
    ensures Obeys(row, Pins(bounds))
  {
  }

  lemma PinsCanonical(bounds: Bounds)
    requires InField(bounds)
    ensures CanonicalPins(Pins(bounds))
  {
  }

  lemma LineSource(s: System, pinned: Pinned, i: nat, claim: Claim, row: Row)
    requires Loaded(s) && Accepts(s, row) && Obeys(row, pinned) && CanonicalPins(pinned)
    requires FromLine(s, pinned, i, claim)
    ensures claim.name in row && claim.lo <= row[claim.name] <= claim.hi
  {
    AcceptedVanishes(s, row);
    ColumnResidue(s, i, row);
    ColumnLed(s, pinned, i);
    assert Residue(s, i, row) == Value(s.nodes, i, row) % P;
    hide NodeValues, Loaded, Value, Accepts, Residue, FormOf;
    NodeValuesSound(s, pinned, i, row);
  }

  /** A column's own form always splits. */
  lemma ColumnLed(s: System, pinned: Pinned, i: nat)
    requires Ordered(s.nodes) && i < |s.nodes| && s.nodes[i].Col?
    ensures FormOf(s.nodes, pinned, i).Some? && Led(FormOf(s.nodes, pinned, i).value.terms)
  {
  }

  lemma PivotSource(s: System, pinned: Pinned, claim: Claim, row: Row)
    requires Loaded(s) && Accepts(s, row) && Obeys(row, pinned)
    requires FromPivot(PivotsOf(s, pinned, s.constraints), claim)
    ensures claim.name in row && claim.lo <= row[claim.name] <= claim.hi
  {
    AcceptedVanishes(s, row);
    assert forall n | n in row :: Canonical(row[n]);
    hide PivotsOf, Loaded, Accepts, AllVanish, Solves, AmongColumns;
    PivotsSound(s, pinned, s.constraints, row);
    PivotColumns(s, pinned, s.constraints, row.Keys);
    ConstantPivot(PivotsOf(s, pinned, s.constraints), claim.name, row);
  }

  lemma ConstantPivot(pivots: Pivots, n: string, row: Row)
    requires Solves(row, pivots) && AmongColumns(pivots, row.Keys) && n in pivots && pivots[n].terms == map[]
    requires forall m | m in row :: Canonical(row[m])
    ensures n in row && row[n] == pivots[n].constant
  {
    hide FormValue;
    ConstantValue(pivots[n], row);
    CongruentResidues(row[n], pivots[n].constant);
  }

  lemma LookupSource(s: System, pinned: Pinned, k: nat, j: nat, claim: Claim, row: Row)
    requires Loaded(s) && Accepts(s, row) && Obeys(row, pinned) && FromLookup(s, pinned, k, j, claim)
    ensures claim.name in row && claim.lo <= row[claim.name] <= claim.hi
  {
    AcceptedVanishes(s, row);
    var lookup := s.lookups[k];
    var node := lookup.components[j];
    assert AirSystem.Meets(s, lookup, row);
    assert Residue(s, node, row) == row[claim.name] by { ColumnResidue(s, node, row); }
    hide Accepts, Loaded, Live, Value;
    LiveSound(s, pinned, lookup.numerator, row);
    var values := seq(|lookup.components|, k requires 0 <= k < |lookup.components| =>
                        Residue(s, lookup.components[k], row));
    assert InBox(BoxWidths(lookup.table).value, values);
    assert values[j] == row[claim.name];
  }

  lemma ColumnResidue(s: System, i: nat, row: Row)
    requires Loaded(s) && Accepts(s, row) && i < |s.nodes| && s.nodes[i].Col?
    ensures s.nodes[i].name in row && Residue(s, i, row) == row[s.nodes[i].name]
  {
    assert Canonical(row[s.nodes[i].name]);
  }

  /** Every source is an implication: an accepted row that obeys the pins satisfies it. */
  lemma SourceSound(s: System, pinned: Pinned, claim: Claim, row: Row)
    requires Loaded(s) && Accepts(s, row) && Obeys(row, pinned) && CanonicalPins(pinned) && Source(s, pinned, claim)
    ensures claim.name in row && claim.lo <= row[claim.name] <= claim.hi
  {
    hide Accepts, FromLine, FromPivot, FromLookup;
    if i: nat :| FromLine(s, pinned, i, claim) {
      LineSource(s, pinned, i, claim, row);
    } else if FromPivot(PivotsOf(s, pinned, s.constraints), claim) {
      PivotSource(s, pinned, claim, row);
    } else {
      var k: nat, j: nat :| FromLookup(s, pinned, k, j, claim);
      LookupSource(s, pinned, k, j, claim, row);
    }
  }

  /** A pass never removes an accepted row. */
  lemma NarrowsSound(s: System, bounds: Bounds, refined: Bounds, row: Row)
    requires Loaded(s) && Accepts(s, row) && Within(row, bounds) && InField(bounds) && Narrows(s, bounds, refined)
    ensures Within(row, refined)
  {
    WithinObeys(row, bounds);
    PinsCanonical(bounds);
    var claims :| Sources(s, Pins(bounds), claims) && Meets(bounds, claims, refined);
    hide Accepts, Loaded, Source, Pins;
    forall c: Claim | c in claims ensures c.name in row && c.lo <= row[c.name] <= c.hi {
      SourceSound(s, Pins(bounds), c, row);
    }
  }

  // --- one pass -------------------------------------------------------------

  function Narrow(bounds: Bounds, c: Claim): Bounds {
    if c.name !in bounds then bounds
    else
      var span := bounds[c.name];
      bounds[c.name := Span(if span.lo < c.lo then c.lo else span.lo, if c.hi < span.hi then c.hi else span.hi)]
  }

  lemma NarrowMeets(bounds: Bounds, claims: set<Claim>, refined: Bounds, c: Claim)
    requires Meets(bounds, claims, refined)
    ensures Meets(bounds, claims + {c}, Narrow(refined, c))
  {
    var more, next := claims + {c}, Narrow(refined, c);
    forall n | n in bounds
      ensures next[n].lo == bounds[n].lo || LowEnd(more, n, next[n].lo)
      ensures next[n].hi == bounds[n].hi || HighEnd(more, n, next[n].hi)
    {
      if next[n].lo == refined[n].lo {
        if d :| d in claims && d.name == n && d.lo == refined[n].lo { assert d in more; }
      } else {
        assert c in more;
      }
      if next[n].hi == refined[n].hi {
        if d :| d in claims && d.name == n && d.hi == refined[n].hi { assert d in more; }
      } else {
        assert c in more;
      }
    }
  }

  method EndsOf(values: set<int>) returns (lo: int, hi: int)
    requires values != {}
    ensures Ends(values, lo, hi)
  {
    HasMember(values);
    lo :| lo in values;
    hi := lo;
    var rest := values;
    while rest != {}
      invariant rest <= values && lo in values && hi in values
      invariant forall v | v in values :: v in rest || lo <= v <= hi
      decreases rest
    {
      HasMember(rest);
      var v :| v in rest;
      if v < lo { lo := v; }
      if hi < v { hi := v; }
      rest := rest - {v};
    }
  }

  ghost predicate LineClaims(s: System, pinned: Pinned, k: nat, claims: set<Claim>)
    requires Loaded(s)
  {
    forall c :: c in claims <==> exists i: nat :: i < k && FromLine(s, pinned, i, c)
  }

  lemma OneMoreLine(s: System, pinned: Pinned, k: nat, claims: set<Claim>, added: set<Claim>)
    requires Loaded(s) && LineClaims(s, pinned, k, claims)
    requires forall c :: c in added <==> FromLine(s, pinned, k, c)
    ensures LineClaims(s, pinned, k + 1, claims + added)
  {
    hide FromLine, Loaded;
    forall c: Claim ensures c in claims + added <==> exists i: nat :: i < k + 1 && FromLine(s, pinned, i, c) {
      if c in claims {
        var i: nat :| i < k && FromLine(s, pinned, i, c);
        assert i < k + 1;
      }
      if i: nat :| i < k + 1 && FromLine(s, pinned, i, c) {
        if i < k { assert c in claims; }
      }
    }
  }

  method NarrowLines(s: System, pinned: Pinned, bounds: Bounds) returns (refined: Bounds, ghost claims: set<Claim>)
    requires Loaded(s)
    ensures LineClaims(s, pinned, |s.nodes|, claims) && Meets(bounds, claims, refined)
  {
    var values := ConstrainedNodeValues(s, pinned);
    hide NodeValues, Meets, LineClaims;
    refined, claims := bounds, {};
    assert Meets(bounds, {}, bounds) by { NothingMet(bounds); }
    assert LineClaims(s, pinned, 0, {}) by { NoLineClaims(s, pinned); }
    for i := 0 to |s.nodes|
      invariant LineClaims(s, pinned, i, claims) && Meets(bounds, claims, refined)
    {
      ghost var added: set<Claim> := {};
      if s.nodes[i].Col? && values[i] != {} {
        var lo, hi := EndsOf(values[i]);
        var claim := Claim(s.nodes[i].name, lo, hi);
        NarrowMeets(bounds, claims, refined, claim);
        refined := Narrow(refined, claim);
        added := {claim};
      } else {
        assert claims + added == claims;
      }
      OneMoreLine(s, pinned, i, claims, added);
      claims := claims + added;
    }
  }

  lemma NothingMet(bounds: Bounds)
    ensures Meets(bounds, {}, bounds)
  {
  }

  lemma NoLineClaims(s: System, pinned: Pinned)
    requires Loaded(s)
    ensures LineClaims(s, pinned, 0, {})
  {
  }

  ghost predicate PivotClaims(pivots: Pivots, names: set<string>, claims: set<Claim>) {
    forall c :: c in claims <==> c.name in names && FromPivot(pivots, c)
  }

  method NarrowPivots(pivots: Pivots, ghost bounds: Bounds, ghost before: set<Claim>, start: Bounds)
    returns (refined: Bounds, ghost claims: set<Claim>)
    requires Meets(bounds, before, start)
    ensures PivotClaims(pivots, pivots.Keys, claims) && Meets(bounds, before + claims, refined)
  {
    hide Meets;
    refined, claims := start, {};
    assert before + {} == before;
    var rest := pivots.Keys;
    while rest != {}
      invariant rest <= pivots.Keys
      invariant PivotClaims(pivots, pivots.Keys - rest, claims) && Meets(bounds, before + claims, refined)
      decreases rest
    {
      var n :| n in rest;
      var form := pivots[n];
      if form.terms == map[] {
        var claim := Claim(n, form.constant, form.constant);
        NarrowMeets(bounds, before + claims, refined, claim);
        refined := Narrow(refined, claim);
        assert before + claims + {claim} == before + (claims + {claim});
        claims := claims + {claim};
      }
      rest := rest - {n};
    }
    assert pivots.Keys - {} == pivots.Keys;
  }

  ghost predicate ComponentClaims(s: System, pinned: Pinned, k: nat, width: nat, claims: set<Claim>)
    requires Loaded(s)
  {
    forall c :: c in claims <==> exists j: nat :: j < width && FromLookup(s, pinned, k, j, c)
  }

  ghost predicate LookupClaims(s: System, pinned: Pinned, count: nat, claims: set<Claim>)
    requires Loaded(s)
  {
    forall c :: c in claims <==> exists k: nat, j: nat :: k < count && FromLookup(s, pinned, k, j, c)
  }

  lemma OneMoreComponent(s: System, pinned: Pinned, k: nat, width: nat, claims: set<Claim>, added: set<Claim>)
    requires Loaded(s) && ComponentClaims(s, pinned, k, width, claims)
    requires forall c :: c in added <==> FromLookup(s, pinned, k, width, c)
    ensures ComponentClaims(s, pinned, k, width + 1, claims + added)
  {
    hide FromLookup, Loaded;
    forall c: Claim ensures c in claims + added <==> exists j: nat :: j < width + 1 && FromLookup(s, pinned, k, j, c) {
      if c in claims {
        var j: nat :| j < width && FromLookup(s, pinned, k, j, c);
        assert j < width + 1;
      }
      if j: nat :| j < width + 1 && FromLookup(s, pinned, k, j, c) {
        if j < width { assert c in claims; }
      }
    }
  }

  ghost predicate ClaimsAt(s: System, pinned: Pinned, k: nat, claims: set<Claim>)
    requires Loaded(s)
  {
    forall c :: c in claims <==> exists j: nat :: FromLookup(s, pinned, k, j, c)
  }

  lemma OneMoreLookup(s: System, pinned: Pinned, k: nat, claims: set<Claim>, added: set<Claim>)
    requires Loaded(s) && LookupClaims(s, pinned, k, claims) && ClaimsAt(s, pinned, k, added)
    ensures LookupClaims(s, pinned, k + 1, claims + added)
  {
    hide FromLookup, Loaded;
    forall c: Claim
      ensures c in claims + added <==> exists i: nat, j: nat :: i < k + 1 && FromLookup(s, pinned, i, j, c)
    {
      if c in claims {
        var i: nat, j: nat :| i < k && FromLookup(s, pinned, i, j, c);
        assert i < k + 1;
      }
      if i: nat, j: nat :| i < k + 1 && FromLookup(s, pinned, i, j, c) {
        if i < k { assert c in claims; } else { assert i == k; }
      }
    }
  }

  method NarrowLookup(s: System, pinned: Pinned, k: nat, ghost bounds: Bounds, ghost before: set<Claim>, start: Bounds)
    returns (refined: Bounds, ghost claims: set<Claim>)
    requires Loaded(s) && k < |s.lookups| && BoxWidths(s.lookups[k].table).Some?
    requires Live(s, pinned, s.lookups[k].numerator) && Meets(bounds, before, start)
    ensures ClaimsAt(s, pinned, k, claims) && Meets(bounds, before + claims, refined)
  {
    hide Meets, Live, ComponentClaims, ClaimsAt;
    var lookup, widths := s.lookups[k], BoxWidths(s.lookups[k].table).value;
    var count := if |widths| < |lookup.components| then |widths| else |lookup.components|;
    refined, claims := start, {};
    assert before + {} == before;
    assert ComponentClaims(s, pinned, k, 0, {}) by { NoComponents(s, pinned, k); }
    for j := 0 to count
      invariant ComponentClaims(s, pinned, k, j, claims) && Meets(bounds, before + claims, refined)
    {
      var node := s.nodes[lookup.components[j]];
      ghost var added: set<Claim> := {};
      if node.Col? {
        var claim := Claim(node.name, 0, Pow2(widths[j]) - 1);
        NarrowMeets(bounds, before + claims, refined, claim);
        refined := Narrow(refined, claim);
        added := {claim};
        assert before + claims + {claim} == before + (claims + added);
      } else {
        assert claims + added == claims;
      }
      OneMoreComponent(s, pinned, k, j, claims, added);
      claims := claims + added;
    }
    AllComponents(s, pinned, k, count, claims);
  }

  lemma NoComponents(s: System, pinned: Pinned, k: nat)
    requires Loaded(s)
    ensures ComponentClaims(s, pinned, k, 0, {})
  {
  }

  lemma AllComponents(s: System, pinned: Pinned, k: nat, count: nat, claims: set<Claim>)
    requires Loaded(s) && k < |s.lookups| && BoxWidths(s.lookups[k].table).Some?
    requires ComponentClaims(s, pinned, k, count, claims)
    requires count == |BoxWidths(s.lookups[k].table).value| || count == |s.lookups[k].components|
    ensures ClaimsAt(s, pinned, k, claims)
  {
    hide Live, Loaded;
    forall c: Claim ensures c in claims <==> exists j: nat :: FromLookup(s, pinned, k, j, c) {
      if j: nat :| FromLookup(s, pinned, k, j, c) { assert j < count; }
    }
  }

  method NarrowLookups(s: System, pinned: Pinned, pivots: Pivots, ghost bounds: Bounds, ghost before: set<Claim>,
                       start: Bounds)
    returns (refined: Bounds, ghost claims: set<Claim>)
    requires Loaded(s) && pivots == PivotsOf(s, pinned, s.constraints) && Meets(bounds, before, start)
    ensures LookupClaims(s, pinned, |s.lookups|, claims) && Meets(bounds, before + claims, refined)
  {
    hide Meets, Live, FormOf, LookupClaims, PivotsOf, Loaded, FromLookup, ClaimsAt, Ordered, Inside;
    LoadedParts(s);
    var forms := ExpandArena(s.nodes, pinned);
    refined, claims := start, {};
    NoLookups(s, pinned);
    assert before + {} == before;
    for k := 0 to |s.lookups|
      invariant LookupClaims(s, pinned, k, claims) && Meets(bounds, before + claims, refined)
    {
      ghost var added: set<Claim>;
      refined, added := ReadLookup(s, pinned, k, forms, pivots, bounds, before + claims, refined);
      AddLookup(s, pinned, k, bounds, before, claims, added, refined);
      claims := claims + added;
    }
  }

  lemma AddLookup(s: System, pinned: Pinned, k: nat, bounds: Bounds, before: set<Claim>, claims: set<Claim>,
                  added: set<Claim>, refined: Bounds)
    requires Loaded(s) && LookupClaims(s, pinned, k, claims) && ClaimsAt(s, pinned, k, added)
    requires Meets(bounds, before + claims + added, refined)
    ensures LookupClaims(s, pinned, k + 1, claims + added) && Meets(bounds, before + (claims + added), refined)
  {
    hide Meets, LookupClaims, Loaded, ClaimsAt;
    OneMoreLookup(s, pinned, k, claims, added);
    assert before + claims + added == before + (claims + added);
  }

  /** One request, if it is one to a table and live. */
  method ReadLookup(s: System, pinned: Pinned, k: nat, forms: seq<Option<Form>>, pivots: Pivots,
                    ghost bounds: Bounds, ghost before: set<Claim>, start: Bounds)
    returns (refined: Bounds, ghost claims: set<Claim>)
    requires Loaded(s) && k < |s.lookups| && pivots == PivotsOf(s, pinned, s.constraints)
    requires |forms| == |s.nodes| && forall i | 0 <= i < |forms| :: forms[i] == FormOf(s.nodes, pinned, i)
    requires Meets(bounds, before, start)
    ensures ClaimsAt(s, pinned, k, claims) && Meets(bounds, before + claims, refined)
  {
    hide Meets, Live, FormOf, PivotsOf, FromLookup, ClaimsAt;
    var lookup := s.lookups[k];
    var live := false;
    if BoxWidths(lookup.table).Some? {
      live := UnconditionallyLive(s, pinned, forms[lookup.numerator], pivots, lookup.numerator);
    }
    if live {
      refined, claims := NarrowLookup(s, pinned, k, bounds, before, start);
    } else {
      DeadLookup(s, pinned, k);
      refined, claims := start, {};
      assert before + {} == before;
    }
  }

  lemma NoLookups(s: System, pinned: Pinned)
    requires Loaded(s)
    ensures LookupClaims(s, pinned, 0, {})
  {
  }

  lemma DeadLookup(s: System, pinned: Pinned, k: nat)
    requires Loaded(s) && k < |s.lookups|
    requires BoxWidths(s.lookups[k].table).None? || !Live(s, pinned, s.lookups[k].numerator)
    ensures ClaimsAt(s, pinned, k, {})
  {
    hide Live;
  }

  lemma AllSources(s: System, pinned: Pinned, lines: set<Claim>, pivots: set<Claim>, lookups: set<Claim>)
    requires Loaded(s) && LineClaims(s, pinned, |s.nodes|, lines) && LookupClaims(s, pinned, |s.lookups|, lookups)
    requires PivotClaims(PivotsOf(s, pinned, s.constraints), PivotsOf(s, pinned, s.constraints).Keys, pivots)
    ensures Sources(s, pinned, lines + pivots + lookups)
  {
    hide NodeValues, Live, PivotsOf;
    forall c: Claim ensures c in lines + pivots + lookups <==> Source(s, pinned, c) {
      assert c in lines <==> exists i: nat :: FromLine(s, pinned, i, c);
      assert c in lookups <==> exists k: nat, j: nat :: FromLookup(s, pinned, k, j, c);
    }
  }

  /** One pass over lines, pivots and live lookups. */
  method NarrowOnce(s: System, bounds: Bounds) returns (refined: Bounds)
    requires Loaded(s)
    ensures Narrows(s, bounds, refined)
  {
    hide Meets, LineClaims, LookupClaims, PivotClaims, Sources, Loaded;
    var pinned := Pins(bounds);
    ghost var lines, solved, boxed;
    refined, lines := NarrowLines(s, pinned, bounds);
    assert Ordered(s.nodes) && Inside(s.nodes, s.constraints) by { LoadedParts(s); }
    var pivots := SolveForms(s, pinned);
    refined, solved := NarrowPivots(pivots, bounds, lines, refined);
    refined, boxed := NarrowLookups(s, pinned, pivots, bounds, lines + solved, refined);
    AllSources(s, pinned, lines, solved, boxed);
  }

  lemma LoadedParts(s: System)
    requires Loaded(s)
    ensures Ordered(s.nodes) && Inside(s.nodes, s.constraints)
  {
  }

  // --- the fixpoint ---------------------------------------------------------

  /** Passes one after another, from no knowledge. */
  ghost predicate Passes(s: System, run: seq<Bounds>)
    requires Loaded(s)
  {
    && run != [] && run[0] == Full(s)
    && forall i | 0 <= i < |run| - 1 :: Narrows(s, run[i], run[i + 1])
  }

  /** The bounds that passes reach and no further pass narrows. */
  ghost predicate Implied(s: System, bounds: Bounds)
    requires Loaded(s)
  {
    Narrows(s, bounds, bounds) && exists run :: Passes(s, run) && run[|run| - 1] == bounds
  }

  predicate Small(claims: set<Claim>) {
    forall c | c in claims :: Canonical(c.lo) && Canonical(c.hi)
  }

  lemma SourcesSmall(s: System, pinned: Pinned, claims: set<Claim>)
    requires Loaded(s) && Sources(s, pinned, claims)
    ensures Small(claims)
  {
    hide Loaded, FromLine, FromPivot, FromLookup;
    forall c: Claim | c in claims ensures Canonical(c.lo) && Canonical(c.hi) {
      assert Source(s, pinned, c);
      if i: nat :| FromLine(s, pinned, i, c) {
        LineSmall(s, pinned, i, c);
      } else if k: nat, j: nat :| FromLookup(s, pinned, k, j, c) {
        LookupSmall(s, pinned, k, j, c);
      } else {
        LoadedParts(s);
        PivotSmall(s, pinned, c);
      }
    }
  }

  lemma LineSmall(s: System, pinned: Pinned, i: nat, c: Claim)
    requires Loaded(s) && FromLine(s, pinned, i, c)
    ensures Canonical(c.lo) && Canonical(c.hi)
  {
    hide LinesOf, FormOf, DirectionOf, Lead;
  }

  lemma PivotSmall(s: System, pinned: Pinned, c: Claim)
    requires Loaded(s) && FromPivot(PivotsOf(s, pinned, s.constraints), c)
    ensures Canonical(c.lo) && Canonical(c.hi)
  {
    hide PivotsOf;
    PivotColumns(s, pinned, s.constraints, ColumnNames(s));
  }

  lemma LookupSmall(s: System, pinned: Pinned, k: nat, j: nat, c: Claim)
    requires Loaded(s) && FromLookup(s, pinned, k, j, c)
    ensures Canonical(c.lo) && Canonical(c.hi)
  {
    hide Live, Loaded, Pow2;
    var width := BoxWidths(s.lookups[k].table).value[j];
    assert width in BoxWidths(s.lookups[k].table).value;
    var top: nat := 30;
    Pow2Monotone(width, top);
    Pow2At31();
  }

  lemma NarrowsInField(s: System, bounds: Bounds, refined: Bounds)
    requires Loaded(s) && InField(bounds) && Narrows(s, bounds, refined)
    ensures InField(refined) && refined.Keys == bounds.Keys
  {
    var claims :| Sources(s, Pins(bounds), claims) && Meets(bounds, claims, refined);
    hide Sources;
    SourcesSmall(s, Pins(bounds), claims);
  }

  /** How far the ends can still move. */
  function Slack(names: seq<string>, bounds: Bounds): (slack: nat)
    requires (forall n | n in names :: n in bounds) && InField(bounds)
  {
    if names == [] then 0
    else
      var last := bounds[names[|names| - 1]];
      Slack(names[..|names| - 1], bounds) + (P - 1 - last.lo) + last.hi
  }

  predicate Tighter(a: Bounds, b: Bounds) {
    a.Keys == b.Keys && forall n | n in a :: a[n].lo <= b[n].lo && b[n].hi <= a[n].hi
  }

  lemma {:induction false} SlackShrinks(names: seq<string>, a: Bounds, b: Bounds)
    requires InField(a) && InField(b) && Tighter(a, b) && forall n | n in names :: n in a
    ensures Slack(names, b) <= Slack(names, a)
    ensures (exists n :: n in names && a[n] != b[n]) ==> Slack(names, b) < Slack(names, a)
  {
    if names != [] {
      SlackShrinks(names[..|names| - 1], a, b);
      if n :| n in names && a[n] != b[n] {
        assert names == names[..|names| - 1] + [names[|names| - 1]];
      }
    }
  }

  function NamesOf(columns: seq<Column>): (names: seq<string>) {
    seq(|columns|, i requires 0 <= i < |columns| => columns[i].name)
  }

  /** Narrows until a pass changes nothing. */
  method ImpliedColumnBounds(s: System) returns (bounds: Bounds)
    requires Loaded(s)
    ensures Implied(s, bounds)
  {
    bounds := Full(s);
    ghost var run := [bounds];
    var narrowed := NarrowOnce(s, bounds);
    hide Narrows, Loaded, Slack;
    NarrowsInField(s, bounds, narrowed);
    while narrowed != bounds
      invariant Passes(s, run) && run[|run| - 1] == bounds && Narrows(s, bounds, narrowed)
      invariant InField(bounds) && bounds.Keys == ColumnNames(s)
      decreases Room(s, bounds)
    {
      RoomShrinks(s, bounds, narrowed);
      OnePass(s, run, narrowed);
      bounds, run := narrowed, run + [narrowed];
      narrowed := NarrowOnce(s, bounds);
    }
  }

  ghost function Room(s: System, bounds: Bounds): nat
    requires InField(bounds) && bounds.Keys == ColumnNames(s)
  {
    EveryName(s.columns);
    Slack(NamesOf(s.columns), bounds)
  }

  lemma RoomShrinks(s: System, a: Bounds, b: Bounds)
    requires Loaded(s) && Narrows(s, a, b) && InField(a) && a.Keys == ColumnNames(s) && a != b
    ensures InField(b) && b.Keys == ColumnNames(s) && Room(s, b) < Room(s, a)
  {
    NarrowsInField(s, a, b);
    NarrowsTighter(s, a, b);
    hide Narrows, Loaded;
    EveryName(s.columns);
    SlackShrinks(NamesOf(s.columns), a, b);
    Changed(a, b);
  }

  lemma OnePass(s: System, run: seq<Bounds>, next: Bounds)
    requires Loaded(s) && Passes(s, run) && Narrows(s, run[|run| - 1], next)
    ensures Passes(s, run + [next])
  {
    hide Narrows, Loaded;
  }

  lemma EveryName(columns: seq<Column>)
    ensures forall n :: n in NamesOf(columns) <==> n in set c | c in columns :: c.name
  {
    forall c | c in columns ensures c.name in NamesOf(columns) {
      var i :| 0 <= i < |columns| && columns[i] == c;
      assert NamesOf(columns)[i] == c.name;
    }
  }

  lemma NarrowsTighter(s: System, a: Bounds, b: Bounds)
    requires Loaded(s) && Narrows(s, a, b)
    ensures Tighter(a, b)
  {
  }

  lemma Changed(a: Bounds, b: Bounds)
    requires a != b && a.Keys == b.Keys
    ensures exists n :: n in a && a[n] != b[n]
  {
    assert (forall n | n in a :: a[n] == b[n]) ==> a == b;
  }

  lemma {:induction false} PassesSound(s: System, run: seq<Bounds>, i: nat)
    requires Loaded(s) && Passes(s, run) && i < |run|
    ensures InField(run[i]) && run[i].Keys == ColumnNames(s)
    ensures forall row | Accepts(s, row) :: Within(row, run[i])
  {
    hide Narrows;
    if i == 0 {
      FullWithin(s);
    } else {
      PassesSound(s, run, i - 1);
      assert Narrows(s, run[i - 1], run[i - 1 + 1]);
      NarrowsInField(s, run[i - 1], run[i]);
      forall row | Accepts(s, row) ensures Within(row, run[i]) {
        NarrowsSound(s, run[i - 1], run[i], row);
      }
    }
  }

  lemma FullWithin(s: System)
    requires Loaded(s)
    ensures forall row | Accepts(s, row) :: Within(row, Full(s))
  {
    forall row | Accepts(s, row) ensures Within(row, Full(s)) {
      assert forall n | n in row :: Canonical(row[n]);
    }
  }

  /** The implied bounds remove no accepted row. */
  lemma ImpliedSound(s: System, bounds: Bounds)
    requires Loaded(s) && Implied(s, bounds)
    ensures bounds.Keys == ColumnNames(s) && InField(bounds)
    ensures forall row | Accepts(s, row) :: Within(row, bounds)
  {
    hide Narrows;
    var run :| Passes(s, run) && run[|run| - 1] == bounds;
    PassesSound(s, run, |run| - 1);
  }

  lemma {:induction false} SamePasses(s: System, a: seq<Bounds>, b: seq<Bounds>, i: nat)
    requires Loaded(s) && Passes(s, a) && Passes(s, b) && i < |a| && i < |b|
    ensures a[i] == b[i]
  {
    hide Narrows;
    if i > 0 {
      SamePasses(s, a, b, i - 1);
      assert Narrows(s, a[i - 1], a[i - 1 + 1]) && Narrows(s, b[i - 1], b[i - 1 + 1]);
      NarrowsUnique(s, a[i - 1], a[i], b[i]);
    }
  }

  lemma {:induction false} StaysFixed(s: System, run: seq<Bounds>, i: nat, j: nat)
    requires Loaded(s) && Passes(s, run) && i <= j < |run| && Narrows(s, run[i], run[i])
    ensures run[j] == run[i]
    decreases j
  {
    hide Narrows;
    if i < j {
      StaysFixed(s, run, i, j - 1);
      assert Narrows(s, run[j - 1], run[j - 1 + 1]);
      NarrowsUnique(s, run[i], run[i], run[j]);
    }
  }

  /** There is only one such fixpoint. */
  lemma ImpliedUnique(s: System, a: Bounds, b: Bounds)
    requires Loaded(s) && Implied(s, a) && Implied(s, b)
    ensures a == b
  {
    hide Narrows;
    var x :| Passes(s, x) && x[|x| - 1] == a;
    var y :| Passes(s, y) && y[|y| - 1] == b;
    if |x| <= |y| {
      SamePasses(s, x, y, |x| - 1);
      StaysFixed(s, y, |x| - 1, |y| - 1);
    } else {
      SamePasses(s, x, y, |y| - 1);
      StaysFixed(s, x, |y| - 1, |x| - 1);
    }
  }

  // --- nothing implied is missed --------------------------------------------

  /** A column that consistent linear equations force to one value is confined to it. */
  lemma ForcedBounded(s: System, bounds: Bounds, x: string, v: int)
    requires Loaded(s) && Implied(s, bounds) && x in ColumnNames(s)
    requires Consistent(s, Pins(bounds), s.constraints) && Forced(s, Pins(bounds), ColumnNames(s), x, v)
    ensures x in bounds && v <= bounds[x].lo && bounds[x].hi <= v
  {
    ImpliedSound(s, bounds);
    hide Consistent, Forced, PivotsOf, Implied, Passes;
    ForcedExactly(s, Pins(bounds), ColumnNames(s), x, v);
    var claim := Claim(x, v, v);
    assert FromPivot(PivotsOf(s, Pins(bounds), s.constraints), claim);
    FixedMeets(s, bounds, claim);
  }

  lemma FixedMeets(s: System, bounds: Bounds, claim: Claim)
    requires Loaded(s) && Implied(s, bounds) && Source(s, Pins(bounds), claim) && claim.name in bounds
    ensures claim.lo <= bounds[claim.name].lo && bounds[claim.name].hi <= claim.hi
  {
    hide Source;
  }

  /** A column among the components of a live request is confined to its table's width. */
  lemma LookupBounded(s: System, bounds: Bounds, k: nat, j: nat, x: string)
    requires Loaded(s) && Implied(s, bounds) && k < |s.lookups| && BoxWidths(s.lookups[k].table).Some?
    requires j < |s.lookups[k].components| && j < |BoxWidths(s.lookups[k].table).value|
    requires Live(s, Pins(bounds), s.lookups[k].numerator) && s.nodes[s.lookups[k].components[j]] == Col(x)
    ensures x in bounds && 0 <= bounds[x].lo && bounds[x].hi < Pow2(BoxWidths(s.lookups[k].table).value[j])
  {
    ImpliedSound(s, bounds);
    hide Live, Implied, Passes;
    var claim := Claim(x, 0, Pow2(BoxWidths(s.lookups[k].table).value[j]) - 1);
    assert FromLookup(s, Pins(bounds), k, j, claim);
    FixedMeets(s, bounds, claim);
  }
}
