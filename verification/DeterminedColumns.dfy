/**
  Columns whose value the constraints fix once the seed's values are fixed.  The
  two copies of a uniqueness query share them, so a column counted wrongly
  strengthens the hypothesis.

  A form keeps a column that a product with zero has cancelled, with coefficient
  zero.  Both the direction of a line and the count of free columns read such a
  form wrongly; without them the analysis is right.
*/
module DeterminedColumns {
  import opened Basics
  import opened RelationBus
  import opened FieldInverse
  import opened LinearForms
  import opened AirSystem
  import opened ColumnLines
  import opened LinearSystem

  /** The constraints allow the node one value. */
  ghost predicate Fixed(s: System, pinned: Pinned, i: nat)
    requires Ordered(s.nodes) && Inside(s.nodes, s.constraints) && i < |s.nodes|
  {
    |NodeValues(s, pinned, i)| == 1
  }

  function Free(form: Option<Form>, known: set<string>): set<string> {
    if form.None? then {} else form.value.terms.Keys - known
  }

  /** No fixed node has exactly one column outside the set. */
  ghost predicate Closed(s: System, pinned: Pinned, known: set<string>)
    requires Ordered(s.nodes) && Inside(s.nodes, s.constraints)
  {
    forall i | 0 <= i < |s.nodes| && Fixed(s, pinned, i) :: |Free(FormOf(s.nodes, pinned, i), known)| != 1
  }

  /** The least closed set around the seed and the pins. */
  ghost predicate Determines(s: System, seed: set<string>, pinned: Pinned, known: set<string>)
    requires Ordered(s.nodes) && Inside(s.nodes, s.constraints)
  {
    && seed + pinned.Keys <= known && Closed(s, pinned, known)
    && forall other | seed + pinned.Keys <= other && Closed(s, pinned, other) :: known <= other
  }

  ghost predicate BelowClosed(s: System, seed: set<string>, pinned: Pinned, known: set<string>)
    requires Ordered(s.nodes) && Inside(s.nodes, s.constraints)
  {
    && seed + pinned.Keys <= known
    && forall other | seed + pinned.Keys <= other && Closed(s, pinned, other) :: known <= other
  }

  lemma AddForced(s: System, seed: set<string>, pinned: Pinned, known: set<string>, i: nat, n: string)
    requires Ordered(s.nodes) && Inside(s.nodes, s.constraints) && BelowClosed(s, seed, pinned, known)
    requires i < |s.nodes| && Fixed(s, pinned, i) && Free(FormOf(s.nodes, pinned, i), known) == {n}
    ensures BelowClosed(s, seed, pinned, known + {n})
  {
    hide Fixed, FormOf;
    forall other | seed + pinned.Keys <= other && Closed(s, pinned, other) ensures n in other {
      var free := Free(FormOf(s.nodes, pinned, i), other);
      assert free <= {n};
      assert n !in other ==> free == {n};
    }
  }

  /** The columns some form mentions. */
  function Mentioned(forms: seq<Option<Form>>): set<string> {
    if forms == [] then {}
    else Mentioned(forms[..|forms| - 1]) + Free(forms[|forms| - 1], {})
  }

  lemma {:induction false} MentionedHas(forms: seq<Option<Form>>, i: nat)
    requires i < |forms|
    ensures Free(forms[i], {}) <= Mentioned(forms)
  {
    if i < |forms| - 1 { MentionedHas(forms[..|forms| - 1], i); }
  }

  method FixedNodes(s: System, pinned: Pinned) returns (fixed: seq<bool>)
    requires Ordered(s.nodes) && Inside(s.nodes, s.constraints)
    ensures |fixed| == |s.nodes| && forall i | 0 <= i < |fixed| :: fixed[i] <==> Fixed(s, pinned, i)
  {
    var values := ConstrainedNodeValues(s, pinned);
    hide NodeValues;
    fixed := seq(|s.nodes|, i requires 0 <= i < |s.nodes| => |values[i]| == 1);
  }

  /** One sweep over the fixed nodes. */
  method Sweep(s: System, ghost seed: set<string>, ghost pinned: Pinned, forms: seq<Option<Form>>, fixed: seq<bool>,
               start: set<string>)
    returns (known: set<string>)
    requires Ordered(s.nodes) && Inside(s.nodes, s.constraints) && |forms| == |fixed| == |s.nodes|
    requires forall i | 0 <= i < |forms| ::
               forms[i] == FormOf(s.nodes, pinned, i) && (fixed[i] <==> Fixed(s, pinned, i))
    requires BelowClosed(s, seed, pinned, start)
    ensures BelowClosed(s, seed, pinned, known) && start <= known <= start + Mentioned(forms)
    ensures known == start ==> Closed(s, pinned, known)
  {
    hide FormOf, Fixed, BelowClosed;
    known := start;
    for i := 0 to |s.nodes|
      invariant BelowClosed(s, seed, pinned, known) && start <= known <= start + Mentioned(forms)
      invariant known == start ==> forall k | 0 <= k < i && fixed[k] :: |Free(forms[k], known)| != 1
    {
      var free := Free(forms[i], known);
      if fixed[i] && |free| == 1 {
        var n :| n in free;
        assert free == {n} by { assert |free - {n}| == 0; }
        MentionedHas(forms, i);
        AddForced(s, seed, pinned, known, i, n);
        known := known + {n};
      }
    }
  }

  /** Sweeps until nothing is added. */
  method Determined(s: System, seed: set<string>, pinned: Pinned) returns (known: set<string>)
    requires Ordered(s.nodes) && Inside(s.nodes, s.constraints)
    ensures Determines(s, seed, pinned, known)
  {
    var forms := ExpandArena(s.nodes, pinned);
    var fixed := FixedNodes(s, pinned);
    hide FormOf, Fixed, Closed;
    known := seed + pinned.Keys;
    ghost var all := known + Mentioned(forms);
    var changed := true;
    while changed
      invariant BelowClosed(s, seed, pinned, known) && known <= all
      invariant !changed ==> Closed(s, pinned, known)
      decreases all - known, changed
    {
      var more := Sweep(s, seed, pinned, forms, fixed, known);
      changed := more != known;
      known := more;
    }
  }

  // --- when the step is right -----------------------------------------------

  /** The rows agree on the form's columns other than n. */
  predicate AgreeBut(form: Form, n: string, a: Row, b: Row) {
    forall m | m in form.terms && m != n :: m in a && m in b && a[m] == b[m]
  }

  /** The form's value and its other columns fix the column. */
  ghost predicate Forces(form: Form, n: string)
    requires n in form.terms
  {
    forall a: Row, b: Row | form.terms.Keys <= a.Keys == b.Keys && AgreeBut(form, n, a, b)
                            && Congruent(FormValue(form, a), FormValue(form, b)) ::
      Congruent(a[n], b[n])
  }

  lemma FormDifference(form: Form, n: string, a: Row, b: Row)
    requires n in form.terms && form.terms.Keys <= a.Keys == b.Keys && AgreeBut(form, n, a, b)
    ensures FormValue(form, a) - FormValue(form, b) == form.terms[n] * (a[n] - b[n])
  {
    TakeOut(form, n, a);
    TakeOut(form, n, b);
    SameSums(a.Keys, form.terms - {n}, a, b);
    hide SumOn;
    assert form.terms[n] * a[n] - form.terms[n] * b[n] == form.terms[n] * (a[n] - b[n]);
  }

  /** A fixed node fixes its one free column exactly if that column's coefficient is not zero. */
  lemma ForcesExactly(form: Form, n: string)
    requires n in form.terms && Reduced(form.terms)
    ensures Forces(form, n) <==> form.terms[n] != 0
  {
    hide FormValue;
    if form.terms[n] != 0 {
      forall a: Row, b: Row | form.terms.Keys <= a.Keys == b.Keys && AgreeBut(form, n, a, b)
                              && Congruent(FormValue(form, a), FormValue(form, b))
        ensures Congruent(a[n], b[n])
      {
        FormDifference(form, n, a, b);
        DifferenceCancels(form.terms[n], a[n], b[n], FormValue(form, a), FormValue(form, b));
      }
    } else {
      var a, b := Unit(form.terms.Keys, n), Unit(form.terms.Keys, n)[n := 0];
      FormDifference(form, n, a, b);
      assert AgreeBut(form, n, a, b) && a.Keys == b.Keys == form.terms.Keys;
      assert Congruent(FormValue(form, a), FormValue(form, b)) && !Congruent(a[n], b[n]);
    }
  }

  lemma DifferenceCancels(c: int, x: int, y: int, v: int, w: int)
    requires c % P != 0 && v - w == c * (x - y) && Congruent(v, w)
    ensures Congruent(x, y)
  {
    assert c * x - c * y == c * (x - y);
    Cancel(c, x, y);
  }

  /** What is read off a line holds of the form on every row on the line exactly if the form has a
      lead, or is zero throughout. */
  lemma ValuesExactly(form: Form)
    requires form.terms != map[] && Reduced(form.terms) && Canonical(form.constant)
    ensures (forall lines: Lines, row: Row | OnLines(lines, row) && ValuesOn(lines, Some(form)) != {} ::
               FormValue(form, row) % P in ValuesOn(lines, Some(form)))
       <==> Led(form.terms)
  {
    if Led(form.terms) {
      forall lines: Lines, row: Row | OnLines(lines, row) && ValuesOn(lines, Some(form)) != {}
        ensures FormValue(form, row) % P in ValuesOn(lines, Some(form))
      {
        hide ValuesOn, FormValue, OnLines;
        ValuesSound(lines, form, row);
      }
    } else {
      var n :| n in form.terms && form.terms[n] != 0;
      UnledMisses(form, n);
    }
  }

  lemma UnledMisses(form: Form, n: string)
    requires n in form.terms && form.terms[n] != 0 && Reduced(form.terms) && Canonical(form.constant)
    requires Lead(form.terms) == 0
    ensures exists lines: Lines, row: Row :: OnLines(lines, row) && ValuesOn(lines, Some(form)) != {}
                                             && FormValue(form, row) % P !in ValuesOn(lines, Some(form))
  {
    var direction, row := DirectionOf(form.terms), Unit(form.terms.Keys, n);
    var lines: Lines := map[direction := {0}];
    assert row.Keys == form.terms.Keys;
    NoLead(form.terms, row.Keys, row);
    UnitSum(form.terms, row.Keys, row.Keys, n);
    hide DirectionOf, SumOn, Lead;
    assert OnLines(lines, row);
    assert PointAt(0, 0, form.constant) in ValuesOn(lines, Some(form));
    assert FormValue(form, row) == form.terms[n] + form.constant;
  }

  // --- when the analysis is right -------------------------------------------

  /** No fixed node's form holds a zero coefficient. */
  ghost predicate Plain(s: System, pinned: Pinned)
    requires Ordered(s.nodes) && Inside(s.nodes, s.constraints)
  {
    forall i | 0 <= i < |s.nodes| && Fixed(s, pinned, i) && FormOf(s.nodes, pinned, i).Some? ::
      NoZero(FormOf(s.nodes, pinned, i).value.terms)
  }

  predicate NoZero(terms: map<string, int>) {
    forall n | n in terms :: terms[n] != 0
  }

  ghost function Agreed(a: Row, b: Row): set<string> {
    set n | n in a && n in b && a[n] == b[n]
  }

  ghost predicate Copies(s: System, pinned: Pinned, a: Row, b: Row)
    requires Loaded(s)
  {
    Accepts(s, a) && Accepts(s, b) && Obeys(a, pinned) && Obeys(b, pinned)
  }

  lemma SameFixedValue(s: System, pinned: Pinned, i: nat, a: Row, b: Row)
    requires Loaded(s) && Copies(s, pinned, a, b) && CanonicalPins(pinned) && i < |s.nodes|
    requires Fixed(s, pinned, i) && NoZero(FormOf(s.nodes, pinned, i).value.terms)
    ensures FormOf(s.nodes, pinned, i).Some?
    ensures Congruent(FormValue(FormOf(s.nodes, pinned, i).value, a), FormValue(FormOf(s.nodes, pinned, i).value, b))
  {
    AcceptedVanishes(s, a);
    AcceptedVanishes(s, b);
    assert Led(FormOf(s.nodes, pinned, i).value.terms);
    hide Loaded, Accepts, FormOf, FormValue, Led, NoZero, Obeys, AllVanish, Value;
    var values := NodeValues(s, pinned, i);
    FormThere(s, pinned, i);
    NodeValuesSound(s, pinned, i, a);
    NodeValuesSound(s, pinned, i, b);
    OneValue(values, Value(s.nodes, i, a) % P, Value(s.nodes, i, b) % P);
    FormSound(s.nodes, pinned, i, a);
    FormSound(s.nodes, pinned, i, b);
    hide NodeValues;
    SameResidues(s, pinned, i, a, b);
  }

  lemma SameResidues(s: System, pinned: Pinned, i: nat, a: Row, b: Row)
    requires WellFormed(s.nodes, a.Keys) && WellFormed(s.nodes, b.Keys) && i < |s.nodes|
    requires FormOf(s.nodes, pinned, i).Some? && Value(s.nodes, i, a) % P == Value(s.nodes, i, b) % P
    requires Congruent(FormValue(FormOf(s.nodes, pinned, i).value, a), Value(s.nodes, i, a))
    requires Congruent(FormValue(FormOf(s.nodes, pinned, i).value, b), Value(s.nodes, i, b))
    ensures Congruent(FormValue(FormOf(s.nodes, pinned, i).value, a), FormValue(FormOf(s.nodes, pinned, i).value, b))
  {
    hide FormOf, FormValue, Value, Congruent;
    var x, y := FormValue(FormOf(s.nodes, pinned, i).value, a), FormValue(FormOf(s.nodes, pinned, i).value, b);
    CongruentResidues(x, Value(s.nodes, i, a));
    CongruentResidues(y, Value(s.nodes, i, b));
    CongruentResidues(x, y);
  }

  lemma FormThere(s: System, pinned: Pinned, i: nat)
    requires Ordered(s.nodes) && Inside(s.nodes, s.constraints) && i < |s.nodes| && Fixed(s, pinned, i)
    ensures FormOf(s.nodes, pinned, i).Some? && NodeValues(s, pinned, i) != {}
  {
    hide LinesOf, FormOf;
  }

  lemma OneValue(values: set<int>, v: int, w: int)
    requires |values| == 1 && v in values && w in values
    ensures v == w
  {
    assert |values - {v}| == 0;
  }

  /** The columns on which two accepted rows agree are closed. */
  lemma AgreedClosed(s: System, pinned: Pinned, a: Row, b: Row)
    requires Loaded(s) && Copies(s, pinned, a, b) && CanonicalPins(pinned) && Plain(s, pinned)
    ensures Closed(s, pinned, Agreed(a, b))
  {
    hide Fixed, FormOf;
    forall i | 0 <= i < |s.nodes| && Fixed(s, pinned, i)
      ensures |Free(FormOf(s.nodes, pinned, i), Agreed(a, b))| != 1
    {
      NotOneFree(s, pinned, i, a, b);
    }
  }

  lemma NotOneFree(s: System, pinned: Pinned, i: nat, a: Row, b: Row)
    requires Loaded(s) && Copies(s, pinned, a, b) && CanonicalPins(pinned) && i < |s.nodes| && Fixed(s, pinned, i)
    requires FormOf(s.nodes, pinned, i).Some? ==> NoZero(FormOf(s.nodes, pinned, i).value.terms)
    ensures |Free(FormOf(s.nodes, pinned, i), Agreed(a, b))| != 1
  {
    FormThere(s, pinned, i);
    SameFixedValue(s, pinned, i, a, b);
    FormColumns(s.nodes, pinned, i, a.Keys);
    FormReduced(s.nodes, pinned, i);
    assert a.Keys == b.Keys && forall n | n in a :: Canonical(a[n]) && Canonical(b[n]);
    hide Fixed, FormOf, Loaded, Accepts, FormValue, Free;
    AgreeOnFree(FormOf(s.nodes, pinned, i).value, a, b);
  }

  /** Rows that give a form the same value cannot differ on just one of its columns. */
  lemma AgreeOnFree(form: Form, a: Row, b: Row)
    requires form.terms.Keys <= a.Keys == b.Keys && Reduced(form.terms) && NoZero(form.terms)
    requires forall n | n in a :: Canonical(a[n]) && Canonical(b[n])
    requires Congruent(FormValue(form, a), FormValue(form, b))
    ensures |Free(Some(form), Agreed(a, b))| != 1
  {
    hide FormValue;
    var free := Free(Some(form), Agreed(a, b));
    if |free| == 1 {
      var n :| n in free;
      assert |free - {n}| == 0;
      assert AgreeBut(form, n, a, b) by {
        forall m | m in form.terms && m != n ensures a[m] == b[m] { assert m !in free - {n}; }
      }
      ForcesExactly(form, n);
      CongruentResidues(a[n], b[n]);
      assert false;
    }
  }

  /** Two accepted rows that obey the pins and agree on the seed agree on every determined column,
      if no fixed node holds a zero coefficient. */
  lemma DeterminedAgree(s: System, seed: set<string>, pinned: Pinned, known: set<string>, a: Row, b: Row)
    requires Loaded(s) && Copies(s, pinned, a, b) && CanonicalPins(pinned) && Plain(s, pinned)
    requires Determines(s, seed, pinned, known) && seed + pinned.Keys <= ColumnNames(s)
    requires forall n | n in seed && n in a && n in b :: a[n] == b[n]
    ensures known <= Agreed(a, b)
  {
    AgreedClosed(s, pinned, a, b);
    hide Closed, Plain;
    assert seed + pinned.Keys <= Agreed(a, b);
  }
}
