/**
  Gaussian elimination over the constraints that are single linear equations,
  and the requests it shows to be live in every accepted row.
*/
module LinearSystem {
  import opened Basics
  import opened RelationBus
  import opened FieldInverse
  import opened LinearForms
  import opened AirSystem
  import opened ColumnLines
  import opened Names
  import FieldPrime

  /** A column as an expression in columns that are not pivots. */
  type Pivots = map<string, Form>

  function StandIn(pivots: Pivots, n: string): Form {
    if n in pivots then pivots[n] else Form(map[n := 1], 0)
  }

  /** The form with the pivots among `names` replaced. */
  function SubstituteNames(form: Form, pivots: Pivots, names: seq<string>): Form {
    if names == [] then Form(map[], form.constant % P)
    else
      var last := names[|names| - 1];
      Combine(SubstituteNames(form, pivots, names[..|names| - 1]), StandIn(pivots, last),
              Coefficient(form.terms, last))
  }

  ghost function Substitute(form: Form, pivots: Pivots): Form {
    SubstituteNames(form, pivots, SortedList(form.terms.Keys))
  }

  method SubstitutePivots(form: Form, pivots: Pivots) returns (out: Form)
    ensures out == Substitute(form, pivots)
  {
    hide Combine, SortedList;
    var names := Sorted(form.terms.Keys);
    out := Form(map[], form.constant % P);
    for k := 0 to |names|
      invariant out == SubstituteNames(form, pivots, names[..k])
    {
      assert names[..k + 1][..k] == names[..k];
      out := CombineForms(out, StandIn(pivots, names[k]), Coefficient(form.terms, names[k]));
    }
    assert names[..|names|] == names;
  }

  /** Every pivot has its expression's value. */
  ghost predicate Solves(row: Row, pivots: Pivots) {
    forall n | n in pivots && n in row :: Congruent(row[n], FormValue(pivots[n], row))
  }

  lemma StandInSound(pivots: Pivots, n: string, row: Row)
    requires Solves(row, pivots) && n in row
    ensures Congruent(FormValue(StandIn(pivots, n), row), row[n])
  {
    hide FormValue;
    if n in pivots {
      CongruentResidues(row[n], FormValue(pivots[n], row));
      CongruentResidues(FormValue(pivots[n], row), row[n]);
    } else {
      ColumnForm(n, map[], row);
    }
  }

  ghost function SumOver(form: Form, names: seq<string>, row: Row): int
    requires forall n | n in names :: n in row
  {
    if names == [] then form.constant
    else
      var last := names[|names| - 1];
      SumOver(form, names[..|names| - 1], row) + Coefficient(form.terms, last) * row[last]
  }

  lemma {:induction false} SubstituteNamesSound(form: Form, pivots: Pivots, names: seq<string>, row: Row)
    requires Solves(row, pivots) && forall n | n in names :: n in row
    ensures Congruent(FormValue(SubstituteNames(form, pivots, names), row), SumOver(form, names, row))
  {
    hide FormValue, Combine, Solves;
    if names == [] {
      ConstantForm(form.constant, row);
    } else {
      var last, rest := names[|names| - 1], names[..|names| - 1];
      var before, c := SubstituteNames(form, pivots, rest), Coefficient(form.terms, last);
      SubstituteNamesSound(form, pivots, rest, row);
      StandInSound(pivots, last, row);
      CombineSound(before, StandIn(pivots, last), c, row);
      CongruentTimes(FormValue(StandIn(pivots, last), row), row[last], c);
      hide SubstituteNames, StandIn, Coefficient;
      AddTerm(FormValue(SubstituteNames(form, pivots, names), row), FormValue(before, row),
              c * FormValue(StandIn(pivots, last), row), SumOver(form, rest, row), c * row[last]);
    }
  }

  lemma AddTerm(total: int, a: int, b: int, c: int, d: int)
    requires Congruent(total, a + b) && Congruent(a, c) && Congruent(b, d)
    ensures Congruent(total, c + d)
  {
    CongruentSum(a, c, b, d);
    CongruentChain(total, a + b, c + d);
  }

  lemma {:induction false} SumOverSet(form: Form, names: seq<string>, all: set<string>, row: Row)
    requires Distinct(names) && (forall n :: n in names <==> n in all) && all <= row.Keys
    ensures SumOver(form, names, row) == SumOn(all, form.terms, row) + form.constant
  {
    if names == [] {
      assert all == {};
    } else {
      var last, rest := names[|names| - 1], names[..|names| - 1];
      assert names == rest + [last];
      SumOnRemove(all, form.terms, row, last);
      SumOverSet(form, rest, all - {last}, row);
    }
  }

  lemma {:induction false} OutsideTerms(terms: map<string, int>, names: set<string>, all: set<string>, row: Row)
    requires names <= all <= row.Keys && forall n | n in terms && n in all :: n in names
    ensures SumOn(all, terms, row) == SumOn(names, terms, row)
    decreases all
  {
    if names != all {
      assert all == names + (all - names);
      var n :| n in all - names;
      SumOnRemove(all, terms, row, n);
      OutsideTerms(terms, names, all - {n}, row);
    }
  }

  /** Substituting pivots that a row obeys keeps a form's value on it. */
  lemma SubstituteSound(form: Form, pivots: Pivots, row: Row)
    requires Solves(row, pivots) && form.terms.Keys <= row.Keys
    ensures Congruent(FormValue(Substitute(form, pivots), row), FormValue(form, row))
  {
    hide SortedList, Solves, SumOn, SumOver, SubstituteNames;
    var names := SortedList(form.terms.Keys);
    SubstituteNamesSound(form, pivots, names, row);
    SumOverSet(form, names, form.terms.Keys, row);
    OutsideTerms(form.terms, form.terms.Keys, row.Keys, row);
  }

  // --- forms mention columns, and substitution leaves no zero coefficient ---

  /** Coefficients are residues, and none is zero. */
  predicate Clean(terms: map<string, int>) {
    forall n | n in terms :: 0 < terms[n] < P
  }

  lemma CombineClean(f: Form, g: Form, sign: int)
    requires Clean(f.terms)
    ensures Clean(Combine(f, g, sign).terms) && Canonical(Combine(f, g, sign).constant)
    ensures Combine(f, g, sign).terms.Keys <= f.terms.Keys + g.terms.Keys
  {
  }

  /** Columns as expressions in columns, with reduced constants. */
  predicate AmongColumns(pivots: Pivots, columns: set<string>) {
    forall n | n in pivots :: n in columns && pivots[n].terms.Keys <= columns && Canonical(pivots[n].constant)
  }

  lemma {:induction false} SubstituteNamesClean(form: Form, pivots: Pivots, names: seq<string>, columns: set<string>)
    requires forall n | n in names :: StandIn(pivots, n).terms.Keys <= columns
    ensures var out := SubstituteNames(form, pivots, names);
            Clean(out.terms) && Canonical(out.constant) && out.terms.Keys <= columns
  {
    hide Combine;
    if names != [] {
      var last, rest := names[|names| - 1], names[..|names| - 1];
      SubstituteNamesClean(form, pivots, rest, columns);
      CombineClean(SubstituteNames(form, pivots, rest), StandIn(pivots, last), Coefficient(form.terms, last));
    }
  }

  /** Substitution leaves only columns that stand in for those of the form. */
  lemma SubstituteClean(form: Form, pivots: Pivots, columns: set<string>)
    requires forall n | n in form.terms :: StandIn(pivots, n).terms.Keys <= columns
    ensures var out := Substitute(form, pivots);
            Clean(out.terms) && Canonical(out.constant) && out.terms.Keys <= columns
  {
    hide SortedList, StandIn;
    SubstituteNamesClean(form, pivots, SortedList(form.terms.Keys), columns);
  }

  lemma StandInColumns(pivots: Pivots, columns: set<string>)
    requires AmongColumns(pivots, columns)
    ensures forall n | n in columns :: StandIn(pivots, n).terms.Keys <= columns
  {
  }

  lemma {:induction false} FormColumns(nodes: seq<Node>, pinned: Pinned, i: nat, columns: set<string>)
    requires WellFormed(nodes, columns) && i < |nodes| && FormOf(nodes, pinned, i).Some?
    ensures FormOf(nodes, pinned, i).value.terms.Keys <= columns
    decreases i
  {
    assert ArgsBefore(nodes[i], i);
    match nodes[i]
    case Const(_) =>
    case Col(_) =>
    case Neg(a) => FormColumns(nodes, pinned, a, columns);
    case Add(l, r) =>
      FormColumns(nodes, pinned, l, columns);
      FormColumns(nodes, pinned, r, columns);
    case Sub(l, r) =>
      FormColumns(nodes, pinned, l, columns);
      FormColumns(nodes, pinned, r, columns);
    case Mul(l, r) =>
      FormColumns(nodes, pinned, l, columns);
      FormColumns(nodes, pinned, r, columns);
  }

  // --- elimination ----------------------------------------------------------

  /** The equation solved for its least column. */
  ghost function Solution(form: Form): Form
    requires form.terms != map[]
  {
    var n, inverse := LeadName(form.terms), Inverse(Lead(form.terms));
    Form(map m | m in form.terms && m != n :: -form.terms[m] * inverse % P, -form.constant * inverse % P)
  }

  /** A further equation, itself free of pivots, becomes a pivot and leaves the others. */
  ghost function Eliminate(pivots: Pivots, form: Form): Pivots {
    if form.terms == map[] then pivots
    else
      var n, solution := LeadName(form.terms), Solution(form);
      (map m | m in pivots :: Substitute(pivots[m], map[n := solution]))[n := solution]
  }

  ghost function Equation(s: System, pinned: Pinned, c: nat): Option<Form>
    requires Ordered(s.nodes) && c < |s.nodes|
  {
    if |FactorsOf(s.nodes, c)| != 1 then None else FormOf(s.nodes, pinned, c)
  }

  ghost function PivotsOf(s: System, pinned: Pinned, constraints: seq<nat>): Pivots
    requires Ordered(s.nodes) && Inside(s.nodes, constraints)
  {
    if constraints == [] then map[]
    else
      var n := |constraints| - 1;
      var before, equation := PivotsOf(s, pinned, constraints[..n]), Equation(s, pinned, constraints[n]);
      if equation.None? then before else Eliminate(before, Substitute(equation.value, before))
  }

  lemma SolutionIsScaled(form: Form)
    requires form.terms != map[]
    ensures Solution(form) == Scale(Form(form.terms - {LeadName(form.terms)}, form.constant),
                                    -Inverse(Lead(form.terms)))
  {
    var rest, inverse := form.terms - {LeadName(form.terms)}, Inverse(Lead(form.terms));
    forall m | m in rest ensures -form.terms[m] * inverse == rest[m] * -inverse {
      MinusSwap(form.terms[m], inverse);
    }
    MinusSwap(form.constant, inverse);
    hide LeadName, Lead;
    var solution, scaled := Solution(form), Scale(Form(rest, form.constant), -inverse);
    assert solution.terms.Keys == scaled.terms.Keys;
    assert solution.terms == scaled.terms;
  }

  lemma MinusSwap(a: int, b: int)
    ensures -a * b == a * -b
  {
  }

  lemma {:induction false} WithoutName(names: set<string>, terms: map<string, int>, n: string, row: Row)
    requires names <= row.Keys && n !in names
    ensures SumOn(names, terms - {n}, row) == SumOn(names, terms, row)
  {
    if names != {} {
      var m :| m in names;
      SumOnRemove(names, terms, row, m);
      SumOnRemove(names, terms - {n}, row, m);
      WithoutName(names - {m}, terms, n, row);
    }
  }

  lemma TakeOut(form: Form, n: string, row: Row)
    requires n in form.terms && n in row
    ensures FormValue(form, row) == form.terms[n] * row[n] + FormValue(Form(form.terms - {n}, form.constant), row)
  {
    SumOnRemove(row.Keys, form.terms, row, n);
    SumOnRemove(row.Keys, form.terms - {n}, row, n);
    WithoutName(row.Keys - {n}, form.terms, n, row);
  }

  /** The equation holds on a row exactly if its least column has the solution's value. */
  lemma SolutionExact(form: Form, row: Row)
    requires form.terms != map[] && Clean(form.terms) && form.terms.Keys <= row.Keys
    ensures FormValue(form, row) % P == 0 <==> Congruent(row[LeadName(form.terms)], FormValue(Solution(form), row))
  {
    hide FormValue, Scale, Solution, LeadName;
    var n, lead := LeadName(form.terms), Lead(form.terms);
    var rest := Form(form.terms - {n}, form.constant);
    SolutionIsScaled(form);
    TakeOut(form, n, row);
    ScaleSound(rest, -Inverse(lead), row);
    var inverse, r, x := Inverse(lead), FormValue(rest, row), row[n];
    MinusSwap(r, inverse);
    MinusFirst(inverse, r);
    CongruentResidues(FormValue(Solution(form), row), -inverse * r);
    CongruentResidues(x, FormValue(Solution(form), row));
    LinearRoot(lead, x, r);
  }

  lemma MinusFirst(a: int, b: int)
    ensures -a * b == -b * a
  {
  }

  lemma LinearRoot(lead: int, x: int, r: int)
    requires lead % P != 0
    ensures (lead * x + r) % P == 0 <==> x % P == -r * Inverse(lead) % P
  {
    var inverse, minus, v := Inverse(lead), -r, lead * x + r;
    if v % P == 0 {
      SolveLinear(lead, x, r, v);
    }
    if x % P == minus * inverse % P {
      CongruentResidues(x, minus * inverse);
      CongruentTimes(x, minus * inverse, lead);
      CongruentTimes(lead * inverse, 1, minus) by { CongruentResidues(lead * inverse, 1); }
      Reassociate(lead, inverse, minus);
      CongruentChain(lead * x, lead * (minus * inverse), minus);
    }
  }

  /** A row obeys the new pivots exactly if it obeys the old ones and the equation. */
  lemma EliminateExact(pivots: Pivots, form: Form, row: Row)
    requires AmongColumns(pivots, row.Keys) && form.terms.Keys <= row.Keys && form.terms.Keys !! pivots.Keys
    requires Clean(form.terms) && form.terms != map[]
    ensures Solves(row, Eliminate(pivots, form)) <==> Solves(row, pivots) && FormValue(form, row) % P == 0
  {
    hide FormValue, Substitute, Solution;
    var n, solution := LeadName(form.terms), Solution(form);
    SolutionExact(form, row);
    var after := Eliminate(pivots, form);
    assert after[n] == solution;
    hide LeadName;
    if Congruent(row[n], FormValue(solution, row)) {
      forall m | m in pivots
        ensures Congruent(row[m], FormValue(after[m], row)) <==> Congruent(row[m], FormValue(pivots[m], row))
      {
        SubstituteSound(pivots[m], map[n := solution], row);
        CongruentResidues(FormValue(pivots[m], row), FormValue(after[m], row));
        CongruentResidues(row[m], FormValue(pivots[m], row));
        CongruentResidues(row[m], FormValue(after[m], row));
      }
    }
  }

  /** No pivot occurs in a pivot's expression. */
  ghost predicate Separated(pivots: Pivots) {
    forall m, n | m in pivots && n in pivots :: n !in pivots[m].terms
  }

  lemma SubstituteAvoids(form: Form, pivots: Pivots, columns: set<string>)
    requires AmongColumns(pivots, columns) && form.terms.Keys <= columns && Separated(pivots)
    ensures var out := Substitute(form, pivots);
            Clean(out.terms) && Canonical(out.constant) && out.terms.Keys <= columns - pivots.Keys
  {
    hide Substitute;
    SubstituteClean(form, pivots, columns - pivots.Keys);
  }

  lemma EliminateSeparated(pivots: Pivots, form: Form, columns: set<string>)
    requires AmongColumns(pivots, columns) && form.terms.Keys <= columns
    requires Separated(pivots) && form.terms.Keys !! pivots.Keys
    ensures Separated(Eliminate(pivots, form))
  {
    hide Substitute;
    if form.terms != map[] {
      var n, solution := LeadName(form.terms), Solution(form);
      hide LeadName;
      forall m | m in pivots ensures Substitute(pivots[m], map[n := solution]).terms.Keys !! pivots.Keys + {n} {
        SubstituteClean(pivots[m], map[n := solution], columns - pivots.Keys - {n});
      }
    }
  }

  lemma EliminateColumns(pivots: Pivots, form: Form, columns: set<string>)
    requires AmongColumns(pivots, columns) && form.terms.Keys <= columns
    ensures AmongColumns(Eliminate(pivots, form), columns)
  {
    hide Substitute;
    if form.terms != map[] {
      var n, solution := LeadName(form.terms), Solution(form);
      hide LeadName;
      StandInColumns(map[n := solution], columns);
      forall m | m in pivots
        ensures var out := Substitute(pivots[m], map[n := solution]);
                out.terms.Keys <= columns && Canonical(out.constant)
      {
        SubstituteClean(pivots[m], map[n := solution], columns);
      }
    }
  }

  lemma {:induction false} PivotColumns(s: System, pinned: Pinned, constraints: seq<nat>, columns: set<string>)
    requires WellFormed(s.nodes, columns) && Inside(s.nodes, constraints)
    ensures AmongColumns(PivotsOf(s, pinned, constraints), columns)
  {
    hide FormOf, Substitute, Eliminate, AmongColumns;
    if constraints == [] {
      assert AmongColumns(map[], columns) by { NoPivots(columns); }
    } else {
      var n := |constraints| - 1;
      PivotColumns(s, pinned, constraints[..n], columns);
      var before, equation := PivotsOf(s, pinned, constraints[..n]), Equation(s, pinned, constraints[n]);
      if equation.Some? {
        FormColumns(s.nodes, pinned, constraints[n], columns);
        StandInColumns(before, columns);
        SubstituteClean(equation.value, before, columns);
        EliminateColumns(before, Substitute(equation.value, before), columns);
      }
    }
  }

  lemma NoPivots(columns: set<string>)
    ensures AmongColumns(map[], columns) && Separated(map[])
  {
  }

  lemma {:induction false} PivotsSeparated(s: System, pinned: Pinned, constraints: seq<nat>, columns: set<string>)
    requires WellFormed(s.nodes, columns) && Inside(s.nodes, constraints)
    ensures Separated(PivotsOf(s, pinned, constraints))
  {
    hide FormOf, Substitute, Eliminate, AmongColumns, Separated;
    if constraints == [] {
      NoPivots(columns);
    } else {
      var n := |constraints| - 1;
      PivotsSeparated(s, pinned, constraints[..n], columns);
      PivotColumns(s, pinned, constraints[..n], columns);
      var before, equation := PivotsOf(s, pinned, constraints[..n]), Equation(s, pinned, constraints[n]);
      if equation.Some? {
        FormColumns(s.nodes, pinned, constraints[n], columns);
        SubstituteAvoids(equation.value, before, columns);
        EliminateSeparated(before, Substitute(equation.value, before), columns);
      }
    }
  }

  /** No equation reduces to a constant other than zero. */
  ghost predicate Consistent(s: System, pinned: Pinned, constraints: seq<nat>)
    requires Ordered(s.nodes) && Inside(s.nodes, constraints)
  {
    constraints != [] ==>
      var n := |constraints| - 1;
      var equation := Equation(s, pinned, constraints[n]);
      && Consistent(s, pinned, constraints[..n])
      && (equation.Some? ==> !Absurd(Substitute(equation.value, PivotsOf(s, pinned, constraints[..n]))))
  }

  predicate Absurd(form: Form) {
    form.terms == map[] && form.constant != 0
  }

  ghost predicate EquationsHold(s: System, pinned: Pinned, constraints: seq<nat>, row: Row)
    requires Ordered(s.nodes) && Inside(s.nodes, constraints)
  {
    forall k | 0 <= k < |constraints| && Equation(s, pinned, constraints[k]).Some? ::
      FormValue(Equation(s, pinned, constraints[k]).value, row) % P == 0
  }

  /** Elimination is exact: a row satisfies the equations if and only if they are consistent and it
      obeys the pivots. */
  lemma {:induction false} EliminationExact(s: System, pinned: Pinned, constraints: seq<nat>, row: Row)
    requires WellFormed(s.nodes, row.Keys) && Inside(s.nodes, constraints)
    ensures EquationsHold(s, pinned, constraints, row)
      <==> Consistent(s, pinned, constraints) && Solves(row, PivotsOf(s, pinned, constraints))
  {
    hide FormOf, FormValue, Substitute, Eliminate, AmongColumns, Solves, Separated;
    if constraints == [] {
      SolvesNothing(row);
    } else {
      var n := |constraints| - 1;
      EliminationExact(s, pinned, constraints[..n], row);
      var before, equation := PivotsOf(s, pinned, constraints[..n]), Equation(s, pinned, constraints[n]);
      HoldsStep(s, pinned, constraints, row);
      if equation.Some? && Solves(row, before) {
        OneEquation(s, pinned, constraints, row);
      } else if equation.Some? {
        PivotsKept(s, pinned, constraints, row);
      }
    }
  }

  lemma HoldsStep(s: System, pinned: Pinned, constraints: seq<nat>, row: Row)
    requires Ordered(s.nodes) && Inside(s.nodes, constraints) && constraints != []
    ensures var n := |constraints| - 1;
            var equation := Equation(s, pinned, constraints[n]);
            EquationsHold(s, pinned, constraints, row) <==>
              && EquationsHold(s, pinned, constraints[..n], row)
              && (equation.Some? ==> FormValue(equation.value, row) % P == 0)
  {
    hide Equation, FormValue;
  }

  lemma ReducedEquation(s: System, pinned: Pinned, constraints: seq<nat>, row: Row)
    requires WellFormed(s.nodes, row.Keys) && Inside(s.nodes, constraints) && constraints != []
    requires Equation(s, pinned, constraints[|constraints| - 1]).Some?
    ensures var before := PivotsOf(s, pinned, constraints[..|constraints| - 1]);
            var form := Equation(s, pinned, constraints[|constraints| - 1]).value;
            var out := Substitute(form, before);
            && AmongColumns(before, row.Keys) && form.terms.Keys <= row.Keys
            && Clean(out.terms) && Canonical(out.constant)
            && out.terms.Keys <= row.Keys && out.terms.Keys !! before.Keys
  {
    hide FormOf, Substitute, AmongColumns, Separated;
    var n := |constraints| - 1;
    var form := Equation(s, pinned, constraints[n]).value;
    PivotsSeparated(s, pinned, constraints[..n], row.Keys);
    PivotColumns(s, pinned, constraints[..n], row.Keys);
    FormColumns(s.nodes, pinned, constraints[n], row.Keys);
    SubstituteAvoids(form, PivotsOf(s, pinned, constraints[..n]), row.Keys);
  }

  lemma OneEquation(s: System, pinned: Pinned, constraints: seq<nat>, row: Row)
    requires WellFormed(s.nodes, row.Keys) && Inside(s.nodes, constraints) && constraints != []
    requires Equation(s, pinned, constraints[|constraints| - 1]).Some?
    requires Solves(row, PivotsOf(s, pinned, constraints[..|constraints| - 1]))
    ensures var form := Equation(s, pinned, constraints[|constraints| - 1]).value;
            FormValue(form, row) % P == 0 <==>
              && !Absurd(Substitute(form, PivotsOf(s, pinned, constraints[..|constraints| - 1])))
              && Solves(row, PivotsOf(s, pinned, constraints))
  {
    hide FormOf, Substitute, AmongColumns, FormValue, Solves, Clean;
    var before := PivotsOf(s, pinned, constraints[..|constraints| - 1]);
    var form := Equation(s, pinned, constraints[|constraints| - 1]).value;
    var out := Substitute(form, before);
    ReducedEquation(s, pinned, constraints, row);
    SubstituteSound(form, before, row);
    CongruentResidues(FormValue(out, row), FormValue(form, row));
    if out.terms == map[] {
      ConstantValue(out, row);
    } else {
      EliminateExact(before, out, row);
    }
  }

  lemma PivotsKept(s: System, pinned: Pinned, constraints: seq<nat>, row: Row)
    requires WellFormed(s.nodes, row.Keys) && Inside(s.nodes, constraints) && constraints != []
    requires Equation(s, pinned, constraints[|constraints| - 1]).Some?
    requires !Solves(row, PivotsOf(s, pinned, constraints[..|constraints| - 1]))
    ensures !Solves(row, PivotsOf(s, pinned, constraints))
  {
    hide FormOf, Substitute, AmongColumns, FormValue, Solves, Clean;
    var before := PivotsOf(s, pinned, constraints[..|constraints| - 1]);
    var out := Substitute(Equation(s, pinned, constraints[|constraints| - 1]).value, before);
    ReducedEquation(s, pinned, constraints, row);
    if out.terms != map[] {
      EliminateExact(before, out, row);
    }
  }

  lemma SolvesNothing(row: Row)
    ensures Solves(row, map[])
  {
  }

  /** A row that satisfies the constraints and obeys the pins obeys every pivot. */
  lemma PivotsSound(s: System, pinned: Pinned, constraints: seq<nat>, row: Row)
    requires WellFormed(s.nodes, row.Keys) && Inside(s.nodes, constraints)
    requires AllVanish(s, constraints, row) && Obeys(row, pinned)
    ensures Solves(row, PivotsOf(s, pinned, constraints))
  {
    hide FormOf, FormValue, Value, Solves, PivotsOf;
    forall k | 0 <= k < |constraints| && Equation(s, pinned, constraints[k]).Some?
      ensures FormValue(Equation(s, pinned, constraints[k]).value, row) % P == 0
    {
      FormSound(s.nodes, pinned, constraints[k], row);
      CongruentResidues(FormValue(Equation(s, pinned, constraints[k]).value, row), Value(s.nodes, constraints[k], row));
    }
    EliminationExact(s, pinned, constraints, row);
  }

  method SolveForms(s: System, pinned: Pinned) returns (pivots: Pivots)
    requires Ordered(s.nodes) && Inside(s.nodes, s.constraints)
    ensures pivots == PivotsOf(s, pinned, s.constraints)
  {
    var forms := ExpandArena(s.nodes, pinned);
    hide FormOf, FactorsOf, Substitute, Solution, LeadName, Lead;
    pivots := map[];
    for k := 0 to |s.constraints|
      invariant pivots == PivotsOf(s, pinned, s.constraints[..k])
    {
      var c := s.constraints[k];
      assert s.constraints[..k + 1][..k] == s.constraints[..k];
      var factors := Factors(s.nodes, c);
      if |factors| == 1 && forms[c].Some? {
        var form := SubstitutePivots(forms[c].value, pivots);
        pivots := AddPivot(pivots, form);
      }
    }
    assert s.constraints[..|s.constraints|] == s.constraints;
  }

  method AddPivot(pivots: Pivots, form: Form) returns (out: Pivots)
    ensures out == Eliminate(pivots, form)
  {
    hide Substitute;
    if form.terms == map[] {
      return pivots;
    }
    var n := Least(form.terms.Keys);
    var inverse := Inverse(form.terms[n]);
    var solution := Form(map m | m in form.terms && m != n :: -form.terms[m] * inverse % P,
                         -form.constant * inverse % P);
    assert solution == Solution(form) && n == LeadName(form.terms);
    hide Solution, LeadName;
    out := map[];
    var rest := pivots.Keys;
    while rest != {}
      invariant rest <= pivots.Keys && out.Keys == pivots.Keys - rest
      invariant forall m | m in out :: out[m] == Substitute(pivots[m], map[n := solution])
      decreases rest
    {
      var m :| m in rest;
      var changed := SubstitutePivots(pivots[m], map[n := solution]);
      out := out[m := changed];
      rest := rest - {m};
    }
    out := out[n := solution];
  }

  // --- live requests --------------------------------------------------------

  /** The numerator reduces to a constant other than zero. */
  ghost predicate Live(s: System, pinned: Pinned, i: nat)
    requires Ordered(s.nodes) && Inside(s.nodes, s.constraints) && i < |s.nodes|
  {
    && FormOf(s.nodes, pinned, i).Some?
    && var out := Substitute(FormOf(s.nodes, pinned, i).value, PivotsOf(s, pinned, s.constraints));
       out.terms == map[] && out.constant != 0
  }

  method UnconditionallyLive(s: System, ghost pinned: Pinned, form: Option<Form>, pivots: Pivots, ghost i: nat)
    returns (live: bool)
    requires Ordered(s.nodes) && Inside(s.nodes, s.constraints) && i < |s.nodes|
    requires form == FormOf(s.nodes, pinned, i) && pivots == PivotsOf(s, pinned, s.constraints)
    ensures live <==> Live(s, pinned, i)
  {
    hide FormOf, Substitute, PivotsOf;
    if form.None? {
      return false;
    }
    var out := SubstitutePivots(form.value, pivots);
    live := out.terms == map[] && out.constant != 0;
  }

  /** A live request fires in every row that satisfies the constraints and obeys the pins. */
  lemma LiveSound(s: System, pinned: Pinned, i: nat, row: Row)
    requires WellFormed(s.nodes, row.Keys) && Inside(s.nodes, s.constraints) && i < |s.nodes|
    requires AllVanish(s, s.constraints, row) && Obeys(row, pinned) && Live(s, pinned, i)
    ensures Value(s.nodes, i, row) % P != 0
  {
    hide FormOf, Value, Substitute, PivotsOf, FormValue, Solves, AmongColumns;
    var form, pivots := FormOf(s.nodes, pinned, i).value, PivotsOf(s, pinned, s.constraints);
    PivotsSound(s, pinned, s.constraints, row);
    PivotColumns(s, pinned, s.constraints, row.Keys);
    FormColumns(s.nodes, pinned, i, row.Keys);
    FormSound(s.nodes, pinned, i, row);
    SubstituteSound(form, pivots, row);
    StandInColumns(pivots, row.Keys);
    SubstituteClean(form, pivots, row.Keys);
    ConstantValue(Substitute(form, pivots), row);
    CongruentResidues(FormValue(form, row), Value(s.nodes, i, row));
    CongruentResidues(FormValue(Substitute(form, pivots), row), FormValue(form, row));
  }

  // --- every solution is reached --------------------------------------------

  lemma {:induction false} SameSums(names: set<string>, terms: map<string, int>, a: Row, b: Row)
    requires names <= a.Keys == b.Keys && forall m | m in terms && m in names :: a[m] == b[m]
    ensures SumOn(names, terms, a) == SumOn(names, terms, b)
  {
    if names != {} {
      var m :| m in names;
      SumOnRemove(names, terms, a, m);
      SumOnRemove(names, terms, b, m);
      SameSums(names - {m}, terms, a, b);
    }
  }

  /** Any choice of the other columns extends to the pivots. */
  ghost function Extend(pivots: Pivots, free: Row): Row {
    map n | n in free :: if n in pivots then FormValue(pivots[n], free) else free[n]
  }

  lemma AwayFromPivots(pivots: Pivots, free: Row, form: Form)
    requires form.terms.Keys !! pivots.Keys
    ensures FormValue(form, Extend(pivots, free)) == FormValue(form, free)
  {
    SameSums(free.Keys, form.terms, Extend(pivots, free), free);
  }

  lemma ExtendSolves(pivots: Pivots, free: Row)
    requires Separated(pivots)
    ensures Extend(pivots, free).Keys == free.Keys && Solves(Extend(pivots, free), pivots)
  {
    hide FormValue;
    var row := Extend(pivots, free);
    forall n | n in pivots && n in row ensures Congruent(row[n], FormValue(pivots[n], row)) {
      assert pivots[n].terms.Keys !! pivots.Keys;
      AwayFromPivots(pivots, free, pivots[n]);
    }
  }

  /** The row that is x on one column. */
  function Only(names: set<string>, n: string, x: int): Row {
    map m | m in names :: if m == n then x else 0
  }

  lemma {:induction false} OnlySum(terms: map<string, int>, names: set<string>, all: set<string>, n: string, x: int)
    requires names <= all
    ensures SumOn(names, terms, Only(all, n, x)) == if n in names then Coefficient(terms, n) * x else 0
  {
    if names != {} {
      var m :| m in names;
      SumOnRemove(names, terms, Only(all, n, x), m);
      OnlySum(terms, names - {m}, all, n, x);
    }
  }

  lemma OnlyValue(form: Form, all: set<string>, n: string, x: int)
    requires n in all
    ensures FormValue(form, Only(all, n, x)) == Coefficient(form.terms, n) * x + form.constant
  {
    assert Only(all, n, x).Keys == all;
    OnlySum(form.terms, all, all, n, x);
  }

  /** A row that satisfies consistent equations, for a choice of one column that is no pivot. */
  lemma SolutionRow(s: System, pinned: Pinned, columns: set<string>, n: string, x: int) returns (row: Row)
    requires WellFormed(s.nodes, columns) && Inside(s.nodes, s.constraints) && Consistent(s, pinned, s.constraints)
    ensures row == Extend(PivotsOf(s, pinned, s.constraints), Only(columns, n, x))
    ensures row.Keys == columns && EquationsHold(s, pinned, s.constraints, row)
    ensures Solves(row, PivotsOf(s, pinned, s.constraints))
  {
    hide PivotsOf, Consistent, EquationsHold, Separated, Extend, Solves, FormOf;
    var pivots, free := PivotsOf(s, pinned, s.constraints), Only(columns, n, x);
    assert free.Keys == columns;
    PivotsSeparated(s, pinned, s.constraints, columns);
    ExtendSolves(pivots, free);
    row := Extend(pivots, free);
    EliminationExact(s, pinned, s.constraints, row);
  }

  /** Some row satisfying the equations lets a form vanish that is not reduced to a constant, or to zero. */
  lemma VanishingRow(s: System, pinned: Pinned, columns: set<string>, form: Form) returns (row: Row)
    requires WellFormed(s.nodes, columns) && Inside(s.nodes, s.constraints) && Consistent(s, pinned, s.constraints)
    requires form.terms.Keys <= columns
    requires var out := Substitute(form, PivotsOf(s, pinned, s.constraints)); out.terms != map[] || out.constant == 0
    ensures row.Keys == columns && EquationsHold(s, pinned, s.constraints, row) && FormValue(form, row) % P == 0
  {
    hide PivotsOf, Consistent, EquationsHold, Solves, FormOf, FormValue, Substitute, AmongColumns, Separated;
    var pivots := PivotsOf(s, pinned, s.constraints);
    var out := Substitute(form, pivots);
    PivotsSeparated(s, pinned, s.constraints, columns);
    PivotColumns(s, pinned, s.constraints, columns);
    SubstituteAvoids(form, pivots, columns);
    var n, x := "", 0;
    if out.terms != map[] {
      n, x := LeadName(out.terms), -out.constant * Inverse(Lead(out.terms)) % P;
    }
    row := SolutionRow(s, pinned, columns, n, x);
    hide Extend, Only;
    SubstituteSound(form, pivots, row);
    CongruentResidues(FormValue(out, row), FormValue(form, row));
    AwayFromPivots(pivots, Only(columns, n, x), out);
    if out.terms == map[] {
      ConstantValue(out, row);
    } else {
      LeadVanishes(out, columns, n, x);
    }
  }

  lemma LeadVanishes(out: Form, columns: set<string>, n: string, x: int)
    requires out.terms != map[] && Clean(out.terms) && out.terms.Keys <= columns
    requires n == LeadName(out.terms) && x == -out.constant * Inverse(Lead(out.terms)) % P
    ensures FormValue(out, Only(columns, n, x)) % P == 0
  {
    OnlyValue(out, columns, n, x);
    hide FormValue;
    LinearRoot(Lead(out.terms), x, out.constant);
  }

  /** Under consistent equations a numerator with a form is live if and only if it vanishes on no row
      that satisfies them. */
  lemma LiveExactly(s: System, pinned: Pinned, columns: set<string>, i: nat)
    requires WellFormed(s.nodes, columns) && Inside(s.nodes, s.constraints) && i < |s.nodes|
    requires Consistent(s, pinned, s.constraints) && FormOf(s.nodes, pinned, i).Some?
    ensures Live(s, pinned, i) <==>
              forall row: Row | row.Keys == columns && EquationsHold(s, pinned, s.constraints, row) ::
                FormValue(FormOf(s.nodes, pinned, i).value, row) % P != 0
  {
    hide PivotsOf, Consistent, EquationsHold, Solves, FormOf, FormValue, Substitute, AmongColumns;
    var form, pivots := FormOf(s.nodes, pinned, i).value, PivotsOf(s, pinned, s.constraints);
    FormColumns(s.nodes, pinned, i, columns);
    PivotColumns(s, pinned, s.constraints, columns);
    StandInColumns(pivots, columns);
    SubstituteClean(form, pivots, columns);
    if Live(s, pinned, i) {
      forall row: Row | row.Keys == columns && EquationsHold(s, pinned, s.constraints, row)
        ensures FormValue(form, row) % P != 0
      {
        EliminationExact(s, pinned, s.constraints, row);
        SubstituteSound(form, pivots, row);
        ConstantValue(Substitute(form, pivots), row);
        CongruentResidues(FormValue(Substitute(form, pivots), row), FormValue(form, row));
      }
    } else {
      var row := VanishingRow(s, pinned, columns, form);
    }
  }

  predicate AllClean(pivots: Pivots) {
    forall n | n in pivots :: Clean(pivots[n].terms)
  }

  lemma SolutionClean(form: Form)
    requires form.terms != map[] && Clean(form.terms)
    ensures Clean(Solution(form).terms)
  {
    var inverse := Inverse(Lead(form.terms));
    InverseSurvives(Lead(form.terms));
    hide LeadName, Lead;
    forall m | m in form.terms ensures 0 < -form.terms[m] * inverse % P < P {
      QuotientSurvives(form.terms[m], inverse);
    }
  }

  lemma InverseSurvives(a: int)
    requires 0 < a < P
    ensures Inverse(a) % P != 0
  {
    FieldPrime.ProductVanishes(a, Inverse(a));
  }

  lemma QuotientSurvives(a: int, inverse: int)
    requires 0 < a < P && inverse % P != 0
    ensures 0 < -a * inverse % P < P
  {
    var minus := -a;
    FieldPrime.ProductVanishes(minus, inverse);
  }

  lemma EliminateClean(pivots: Pivots, form: Form, columns: set<string>)
    requires AmongColumns(pivots, columns) && form.terms.Keys <= columns && Clean(form.terms) && AllClean(pivots)
    ensures AllClean(Eliminate(pivots, form))
  {
    hide Substitute, Clean;
    if form.terms != map[] {
      var n, solution := LeadName(form.terms), Solution(form);
      SolutionClean(form);
      hide LeadName;
      StandInColumns(map[n := solution], columns);
      forall m | m in pivots ensures Clean(Substitute(pivots[m], map[n := solution]).terms) {
        SubstituteClean(pivots[m], map[n := solution], columns);
      }
    }
  }

  lemma {:induction false} PivotsClean(s: System, pinned: Pinned, constraints: seq<nat>, columns: set<string>)
    requires WellFormed(s.nodes, columns) && Inside(s.nodes, constraints)
    ensures AllClean(PivotsOf(s, pinned, constraints))
  {
    hide FormOf, Substitute, Eliminate, AmongColumns, AllClean, Clean;
    if constraints == [] {
      assert AllClean(map[]) by { NothingUnclean(); }
    } else {
      var n := |constraints| - 1;
      PivotsClean(s, pinned, constraints[..n], columns);
      PivotColumns(s, pinned, constraints[..n], columns);
      var before, equation := PivotsOf(s, pinned, constraints[..n]), Equation(s, pinned, constraints[n]);
      if equation.Some? {
        FormColumns(s.nodes, pinned, constraints[n], columns);
        StandInColumns(before, columns);
        SubstituteClean(equation.value, before, columns);
        EliminateClean(before, Substitute(equation.value, before), columns);
      }
    }
  }

  lemma NothingUnclean()
    ensures AllClean(map[])
  {
  }

  /** All rows that satisfy the equations give the column this residue. */
  ghost predicate Forced(s: System, pinned: Pinned, columns: set<string>, x: string, v: int)
    requires Ordered(s.nodes) && Inside(s.nodes, s.constraints) && x in columns
  {
    forall row: Row | row.Keys == columns && EquationsHold(s, pinned, s.constraints, row) :: row[x] % P == v
  }

  predicate ConstantAt(pivots: Pivots, x: string, v: int) {
    x in pivots && pivots[x].terms == map[] && pivots[x].constant == v
  }

  /** The elimination finds every column that consistent equations force to one value, and no other. */
  lemma ForcedExactly(s: System, pinned: Pinned, columns: set<string>, x: string, v: int)
    requires WellFormed(s.nodes, columns) && Inside(s.nodes, s.constraints) && Consistent(s, pinned, s.constraints)
    requires x in columns
    ensures Forced(s, pinned, columns, x, v) <==> ConstantAt(PivotsOf(s, pinned, s.constraints), x, v)
  {
    hide PivotsOf, Consistent, EquationsHold, Solves, FormOf, FormValue, AmongColumns, AllClean;
    var pivots := PivotsOf(s, pinned, s.constraints);
    PivotColumns(s, pinned, s.constraints, columns);
    if ConstantAt(pivots, x, v) {
      forall row: Row | row.Keys == columns && EquationsHold(s, pinned, s.constraints, row) ensures row[x] % P == v {
        EliminationExact(s, pinned, s.constraints, row);
        ConstantIsValue(pivots, columns, x, row);
      }
    }
    if Forced(s, pinned, columns, x, v) {
      PivotsClean(s, pinned, s.constraints, columns);
      ForcedIsConstant(s, pinned, columns, x, v);
    }
  }

  lemma ConstantIsValue(pivots: Pivots, columns: set<string>, x: string, row: Row)
    requires Solves(row, pivots) && AmongColumns(pivots, columns) && x in pivots && x in row && pivots[x].terms == map[]
    ensures row[x] % P == pivots[x].constant
  {
    ConstantValue(pivots[x], row);
    hide FormValue;
    CongruentResidues(row[x], pivots[x].constant);
  }

  lemma ForcedIsConstant(s: System, pinned: Pinned, columns: set<string>, x: string, v: int)
    requires WellFormed(s.nodes, columns) && Inside(s.nodes, s.constraints) && Consistent(s, pinned, s.constraints)
    requires x in columns && Forced(s, pinned, columns, x, v)
    requires AmongColumns(PivotsOf(s, pinned, s.constraints), columns) && AllClean(PivotsOf(s, pinned, s.constraints))
    ensures ConstantAt(PivotsOf(s, pinned, s.constraints), x, v)
  {
    hide PivotsOf, Consistent, EquationsHold, Solves, FormOf, FormValue;
    var pivots := PivotsOf(s, pinned, s.constraints);
    var n := if x in pivots && pivots[x].terms != map[] then LeadName(pivots[x].terms) else x;
    hide LeadName;
    var zero := SolutionRow(s, pinned, columns, n, 0);
    var one := SolutionRow(s, pinned, columns, n, 1);
    assert zero[x] % P == v && one[x] % P == v;
    if x in pivots {
      OnlyValue(pivots[x], columns, n, 0);
      OnlyValue(pivots[x], columns, n, 1);
      ConstantBetween(pivots[x], n, v);
    }
  }

  lemma ConstantBetween(form: Form, n: string, v: int)
    requires Clean(form.terms) && Canonical(form.constant) && form.constant % P == v
    requires (Coefficient(form.terms, n) + form.constant) % P == v && (form.terms != map[] ==> n in form.terms)
    ensures form.terms == map[] && form.constant == v
  {
    if n in form.terms { NoShift(form.constant, form.terms[n]); }
  }

  lemma NoShift(a: int, b: int)
    requires 0 < b < P
    ensures (b + a) % P != a % P
  {
    CongruentResidues(b + a, a);
  }
}
