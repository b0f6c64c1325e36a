/**
  The lines of the column space that a product constraint confines to finitely
  many points, and what they say about the nodes along them.
*/
module ColumnLines {
  import opened Basics
  import opened RelationBus
  import opened FieldInverse
  import opened LinearForms
  import opened AirSystem
  import opened Names

  /** A form's coefficients, scaled to one at the least name. */
  type Direction = map<string, int>

  datatype Line = Line(direction: Direction, roots: set<int>)

  ghost function LeadName(terms: map<string, int>): (n: string)
    requires terms != map[]
    ensures n in terms && forall m | m in terms :: m == n || Before(n, m)
  {
    First(terms.Keys)
  }

  ghost function Lead(terms: map<string, int>): int
    requires terms != map[]
  {
    terms[LeadName(terms)]
  }

  ghost function DirectionOf(terms: map<string, int>): Direction
    requires terms != map[]
  {
    var inverse := Inverse(Lead(terms));
    map n | n in terms :: terms[n] * inverse % P
  }

  /** Where the form vanishes, measured along its direction. */
  ghost function Root(form: Form): int
    requires form.terms != map[]
  {
    -form.constant * Inverse(Lead(form.terms)) % P
  }

  ghost function Along(direction: Direction, row: Row): int {
    SumOn(row.Keys, direction, row)
  }

  method Least(names: set<string>) returns (n: string)
    requires names != {}
    ensures n == First(names)
  {
    n :| n in names;
    var rest := names - {n};
    while rest != {}
      invariant rest <= names && n in names && forall m | m in names - rest :: m == n || Before(n, m)
      decreases rest
    {
      var m :| m in rest;
      BeforeTotal(m, n);
      if Before(m, n) {
        forall k | k in names - rest ensures Before(m, k) {
          if k != n { BeforeTransitive(m, n, k); }
        }
        n := m;
      }
      rest := rest - {m};
    }
    BeforeTotal(n, First(names));
  }

  // --- what a direction promises --------------------------------------------

  lemma DirectionIsScaled(terms: map<string, int>)
    requires terms != map[]
    ensures DirectionOf(terms) == Scale(Form(terms, 0), Inverse(Lead(terms))).terms
  {
  }

  /** Along the direction, the terms add up to the lead times the value along it. */
  lemma TermsAlong(terms: map<string, int>, row: Row)
    requires terms != map[] && Lead(terms) % P != 0
    ensures Congruent(SumOn(row.Keys, terms, row), Lead(terms) * Along(DirectionOf(terms), row))
  {
    hide DirectionOf, Scale, Lead, SumOn;
    var inverse, sum := Inverse(Lead(terms)), SumOn(row.Keys, terms, row);
    DirectionIsScaled(terms);
    SumScales(row.Keys, Form(terms, 0), inverse, row);
    CongruentTimes(Along(DirectionOf(terms), row), inverse * sum, Lead(terms));
    CongruentTimes(Lead(terms) * inverse, 1, sum) by { CongruentResidues(Lead(terms) * inverse, 1); }
    Rescale(Lead(terms), inverse, sum, Along(DirectionOf(terms), row));
  }

  lemma Rescale(lead: int, inverse: int, sum: int, along: int)
    requires Congruent(lead * along, lead * (inverse * sum)) && Congruent(lead * inverse * sum, 1 * sum)
    ensures Congruent(sum, lead * along)
  {
    assert lead * inverse * sum == lead * (inverse * sum);
    hide Congruent;
    CongruentResidues(lead * along, lead * (inverse * sum));
    CongruentResidues(lead * (inverse * sum), 1 * sum);
    CongruentResidues(sum, lead * along);
  }

  /** Without a lead the direction loses the form: it is zero everywhere. */
  lemma {:induction false} NoLead(terms: map<string, int>, names: set<string>, row: Row)
    requires terms != map[] && Lead(terms) % P == 0 && names <= row.Keys
    ensures SumOn(names, DirectionOf(terms), row) == 0
  {
    if names != {} {
      var n :| n in names;
      SumOnRemove(names, DirectionOf(terms), row, n);
      NoLead(terms, names - {n}, row);
    }
  }

  predicate Reduced(terms: map<string, int>) {
    forall n | n in terms :: Canonical(terms[n])
  }

  /** The form is the lead times the value along its direction, plus a constant. */
  ghost predicate Splits(form: Form, row: Row)
    requires form.terms != map[]
  {
    Congruent(FormValue(form, row), Lead(form.terms) * Along(DirectionOf(form.terms), row) + form.constant)
  }

  predicate AllZero(terms: map<string, int>) {
    forall n | n in terms :: terms[n] == 0
  }

  lemma {:induction false} ZeroSum(terms: map<string, int>, names: set<string>, row: Row)
    requires AllZero(terms) && names <= row.Keys
    ensures SumOn(names, terms, row) == 0
  {
    if names != {} {
      var n :| n in names;
      SumOnRemove(names, terms, row, n);
      ZeroSum(terms, names - {n}, row);
    }
  }

  /** The row that is one on a single column. */
  function Unit(names: set<string>, n: string): Row {
    map m | m in names :: if m == n then 1 else 0
  }

  lemma {:induction false} UnitSum(terms: map<string, int>, names: set<string>, all: set<string>, n: string)
    requires names <= all
    ensures SumOn(names, terms, Unit(all, n)) == if n in names then Coefficient(terms, n) else 0
  {
    if names != {} {
      var m :| m in names;
      SumOnRemove(names, terms, Unit(all, n), m);
      UnitSum(terms, names - {m}, all, n);
    }
  }

  /** A form with reduced coefficients splits on every row exactly if its lead is not zero, or all
      of it is. */
  lemma SplitsExactly(form: Form)
    requires form.terms != map[] && Reduced(form.terms)
    ensures (forall row :: Splits(form, row)) <==> Lead(form.terms) != 0 || AllZero(form.terms)
  {
    hide DirectionOf, SumOn;
    var terms := form.terms;
    if Lead(terms) != 0 || AllZero(terms) {
      forall row ensures Splits(form, row) { SplitsWhen(form, row); }
    } else {
      var n :| n in terms && terms[n] != 0;
      var row := Unit(terms.Keys, n);
      assert row.Keys == terms.Keys;
      UnitSum(terms, terms.Keys, terms.Keys, n);
      NoLead(terms, row.Keys, row);
      assert !Splits(form, row);
    }
  }

  lemma SplitsWhen(form: Form, row: Row)
    requires form.terms != map[]
    requires Lead(form.terms) % P != 0 || AllZero(form.terms)
    ensures Splits(form, row)
  {
    hide DirectionOf, SumOn, Lead;
    if Lead(form.terms) % P != 0 {
      TermsAlong(form.terms, row);
    } else {
      ZeroSum(form.terms, row.Keys, row);
      NoLead(form.terms, row.Keys, row);
    }
  }

  /** Where the form vanishes, its direction is at the form's root. */
  lemma RootReached(form: Form, row: Row)
    requires form.terms != map[] && FormValue(form, row) % P == 0
    ensures Along(DirectionOf(form.terms), row) % P == Root(form)
  {
    hide DirectionOf, SumOn, Lead;
    var lead, along := Lead(form.terms), Along(DirectionOf(form.terms), row);
    if lead % P == 0 {
      NoLead(form.terms, row.Keys, row);
    } else {
      SplitsWhen(form, row);
      SolveLinear(lead, along, form.constant, FormValue(form, row));
    }
  }

  lemma SolveLinear(lead: int, along: int, constant: int, v: int)
    requires lead % P != 0 && Congruent(v, lead * along + constant) && v % P == 0
    ensures along % P == -constant * Inverse(lead) % P
  {
    var inverse, minus := Inverse(lead), -constant;
    assert Congruent(lead * along, minus);
    CongruentTimes(lead * inverse, 1, minus) by { CongruentResidues(lead * inverse, 1); }
    Reassociate(lead, inverse, minus);
    hide Congruent;
    Agree(lead * along, lead * (minus * inverse), minus);
    Cancel(lead, along, minus * inverse);
    CongruentResidues(along, minus * inverse);
  }

  lemma Agree(a: int, b: int, c: int)
    requires Congruent(a, c) && Congruent(b, c)
    ensures Congruent(a, b)
  {
    hide Congruent;
    CongruentResidues(a, c);
    CongruentResidues(b, c);
    CongruentResidues(a, b);
  }

  lemma Reassociate(lead: int, inverse: int, x: int)
    ensures lead * (x * inverse) == lead * inverse * x && 1 * x == x
  {
  }

  // --- the line of one constraint -------------------------------------------

  /** What the factors read so far agree on. */
  datatype Partial = Partial(direction: Option<Direction>, roots: set<int>)

  /** No reading if a factor has no form, vanishes by itself, or points elsewhere. */
  ghost function ReadFactors(forms: seq<Option<Form>>): Option<Partial> {
    if forms == [] then Some(Partial(None, {}))
    else
      var before, last := ReadFactors(forms[..|forms| - 1]), forms[|forms| - 1];
      if before.None? || last.None? then None
      else if last.value.terms == map[] then if last.value.constant == 0 then None else before
      else if before.value.direction.Some? && before.value.direction.value != DirectionOf(last.value.terms) then None
      else Some(Partial(Some(DirectionOf(last.value.terms)), before.value.roots + {Root(last.value)}))
  }

  ghost function LineOf(read: Option<Partial>): Option<Line> {
    if read.None? || read.value.direction.None? then None
    else Some(Line(read.value.direction.value, read.value.roots))
  }

  ghost function FactorForms(s: System, pinned: Pinned, factors: seq<nat>): (forms: seq<Option<Form>>)
    requires Ordered(s.nodes) && Inside(s.nodes, factors)
  {
    seq(|factors|, k requires 0 <= k < |factors| => FormOf(s.nodes, pinned, factors[k]))
  }

  ghost function ConstraintLine(s: System, pinned: Pinned, c: nat): Option<Line>
    requires Ordered(s.nodes) && c < |s.nodes|
  {
    LineOf(ReadFactors(FactorForms(s, pinned, FactorsOf(s.nodes, c))))
  }

  /** The row is at one of the line's roots. */
  ghost predicate OnLine(line: Line, row: Row) {
    Along(line.direction, row) % P in line.roots
  }

  /** A reading of factors one of which vanishes finds the row at a root. */
  lemma {:induction false} ReadSound(forms: seq<Option<Form>>, k: nat, row: Row)
    requires k < |forms| && forms[k].Some? && FormValue(forms[k].value, row) % P == 0
    requires forall i | 0 <= i < |forms| && forms[i].Some? :: Canonical(forms[i].value.constant)
    requires ReadFactors(forms).Some?
    ensures ReadFactors(forms).value.direction.Some? && OnLine(LineOf(ReadFactors(forms)).value, row)
  {
    hide DirectionOf, Root, FormValue, SumOn, Along;
    var last := forms[|forms| - 1].value;
    if k == |forms| - 1 {
      if last.terms == map[] {
        ConstantValue(last, row);
        assert false;
      } else {
        RootReached(last, row);
      }
    } else {
      ReadSound(forms[..|forms| - 1], k, row);
    }
  }

  lemma ConstantValue(form: Form, row: Row)
    requires form.terms == map[]
    ensures FormValue(form, row) == form.constant
  {
    NoTerms(row.Keys, row);
  }

  predicate CanonicalPins(pinned: Pinned) {
    forall n | n in pinned :: Canonical(pinned[n])
  }

  /** A form keeps reduced coefficients and a reduced constant. */
  lemma {:induction false} FormReduced(nodes: seq<Node>, pinned: Pinned, i: nat)
    requires Ordered(nodes) && i < |nodes| && FormOf(nodes, pinned, i).Some? && CanonicalPins(pinned)
    ensures Reduced(FormOf(nodes, pinned, i).value.terms) && Canonical(FormOf(nodes, pinned, i).value.constant)
    decreases i
  {
    hide Combine, Scale;
    assert ArgsBefore(nodes[i], i);
    match nodes[i]
    case Const(_) =>
    case Col(_) =>
    case Neg(a) =>
      FormReduced(nodes, pinned, a);
      ScaleReduced(FormOf(nodes, pinned, a).value, P - 1);
    case Add(l, r) =>
      FormReduced(nodes, pinned, l);
      CombineReduced(FormOf(nodes, pinned, l).value, FormOf(nodes, pinned, r).value, 1);
    case Sub(l, r) =>
      FormReduced(nodes, pinned, l);
      CombineReduced(FormOf(nodes, pinned, l).value, FormOf(nodes, pinned, r).value, P - 1);
    case Mul(l, r) =>
      var f, g := FormOf(nodes, pinned, l).value, FormOf(nodes, pinned, r).value;
      if f.terms == map[] { ScaleReduced(g, f.constant); } else { ScaleReduced(f, g.constant); }
  }

  lemma ScaleReduced(f: Form, factor: int)
    ensures Reduced(Scale(f, factor).terms) && Canonical(Scale(f, factor).constant)
  {
  }

  lemma CombineReduced(f: Form, g: Form, sign: int)
    requires Reduced(f.terms)
    ensures Reduced(Combine(f, g, sign).terms) && Canonical(Combine(f, g, sign).constant)
  {
    hide Scale;
  }

  /** A vanishing constraint puts every row that obeys the pins on its line. */
  lemma ConstraintLineSound(s: System, pinned: Pinned, c: nat, row: Row)
    requires WellFormed(s.nodes, row.Keys) && c < |s.nodes| && Obeys(row, pinned) && CanonicalPins(pinned)
    requires Value(s.nodes, c, row) % P == 0 && ConstraintLine(s, pinned, c).Some?
    ensures OnLine(ConstraintLine(s, pinned, c).value, row)
  {
    hide FormOf, Value, FactorsOf, OnLine;
    var factors := FactorsOf(s.nodes, c);
    var forms := FactorForms(s, pinned, factors);
    FactorsVanish(s.nodes, c, row);
    var k :| 0 <= k < |factors| && Value(s.nodes, factors[k], row) % P == 0;
    EveryFactorRead(forms);
    assert forms[k] == FormOf(s.nodes, pinned, factors[k]);
    FormSound(s.nodes, pinned, factors[k], row);
    CongruentResidues(FormValue(forms[k].value, row), Value(s.nodes, factors[k], row));
    forall i | 0 <= i < |forms| && forms[i].Some? ensures Canonical(forms[i].value.constant) {
      FormReduced(s.nodes, pinned, factors[i]);
    }
    ReadSound(forms, k, row);
  }

  lemma {:induction false} EveryFactorRead(forms: seq<Option<Form>>)
    requires ReadFactors(forms).Some?
    ensures forall k | 0 <= k < |forms| :: forms[k].Some?
  {
    if forms != [] { EveryFactorRead(forms[..|forms| - 1]); }
  }

  // --- the lines of all constraints -----------------------------------------

  type Lines = map<Direction, set<int>>

  /** A further line narrows what is known, unless it contradicts it. */
  function AddLine(lines: Lines, line: Line): Lines {
    if line.direction !in lines then lines[line.direction := line.roots]
    else if lines[line.direction] * line.roots == {} then lines
    else lines[line.direction := lines[line.direction] * line.roots]
  }

  ghost function LinesOf(s: System, pinned: Pinned, constraints: seq<nat>): Lines
    requires Ordered(s.nodes) && Inside(s.nodes, constraints)
  {
    if constraints == [] then map[]
    else
      var n := |constraints| - 1;
      var before, line := LinesOf(s, pinned, constraints[..n]), ConstraintLine(s, pinned, constraints[n]);
      if line.None? then before else AddLine(before, line.value)
  }

  ghost predicate OnLines(lines: Lines, row: Row) {
    forall direction | direction in lines :: OnLine(Line(direction, lines[direction]), row)
  }

  ghost predicate AllVanish(s: System, constraints: seq<nat>, row: Row)
    requires WellFormed(s.nodes, row.Keys) && Inside(s.nodes, constraints)
  {
    forall k | 0 <= k < |constraints| :: Value(s.nodes, constraints[k], row) % P == 0
  }

  lemma AcceptedVanishes(s: System, row: Row)
    requires Loaded(s) && Accepts(s, row)
    ensures WellFormed(s.nodes, row.Keys) && Inside(s.nodes, s.constraints) && AllVanish(s, s.constraints, row)
  {
    forall k | 0 <= k < |s.constraints| ensures Value(s.nodes, s.constraints[k], row) % P == 0 {
      assert Residue(s, s.constraints[k], row) == 0;
    }
  }

  lemma AddedLine(lines: Lines, line: Line, row: Row)
    requires OnLines(lines, row) && OnLine(line, row)
    ensures OnLines(AddLine(lines, line), row)
  {
    hide Along;
  }

  lemma {:induction false} LinesSound(s: System, pinned: Pinned, constraints: seq<nat>, row: Row)
    requires WellFormed(s.nodes, row.Keys) && Inside(s.nodes, constraints) && AllVanish(s, constraints, row)
    requires Obeys(row, pinned) && CanonicalPins(pinned)
    ensures OnLines(LinesOf(s, pinned, constraints), row)
  {
    hide ConstraintLine, OnLine, Value, AddLine;
    if constraints != [] {
      var n := |constraints| - 1;
      LinesSound(s, pinned, constraints[..n], row);
      var line := ConstraintLine(s, pinned, constraints[n]);
      if line.Some? {
        ConstraintLineSound(s, pinned, constraints[n], row);
        AddedLine(LinesOf(s, pinned, constraints[..n]), line.value, row);
      }
    }
  }

  // --- node values ----------------------------------------------------------

  function PointAt(scale: int, root: int, constant: int): int {
    (scale * root + constant) % P
  }

  /** The values the lines allow a form; none if they say nothing about it. */
  ghost function ValuesOn(lines: Lines, form: Option<Form>): set<int> {
    if form.None? || form.value.terms == map[] || DirectionOf(form.value.terms) !in lines then {}
    else
      var lead, roots := Lead(form.value.terms), lines[DirectionOf(form.value.terms)];
      set r | r in roots :: PointAt(lead, r, form.value.constant)
  }

  /** The lead is not zero, or the whole form is. */
  ghost predicate Led(terms: map<string, int>) {
    terms != map[] ==> Lead(terms) != 0 || AllZero(terms)
  }

  /** Where a form splits, the values read off its line are right. */
  lemma ValuesSound(lines: Lines, form: Form, row: Row)
    requires OnLines(lines, row) && ValuesOn(lines, Some(form)) != {} && Reduced(form.terms) && Led(form.terms)
    ensures FormValue(form, row) % P in ValuesOn(lines, Some(form))
  {
    hide FormValue, DirectionOf, Along;
    var direction, lead := DirectionOf(form.terms), Lead(form.terms);
    SplitsWhen(form, row);
    assert OnLine(Line(direction, lines[direction]), row);
    var along := Along(direction, row);
    assert along % P in lines[direction];
    hide Lead;
    PointOnLine(FormValue(form, row), lead, along, form.constant);
    assert PointAt(lead, along % P, form.constant) in ValuesOn(lines, Some(form));
  }

  lemma PointOnLine(v: int, lead: int, along: int, constant: int)
    requires Congruent(v, lead * along + constant)
    ensures v % P == PointAt(lead, along % P, constant)
  {
    ReducedIsCongruent(along);
    CongruentTimes(along % P, along, lead);
    CongruentSum(lead * (along % P), lead * along, constant, constant);
    hide Congruent;
    CongruentResidues(v, lead * along + constant);
    CongruentResidues(lead * (along % P) + constant, lead * along + constant);
  }

  // --- the analysis itself --------------------------------------------------

  method Direct(form: Form) returns (direction: Direction, lead: int)
    requires form.terms != map[]
    ensures direction == DirectionOf(form.terms) && lead == Lead(form.terms)
  {
    var name := Least(form.terms.Keys);
    lead := form.terms[name];
    var inverse := Inverse(lead);
    direction := map n | n in form.terms :: form.terms[n] * inverse % P;
  }

  method ReadConstraint(s: System, ghost pinned: Pinned, c: nat, forms: seq<Option<Form>>)
    returns (line: Option<Line>)
    requires Ordered(s.nodes) && c < |s.nodes|
    requires |forms| == |s.nodes| && forall i | 0 <= i < |forms| :: forms[i] == FormOf(s.nodes, pinned, i)
    ensures line == ConstraintLine(s, pinned, c)
  {
    hide FormOf, FactorsOf, DirectionOf, Lead, Ordered;
    var factors := Factors(s.nodes, c);
    ghost var all := FactorForms(s, pinned, factors);
    assert all[..|factors|] == all;
    var direction: Option<Direction>, roots: set<int> := None, {};
    for k := 0 to |factors|
      invariant ReadFactors(all[..k]) == Some(Partial(direction, roots))
    {
      var form := forms[factors[k]];
      assert all[..k + 1][..k] == all[..k] && all[..k + 1][k] == form;
      if form.None? || (form.value.terms == map[] && form.value.constant == 0) {
        NoReading(all, k + 1);
        return None;
      }
      if form.value.terms != map[] {
        var d, lead := Direct(form.value);
        if direction.Some? && direction.value != d {
          NoReading(all, k + 1);
          return None;
        }
        direction := Some(d);
        roots := roots + {-form.value.constant * Inverse(lead) % P};
      }
    }
    line := if direction.None? then None else Some(Line(direction.value, roots));
  }

  /** A reading that stopped stays stopped. */
  lemma {:induction false} NoReading(forms: seq<Option<Form>>, k: nat)
    requires k <= |forms| && ReadFactors(forms[..k]).None?
    ensures ReadFactors(forms).None?
    decreases |forms|
  {
    hide DirectionOf, Root;
    if k == |forms| {
      assert forms[..k] == forms;
    } else {
      assert forms[..|forms| - 1][..k] == forms[..k];
      NoReading(forms[..|forms| - 1], k);
    }
  }

  method ReadLines(s: System, ghost pinned: Pinned, forms: seq<Option<Form>>) returns (lines: Lines)
    requires Ordered(s.nodes) && Inside(s.nodes, s.constraints)
    requires |forms| == |s.nodes| && forall i | 0 <= i < |forms| :: forms[i] == FormOf(s.nodes, pinned, i)
    ensures lines == LinesOf(s, pinned, s.constraints)
  {
    hide FormOf, ConstraintLine, Ordered;
    lines := map[];
    for k := 0 to |s.constraints|
      invariant lines == LinesOf(s, pinned, s.constraints[..k])
    {
      var line := ReadConstraint(s, pinned, s.constraints[k], forms);
      assert s.constraints[..k + 1][..k] == s.constraints[..k];
      if line.Some? {
        lines := AddLine(lines, line.value);
      }
    }
    assert s.constraints[..|s.constraints|] == s.constraints;
  }

  /** The values the constraints allow a node. */
  ghost function NodeValues(s: System, pinned: Pinned, i: nat): set<int>
    requires Ordered(s.nodes) && Inside(s.nodes, s.constraints) && i < |s.nodes|
  {
    ValuesOn(LinesOf(s, pinned, s.constraints), FormOf(s.nodes, pinned, i))
  }

  method ReadValues(lines: Lines, form: Option<Form>) returns (found: set<int>)
    ensures found == ValuesOn(lines, form)
  {
    hide DirectionOf, Lead;
    found := {};
    if form.Some? && form.value.terms != map[] {
      var direction, lead := Direct(form.value);
      if direction in lines {
        var constant := form.value.constant;
        found := set r | r in lines[direction] :: PointAt(lead, r, constant);
      }
    }
  }

  /** For every node the values the constraints allow it; none where they do not confine it. */
  method ConstrainedNodeValues(s: System, pinned: Pinned) returns (values: seq<set<int>>)
    requires Ordered(s.nodes) && Inside(s.nodes, s.constraints)
    ensures |values| == |s.nodes| && forall i | 0 <= i < |values| :: values[i] == NodeValues(s, pinned, i)
  {
    var forms := ExpandArena(s.nodes, pinned);
    hide FormOf, LinesOf, ValuesOn;
    var lines := ReadLines(s, pinned, forms);
    values := [];
    for i := 0 to |s.nodes|
      invariant |values| == i && forall j | 0 <= j < i :: values[j] == ValuesOn(lines, forms[j])
    {
      var found := ReadValues(lines, forms[i]);
      values := values + [found];
    }
  }

  /** A node whose form splits takes one of its listed values in every row that satisfies the constraints. */
  lemma NodeValuesSound(s: System, pinned: Pinned, i: nat, row: Row)
    requires WellFormed(s.nodes, row.Keys) && Inside(s.nodes, s.constraints) && AllVanish(s, s.constraints, row)
    requires Obeys(row, pinned) && CanonicalPins(pinned) && i < |s.nodes|
    requires NodeValues(s, pinned, i) != {} && Led(FormOf(s.nodes, pinned, i).value.terms)
    ensures Value(s.nodes, i, row) % P in NodeValues(s, pinned, i)
  {
    hide FormOf, FormValue, LinesOf, OnLines, Value, Led;
    LinesSound(s, pinned, s.constraints, row);
    FormReduced(s.nodes, pinned, i);
    FormSound(s.nodes, pinned, i, row);
    var form := FormOf(s.nodes, pinned, i).value;
    ValuesSound(LinesOf(s, pinned, s.constraints), form, row);
    CongruentResidues(FormValue(form, row), Value(s.nodes, i, row));
  }

  // --- nothing a constraint says of a line is missed ------------------------

  /** Every factor has a form, none vanishes by itself, at least one has terms, and those point the same way. */
  ghost predicate Collinear(forms: seq<Option<Form>>, direction: Direction) {
    && (forall k | 0 <= k < |forms| :: forms[k].Some? && !Vanishes(forms[k].value))
    && (forall k | 0 <= k < |forms| && forms[k].value.terms != map[] :: DirectionOf(forms[k].value.terms) == direction)
    && exists k | 0 <= k < |forms| :: forms[k].value.terms != map[]
  }

  predicate Vanishes(form: Form) {
    form.terms == map[] && form.constant == 0
  }

  ghost predicate RootsOf(forms: seq<Option<Form>>, roots: set<int>) {
    forall r :: r in roots <==>
      exists k :: 0 <= k < |forms| && forms[k].Some? && forms[k].value.terms != map[] && Root(forms[k].value) == r
  }

  lemma {:induction false} RootsAre(forms: seq<Option<Form>>)
    requires ReadFactors(forms).Some?
    ensures RootsOf(forms, ReadFactors(forms).value.roots)
  {
    hide DirectionOf, Root;
    if forms != [] {
      var n := |forms| - 1;
      RootsAre(forms[..n]);
      var roots := ReadFactors(forms).value.roots;
      forall r ensures r in roots <==>
        exists k :: 0 <= k < |forms| && forms[k].Some? && forms[k].value.terms != map[] && Root(forms[k].value) == r
      {
        if k :| 0 <= k < n && forms[..n][k].Some? && forms[..n][k].value.terms != map[]
                && Root(forms[..n][k].value) == r {
          assert forms[k] == forms[..n][k];
        }
        if k :| 0 <= k < n && forms[k].Some? && forms[k].value.terms != map[] && Root(forms[k].value) == r {
          assert forms[..n][k] == forms[k];
        }
      }
    }
  }

  /** What has been read: the direction, once there was a term. */
  lemma {:induction false} ReadDirection(forms: seq<Option<Form>>, direction: Direction)
    requires forall k | 0 <= k < |forms| :: forms[k].Some? && !Vanishes(forms[k].value)
    requires forall k | 0 <= k < |forms| && forms[k].value.terms != map[] ::
               DirectionOf(forms[k].value.terms) == direction
    ensures ReadFactors(forms).Some?
    ensures ReadFactors(forms).value.direction
         == if exists k | 0 <= k < |forms| :: forms[k].value.terms != map[] then Some(direction) else None
  {
    hide DirectionOf, Root;
    if forms != [] {
      var n := |forms| - 1;
      assert forall k | 0 <= k < n :: forms[..n][k] == forms[k];
      ReadDirection(forms[..n], direction);
    }
  }

  lemma {:induction false} ReadCollinear(forms: seq<Option<Form>>)
    requires ReadFactors(forms).Some?
    ensures forall k | 0 <= k < |forms| :: forms[k].Some? && !Vanishes(forms[k].value)
    ensures forall k | 0 <= k < |forms| && forms[k].value.terms != map[] ::
              ReadFactors(forms).value.direction == Some(DirectionOf(forms[k].value.terms))
  {
    hide DirectionOf, Root;
    if forms != [] {
      var n := |forms| - 1;
      ReadCollinear(forms[..n]);
      assert forall k | 0 <= k < n :: forms[..n][k] == forms[k];
    }
  }

  /** The factors have a line exactly if they are collinear; its roots are theirs. */
  lemma LineExactly(forms: seq<Option<Form>>, line: Line)
    ensures LineOf(ReadFactors(forms)) == Some(line) <==> Collinear(forms, line.direction) && RootsOf(forms, line.roots)
  {
    hide DirectionOf, Root;
    if Collinear(forms, line.direction) {
      ReadDirection(forms, line.direction);
    }
    if ReadFactors(forms).Some? {
      ReadCollinear(forms);
      RootsAre(forms);
      SameRoots(forms, ReadFactors(forms).value.roots, line.roots);
      if ReadFactors(forms).value.direction.Some? { SomeTerms(forms); }
    }
  }

  lemma SameRoots(forms: seq<Option<Form>>, a: set<int>, b: set<int>)
    requires RootsOf(forms, a)
    ensures RootsOf(forms, b) <==> a == b
  {
    hide Root;
    if RootsOf(forms, b) {
      assert forall r :: r in a <==> r in b;
    }
  }

  lemma {:induction false} SomeTerms(forms: seq<Option<Form>>)
    requires ReadFactors(forms).Some? && ReadFactors(forms).value.direction.Some?
    ensures exists k | 0 <= k < |forms| :: forms[k].Some? && forms[k].value.terms != map[]
  {
    hide DirectionOf, Root;
    var n := |forms| - 1;
    if forms[n].value.terms == map[] {
      SomeTerms(forms[..n]);
      var k :| 0 <= k < n && forms[..n][k].Some? && forms[..n][k].value.terms != map[];
      assert forms[k] == forms[..n][k];
    }
  }

  /** A node is confined exactly if its form has terms and points along a line with a root. */
  lemma ConfinedExactly(s: System, pinned: Pinned, i: nat)
    requires Ordered(s.nodes) && Inside(s.nodes, s.constraints) && i < |s.nodes|
    ensures NodeValues(s, pinned, i) != {} <==>
              var form := FormOf(s.nodes, pinned, i); var lines := LinesOf(s, pinned, s.constraints);
              form.Some? && form.value.terms != map[] && DirectionOf(form.value.terms) in lines
              && lines[DirectionOf(form.value.terms)] != {}
  {
    hide FormOf, LinesOf, DirectionOf, Lead;
    var form, lines := FormOf(s.nodes, pinned, i), LinesOf(s, pinned, s.constraints);
    if form.Some? && form.value.terms != map[] && DirectionOf(form.value.terms) in lines
       && lines[DirectionOf(form.value.terms)] != {}
    {
      HasMember(lines[DirectionOf(form.value.terms)]);
      var r :| r in lines[DirectionOf(form.value.terms)];
      assert PointAt(Lead(form.value.terms), r, form.value.constant) in NodeValues(s, pinned, i);
    }
  }
}
