/**
  The constraint x * (1 - x): the bounds the analysis implies for its column
  never leave [0, 1].
*/
module BitBounds {
  import opened Basics
  import opened RelationBus
  import opened FieldInverse
  import opened LinearForms
  import opened AirSystem
  import opened ColumnLines
  import opened ColumnBounds
  import FieldPrime

  /** 1 - x. */
  predicate Complement(nodes: seq<Node>, i: nat, x: string)
    requires Ordered(nodes) && i < |nodes|
  {
    assert ArgsBefore(nodes[i], i);
    nodes[i].Sub? && nodes[nodes[i].lhs] == Const(1) && nodes[nodes[i].rhs] == Col(x)
  }

  /** x * (1 - x), the shape every bit constraint has. */
  predicate BitConstraint(nodes: seq<Node>, c: nat, x: string)
    requires Ordered(nodes) && c < |nodes|
  {
    assert ArgsBefore(nodes[c], c);
    nodes[c].Mul? && nodes[nodes[c].lhs] == Col(x) && Complement(nodes, nodes[c].rhs, x)
  }

  /** A single term. */
  function Term(x: string, c: int): (terms: map<string, int>)
    ensures terms != map[] && terms.Keys == {x} && terms[x] == c
  {
    assert x in map[x := c];
    map[x := c]
  }

  lemma UnitInverse()
    ensures Inverse(1) == 1 && Inverse(P - 1) == P - 1
  {
    var r := Inverse(P - 1);
    assert (P - 1) * r == P * r - r;
  }

  lemma TermLead(x: string, c: int)
    ensures Lead(Term(x, c)) == c
  {
    assert LeadName(Term(x, c)) == x;
  }

  lemma TermDirection(x: string, c: int)
    requires c == 1 || c == P - 1
    ensures DirectionOf(Term(x, c)) == Term(x, 1)
  {
    hide Lead, Term;
    TermLead(x, c);
    UnitInverse();
    assert c * Inverse(c) % P == 1;
  }

  lemma TermRoot(x: string, c: int)
    requires c == 1 || c == P - 1
    ensures Root(Form(Term(x, c), if c == 1 then 0 else 1)) == if c == 1 then 0 else 1
  {
    hide Lead, Term;
    TermLead(x, c);
    UnitInverse();
  }

  lemma ColumnNode(nodes: seq<Node>, pinned: Pinned, i: nat, x: string)
    requires Ordered(nodes) && i < |nodes| && nodes[i] == Col(x) && x !in pinned
    ensures FormOf(nodes, pinned, i) == Some(Form(Term(x, 1), 0)) && FactorsOf(nodes, i) == [i]
  {
  }

  lemma ComplementNode(nodes: seq<Node>, pinned: Pinned, i: nat, x: string)
    requires Ordered(nodes) && i < |nodes| && Complement(nodes, i, x) && x !in pinned
    ensures FormOf(nodes, pinned, i) == Some(Form(Term(x, P - 1), 1)) && FactorsOf(nodes, i) == [i]
  {
    assert ArgsBefore(nodes[i], i);
    assert FormOf(nodes, pinned, nodes[i].lhs) == Some(Form(map[], 1));
    ColumnNode(nodes, pinned, nodes[i].rhs, x);
    OneMinus(x);
  }

  lemma OneMinus(x: string)
    ensures Combine(Form(map[], 1), Form(Term(x, 1), 0), P - 1) == Form(Term(x, P - 1), 1)
  {
    var out := Combine(Form(map[], 1), Form(Term(x, 1), 0), P - 1);
    assert out.terms == Term(x, P - 1);
  }

  /** Its line is the column itself, with roots zero and one. */
  lemma BitLine(s: System, pinned: Pinned, c: nat, x: string)
    requires Ordered(s.nodes) && c < |s.nodes| && BitConstraint(s.nodes, c, x) && x !in pinned
    ensures ConstraintLine(s, pinned, c) == Some(Line(Term(x, 1), {0, 1}))
  {
    var l, r := s.nodes[c].lhs, s.nodes[c].rhs;
    assert ArgsBefore(s.nodes[c], c);
    ColumnNode(s.nodes, pinned, l, x);
    ComplementNode(s.nodes, pinned, r, x);
    assert FactorsOf(s.nodes, c) == [r, l];
    hide FormOf, FactorsOf, Complement;
    var forms := FactorForms(s, pinned, FactorsOf(s.nodes, c));
    assert forms == [Some(Form(Term(x, P - 1), 1)), Some(Form(Term(x, 1), 0))];
    hide FactorForms;
    BitReading(x);
  }

  lemma BitReading(x: string)
    ensures ReadFactors([Some(Form(Term(x, P - 1), 1)), Some(Form(Term(x, 1), 0))])
         == Some(Partial(Some(Term(x, 1)), {0, 1}))
  {
    var right, left := Form(Term(x, P - 1), 1), Form(Term(x, 1), 0);
    TermDirection(x, 1);
    TermDirection(x, P - 1);
    TermRoot(x, 1);
    TermRoot(x, P - 1);
    hide DirectionOf, Root, Term;
    FirstReading(right);
    assert [Some(right), Some(left)][..1] == [Some(right)];
    assert {1} + {0} == {0, 1};
  }

  lemma FirstReading(form: Form)
    requires form.terms != map[]
    ensures ReadFactors([Some(form)]) == Some(Partial(Some(DirectionOf(form.terms)), {Root(form)}))
  {
    hide DirectionOf, Root;
    assert [Some(form)][..0] == [];
    assert {} + {Root(form)} == {Root(form)};
  }

  /** A row on all lines leaves a line at most the roots of any constraint along it. */
  lemma {:induction false} LinesCover(s: System, pinned: Pinned, constraints: seq<nat>, k: nat, line: Line, row: Row)
    requires WellFormed(s.nodes, row.Keys) && Inside(s.nodes, constraints) && AllVanish(s, constraints, row)
    requires Obeys(row, pinned) && CanonicalPins(pinned)
    requires k < |constraints| && ConstraintLine(s, pinned, constraints[k]) == Some(line)
    ensures var lines := LinesOf(s, pinned, constraints);
            line.direction in lines && lines[line.direction] != {} && lines[line.direction] <= line.roots
  {
    hide ConstraintLine, OnLine, Value, Along;
    var n := |constraints| - 1;
    var before, last := LinesOf(s, pinned, constraints[..n]), ConstraintLine(s, pinned, constraints[n]);
    LinesSound(s, pinned, constraints[..n], row);
    if last.Some? { ConstraintLineSound(s, pinned, constraints[n], row); }
    if k < n {
      LinesCover(s, pinned, constraints[..n], k, line, row);
      if last.Some? { CoverKept(before, last.value, line); }
    } else {
      NewCover(before, line, row);
    }
  }

  lemma CoverKept(lines: Lines, more: Line, line: Line)
    requires line.direction in lines && lines[line.direction] != {} && lines[line.direction] <= line.roots
    ensures var after := AddLine(lines, more);
            line.direction in after && after[line.direction] != {} && after[line.direction] <= line.roots
  {
  }

  lemma NewCover(lines: Lines, line: Line, row: Row)
    requires OnLines(lines, row) && OnLine(line, row)
    ensures var after := AddLine(lines, line);
            line.direction in after && after[line.direction] != {} && after[line.direction] <= line.roots
  {
    hide Along;
    if line.direction in lines {
      assert OnLine(Line(line.direction, lines[line.direction]), row);
      assert Along(line.direction, row) % P in lines[line.direction] * line.roots;
    }
  }

  lemma BitValue(s: System, c: nat, x: string, row: Row)
    requires WellFormed(s.nodes, row.Keys) && c < |s.nodes| && BitConstraint(s.nodes, c, x)
    ensures x in row && Value(s.nodes, c, row) == row[x] * (1 - row[x])
  {
    assert Value(s.nodes, s.nodes[c].lhs, row) == row[x];
    ComplementValue(s, s.nodes[c].rhs, x, row);
  }

  lemma ComplementValue(s: System, i: nat, x: string, row: Row)
    requires WellFormed(s.nodes, row.Keys) && i < |s.nodes| && Complement(s.nodes, i, x)
    ensures x in row && Value(s.nodes, i, row) == 1 - row[x]
  {
    assert Value(s.nodes, s.nodes[i].lhs, row) == 1;
    assert Value(s.nodes, s.nodes[i].rhs, row) == row[x];
  }

  lemma FieldBit(v: int)
    requires Canonical(v) && v * (1 - v) % P == 0
    ensures 0 <= v <= 1
  {
    FieldPrime.ProductVanishes(v, 1 - v);
  }

  /** Where the constraint holds, the column is a bit. */
  lemma BitHolds(s: System, k: nat, x: string, row: Row)
    requires Loaded(s) && Accepts(s, row) && k < |s.constraints| && BitConstraint(s.nodes, s.constraints[k], x)
    ensures x in row && 0 <= row[x] <= 1
  {
    AcceptedVanishes(s, row);
    BitValue(s, s.constraints[k], x, row);
    assert Canonical(row[x]) && Value(s.nodes, s.constraints[k], row) % P == 0;
    hide Accepts, Loaded, Value, BitConstraint;
    FieldBit(row[x]);
  }

  /** A bit constraint confines its column to [0, 1] in the implied bounds, if any row is accepted. */
  lemma BitBounded(s: System, bounds: Bounds, k: nat, x: string, row: Row)
    requires Loaded(s) && Implied(s, bounds) && Accepts(s, row)
    requires k < |s.constraints| && BitConstraint(s.nodes, s.constraints[k], x)
    ensures x in bounds && 0 <= bounds[x].lo && bounds[x].hi <= 1
  {
    AcceptedVanishes(s, row);
    ImpliedSound(s, bounds);
    BitHolds(s, k, x, row);
    WithinObeys(row, bounds);
    PinsCanonical(bounds);
    hide Implied, Loaded, Accepts, AllVanish, ConstraintLine;
    if x !in Pins(bounds) {
      BitLine(s, Pins(bounds), s.constraints[k], x);
      LinesCover(s, Pins(bounds), s.constraints, k, Line(Term(x, 1), {0, 1}), row);
      BitClaim(s, bounds, s.constraints[k], x);
    }
  }

  lemma BitClaim(s: System, bounds: Bounds, c: nat, x: string)
    requires Loaded(s) && Implied(s, bounds) && x in bounds
    requires c < |s.nodes| && BitConstraint(s.nodes, c, x) && x !in Pins(bounds)
    requires var lines := LinesOf(s, Pins(bounds), s.constraints);
             Term(x, 1) in lines && lines[Term(x, 1)] != {} && lines[Term(x, 1)] <= {0, 1}
    ensures 0 <= bounds[x].lo && bounds[x].hi <= 1
  {
    var pinned, i := Pins(bounds), s.nodes[c].lhs;
    ColumnNode(s.nodes, pinned, i, x);
    BitValues(LinesOf(s, pinned, s.constraints), x);
    hide FormOf, LinesOf, Pins, Term, Loaded;
    var values := NodeValues(s, pinned, i);
    hide NodeValues, BitConstraint;
    BitEnds(values);
    var claim := Claim(x, if 0 in values then 0 else 1, if 1 in values then 1 else 0);
    assert FromLine(s, pinned, i, claim);
    assert Source(s, pinned, claim);
  }

  lemma BitValues(lines: Lines, x: string)
    requires Term(x, 1) in lines && lines[Term(x, 1)] != {} && lines[Term(x, 1)] <= {0, 1}
    ensures var values := ValuesOn(lines, Some(Form(Term(x, 1), 0))); values != {} && values <= {0, 1}
  {
    TermDirection(x, 1);
    TermLead(x, 1);
    hide DirectionOf, Lead, Term;
    var roots := lines[Term(x, 1)];
    HasMember(roots);
    var some :| some in roots;
    assert PointAt(1, some, 0) in ValuesOn(lines, Some(Form(Term(x, 1), 0)));
    assert forall r | r in roots :: PointAt(1, r, 0) == r;
  }

  lemma BitEnds(values: set<int>)
    requires values != {} && values <= {0, 1}
    ensures Ends(values, if 0 in values then 0 else 1, if 1 in values then 1 else 0)
  {
    HasMember(values);
  }
}
