/**
  Expression arenas of one AIR row over the Mersenne-31 field, and their
  expansion into linear forms.
*/
module LinearForms {
  import opened Basics
  import opened RelationBus
  import opened FieldInverse
  import FieldPrime

  /** One node of an arena; arguments are strictly earlier nodes. */
  datatype Node =
    | Const(value: int)
    | Col(name: string)
    | Neg(arg: nat)
    | Add(lhs: nat, rhs: nat)
    | Sub(lhs: nat, rhs: nat)
    | Mul(lhs: nat, rhs: nat)

  type Row = map<string, int>

  /** Columns that read as a constant. */
  type Pinned = map<string, int>

  predicate Obeys(row: Row, pinned: Pinned) {
    forall n | n in pinned && n in row :: row[n] == pinned[n]
  }

  predicate Ordered(nodes: seq<Node>) {
    forall k | 0 <= k < |nodes| :: ArgsBefore(nodes[k], k)
  }

  predicate ArgsBefore(node: Node, i: nat) {
    match node
    case Const(_) => true
    case Col(_) => true
    case Neg(a) => a < i
    case Add(l, r) => l < i && r < i
    case Sub(l, r) => l < i && r < i
    case Mul(l, r) => l < i && r < i
  }

  predicate WellFormed(nodes: seq<Node>, columns: set<string>) {
    forall i | 0 <= i < |nodes| ::
      ArgsBefore(nodes[i], i) && (nodes[i].Col? ==> nodes[i].name in columns)
  }

  /** The exact integer a node stands for in a row. */
  function Value(nodes: seq<Node>, i: nat, row: Row): int
    requires WellFormed(nodes, row.Keys) && i < |nodes|
    decreases i
  {
    match nodes[i]
    case Const(v) => v
    case Col(name) => row[name]
    case Neg(a) => -Value(nodes, a, row)
    case Add(l, r) => Value(nodes, l, row) + Value(nodes, r, row)
    case Sub(l, r) => Value(nodes, l, row) - Value(nodes, r, row)
    case Mul(l, r) => Value(nodes, l, row) * Value(nodes, r, row)
  }

  // --- linear forms ---------------------------------------------------------

  /** A sum of coefficients times columns, plus a constant. */
  datatype Form = Form(terms: map<string, int>, constant: int)

  function Coefficient(terms: map<string, int>, name: string): int {
    if name in terms then terms[name] else 0
  }

  ghost function SumOn(names: set<string>, terms: map<string, int>, row: Row): int
    requires names <= row.Keys
  {
    if names == {} then 0
    else
      var name :| name in names;
      Coefficient(terms, name) * row[name] + SumOn(names - {name}, terms, row)
  }

  /** Any name can be taken out first. */
  lemma {:induction false} SumOnRemove(names: set<string>, terms: map<string, int>, row: Row, name: string)
    requires names <= row.Keys && name in names
    ensures SumOn(names, terms, row) == Coefficient(terms, name) * row[name] + SumOn(names - {name}, terms, row)
  {
    var first :| first in names && SumOn(names, terms, row)
      == Coefficient(terms, first) * row[first] + SumOn(names - {first}, terms, row);
    if first != name {
      SumOnRemove(names - {first}, terms, row, name);
      SumOnRemove(names - {name}, terms, row, first);
      assert names - {first} - {name} == names - {name} - {first};
    }
  }

  ghost function FormValue(f: Form, row: Row): int {
    SumOn(row.Keys, f.terms, row) + f.constant
  }

  function Scale(f: Form, factor: int): Form {
    Form(map name | name in f.terms :: (f.terms[name] * factor) % P, (f.constant * factor) % P)
  }

  /** Coefficient-wise sum; a coefficient the second form cancels is dropped. */
  function Combine(lhs: Form, rhs: Form, sign: int): Form {
    var scaled := Scale(rhs, sign);
    Form(map name | name in lhs.terms.Keys + scaled.terms.Keys
           && (name in scaled.terms ==> (Coefficient(lhs.terms, name) + scaled.terms[name]) % P != 0)
         :: if name in scaled.terms then (Coefficient(lhs.terms, name) + scaled.terms[name]) % P else lhs.terms[name],
         (lhs.constant + scaled.constant) % P)
  }

  function ColumnAs(name: string, pinned: Pinned): Form {
    if name in pinned then Form(map[], pinned[name]) else Form(map[name := 1], 0)
  }

  /** A node's expansion, if it has degree at most one. */
  function FormOf(nodes: seq<Node>, pinned: Pinned, i: nat): Option<Form>
    requires i < |nodes| && Ordered(nodes)
    decreases i
  {
    assert ArgsBefore(nodes[i], i);
    match nodes[i]
    case Const(v) => Some(Form(map[], v % P))
    case Col(name) => Some(ColumnAs(name, pinned))
    case Neg(a) =>
      var inner := FormOf(nodes, pinned, a);
      if inner.None? then None else Some(Scale(inner.value, P - 1))
    case Add(l, r) =>
      var lhs, rhs := FormOf(nodes, pinned, l), FormOf(nodes, pinned, r);
      if lhs.None? || rhs.None? then None else Some(Combine(lhs.value, rhs.value, 1))
    case Sub(l, r) =>
      var lhs, rhs := FormOf(nodes, pinned, l), FormOf(nodes, pinned, r);
      if lhs.None? || rhs.None? then None else Some(Combine(lhs.value, rhs.value, P - 1))
    case Mul(l, r) =>
      var lhs, rhs := FormOf(nodes, pinned, l), FormOf(nodes, pinned, r);
      if lhs.None? || rhs.None? then None
      else if lhs.value.terms == map[] then Some(Scale(rhs.value, lhs.value.constant))
      else if rhs.value.terms == map[] then Some(Scale(lhs.value, rhs.value.constant))
      else None
  }

  method CombineForms(lhs: Form, rhs: Form, sign: int) returns (f: Form)
    ensures f == Combine(lhs, rhs, sign)
  {
    var scaled := Scale(rhs, sign);
    var terms := lhs.terms;
    var rest := scaled.terms.Keys;
    while rest != {}
      invariant rest <= scaled.terms.Keys
      invariant forall name | name in rest || name !in scaled.terms ::
                  (name in terms <==> name in lhs.terms) && (name in terms ==> terms[name] == lhs.terms[name])
      invariant forall name | name in scaled.terms && name !in rest ::
                  var merged := (Coefficient(lhs.terms, name) + scaled.terms[name]) % P;
                  (name in terms <==> merged != 0) && (name in terms ==> terms[name] == merged)
      decreases rest
    {
      var name :| name in rest;
      var merged := (Coefficient(terms, name) + scaled.terms[name]) % P;
      if merged != 0 {
        terms := terms[name := merged];
      } else {
        terms := terms - {name};
      }
      rest := rest - {name};
    }
    f := Form(terms, (lhs.constant + scaled.constant) % P);
    assert f.terms == Combine(lhs, rhs, sign).terms;
  }

  /** One pass over the arena expands every node. */
  method ExpandArena(nodes: seq<Node>, pinned: Pinned) returns (out: seq<Option<Form>>)
    requires Ordered(nodes)
    ensures |out| == |nodes| && forall i | 0 <= i < |nodes| :: out[i] == FormOf(nodes, pinned, i)
  {
    hide Combine, Scale;
    out := [];
    for i := 0 to |nodes|
      invariant |out| == i && forall k | 0 <= k < i :: out[k] == FormOf(nodes, pinned, k)
    {
      assert ArgsBefore(nodes[i], i);
      var next := None;
      match nodes[i] {
        case Const(v) => next := Some(Form(map[], v % P));
        case Col(name) => next := Some(ColumnAs(name, pinned));
        case Neg(a) =>
          if out[a].Some? { next := Some(Scale(out[a].value, P - 1)); }
        case Add(l, r) =>
          if out[l].Some? && out[r].Some? {
            var f := CombineForms(out[l].value, out[r].value, 1);
            next := Some(f);
          }
        case Sub(l, r) =>
          if out[l].Some? && out[r].Some? {
            var f := CombineForms(out[l].value, out[r].value, P - 1);
            next := Some(f);
          }
        case Mul(l, r) =>
          if out[l].Some? && out[r].Some? {
            if out[l].value.terms == map[] {
              next := Some(Scale(out[r].value, out[l].value.constant));
            } else if out[r].value.terms == map[] {
              next := Some(Scale(out[l].value, out[r].value.constant));
            }
          }
      }
      out := out + [next];
    }
  }

  // --- a form means what its node means -------------------------------------

  lemma TermScales(coefficient: int, factor: int, v: int)
    ensures Congruent((coefficient * factor) % P * v, factor * (coefficient * v))
  {
    ReducedIsCongruent(coefficient * factor);
    CongruentTimes((coefficient * factor) % P, coefficient * factor, v);
    assert coefficient * factor * v == factor * (coefficient * v);
  }

  lemma ScaledCoefficient(f: Form, factor: int, name: string)
    ensures Coefficient(Scale(f, factor).terms, name) == (Coefficient(f.terms, name) * factor) % P
  {
  }

  lemma {:induction false} SumScales(names: set<string>, f: Form, factor: int, row: Row)
    requires names <= row.Keys
    ensures Congruent(SumOn(names, Scale(f, factor).terms, row), factor * SumOn(names, f.terms, row))
  {
    hide Scale, Coefficient;
    if names != {} {
      var name :| name in names;
      var rest := names - {name};
      SumOnRemove(names, f.terms, row, name);
      SumOnRemove(names, Scale(f, factor).terms, row, name);
      SumScales(rest, f, factor, row);
      hide SumOn;
      TermScales(Coefficient(f.terms, name), factor, row[name]);
      ScaledCoefficient(f, factor, name);
      CongruentSum(Coefficient(Scale(f, factor).terms, name) * row[name],
                   factor * (Coefficient(f.terms, name) * row[name]),
                   SumOn(rest, Scale(f, factor).terms, row), factor * SumOn(rest, f.terms, row));
      hide Congruent;
      Distribute(factor, Coefficient(f.terms, name) * row[name], SumOn(rest, f.terms, row));
    }
  }

  lemma Distribute(a: int, b: int, c: int)
    ensures a * (b + c) == a * b + a * c
  {
  }

  lemma ScaleSound(f: Form, factor: int, row: Row)
    ensures Congruent(FormValue(Scale(f, factor), row), factor * FormValue(f, row))
  {
    hide Scale;
    SumScales(row.Keys, f, factor, row);
    ReducedIsCongruent(f.constant * factor);
    ScaledConstant(f, factor);
    CongruentSum(SumOn(row.Keys, Scale(f, factor).terms, row), factor * SumOn(row.Keys, f.terms, row),
                 (f.constant * factor) % P, f.constant * factor);
    Distribute(factor, SumOn(row.Keys, f.terms, row), f.constant);
  }

  lemma ScaledConstant(f: Form, factor: int)
    ensures Scale(f, factor).constant == (f.constant * factor) % P
  {
  }

  lemma CombinedLookup(lhs: Form, rhs: Form, sign: int, name: string)
    ensures var scaled := Scale(rhs, sign).terms;
            Coefficient(Combine(lhs, rhs, sign).terms, name)
            == if name in scaled then (Coefficient(lhs.terms, name) + scaled[name]) % P
               else Coefficient(lhs.terms, name)
  {
    hide Scale;
  }

  lemma CombinedCoefficient(lhs: Form, rhs: Form, sign: int, name: string)
    ensures Congruent(Coefficient(Combine(lhs, rhs, sign).terms, name),
                      Coefficient(lhs.terms, name) + Coefficient(Scale(rhs, sign).terms, name))
  {
    CombinedLookup(lhs, rhs, sign, name);
    hide Scale, Combine;
    ReducedIsCongruent(Coefficient(lhs.terms, name) + Coefficient(Scale(rhs, sign).terms, name));
  }

  lemma {:induction false} SumCombines(names: set<string>, lhs: Form, rhs: Form, sign: int, row: Row)
    requires names <= row.Keys
    ensures Congruent(SumOn(names, Combine(lhs, rhs, sign).terms, row),
                      SumOn(names, lhs.terms, row) + SumOn(names, Scale(rhs, sign).terms, row))
  {
    hide Combine, Scale, Coefficient;
    if names != {} {
      var name :| name in names;
      var rest := names - {name};
      var l, s, c := lhs.terms, Scale(rhs, sign).terms, Combine(lhs, rhs, sign).terms;
      SumOnRemove(names, l, row, name);
      SumOnRemove(names, s, row, name);
      SumOnRemove(names, c, row, name);
      SumCombines(rest, lhs, rhs, sign, row);
      CombinedCoefficient(lhs, rhs, sign, name);
      CongruentTimes(Coefficient(c, name), Coefficient(l, name) + Coefficient(s, name), row[name]);
      Distribute(row[name], Coefficient(l, name), Coefficient(s, name));
      CongruentSum(Coefficient(c, name) * row[name],
                   Coefficient(l, name) * row[name] + Coefficient(s, name) * row[name],
                   SumOn(rest, c, row), SumOn(rest, l, row) + SumOn(rest, s, row));
    }
  }

  lemma CombineSound(lhs: Form, rhs: Form, sign: int, row: Row)
    ensures Congruent(FormValue(Combine(lhs, rhs, sign), row), FormValue(lhs, row) + sign * FormValue(rhs, row))
  {
    CombineAdds(lhs, rhs, sign, row);
    ScaleSound(rhs, sign, row);
    hide Combine, Scale, FormValue;
    SumOfCongruents(FormValue(Combine(lhs, rhs, sign), row), FormValue(lhs, row),
                    FormValue(Scale(rhs, sign), row), sign * FormValue(rhs, row));
  }

  lemma SumOfCongruents(total: int, a: int, b: int, c: int)
    requires Congruent(total, a + b) && Congruent(b, c)
    ensures Congruent(total, a + c)
  {
  }

  lemma CombineAdds(lhs: Form, rhs: Form, sign: int, row: Row)
    ensures Congruent(FormValue(Combine(lhs, rhs, sign), row), FormValue(lhs, row) + FormValue(Scale(rhs, sign), row))
  {
    var scaled, f := Scale(rhs, sign), Combine(lhs, rhs, sign);
    SumCombines(row.Keys, lhs, rhs, sign, row);
    assert f.constant == (lhs.constant + scaled.constant) % P;
    hide Combine, Scale, SumOn;
    ReducedIsCongruent(lhs.constant + scaled.constant);
    CongruentSum(SumOn(row.Keys, f.terms, row), SumOn(row.Keys, lhs.terms, row) + SumOn(row.Keys, scaled.terms, row),
                 f.constant, lhs.constant + scaled.constant);
  }

  lemma {:induction false} NoTerms(names: set<string>, row: Row)
    requires names <= row.Keys
    ensures SumOn(names, map[], row) == 0
  {
    if names != {} {
      var name :| name in names;
      SumOnRemove(names, map[], row, name);
      NoTerms(names - {name}, row);
    }
  }

  lemma {:induction false} OneTerm(names: set<string>, name: string, row: Row)
    requires names <= row.Keys
    ensures SumOn(names, map[name := 1], row) == if name in names then row[name] else 0
  {
    if names != {} {
      var first := if name in names then name else var x :| x in names; x;
      SumOnRemove(names, map[name := 1], row, first);
      OneTerm(names - {first}, name, row);
    }
  }

  /** Wherever a node has a form, the form has the node's value in every row that obeys the pins. */
  lemma {:induction false} FormSound(nodes: seq<Node>, pinned: Pinned, i: nat, row: Row)
    requires WellFormed(nodes, row.Keys) && Obeys(row, pinned) && i < |nodes| && FormOf(nodes, pinned, i).Some?
    ensures Congruent(FormValue(FormOf(nodes, pinned, i).value, row), Value(nodes, i, row))
    decreases i
  {
    hide Combine, Scale, FormValue, Congruent;
    assert ArgsBefore(nodes[i], i);
    match nodes[i]
    case Const(v) =>
      ConstantForm(v, row);
    case Col(name) =>
      ColumnForm(name, pinned, row);
    case Neg(a) =>
      FormSound(nodes, pinned, a, row);
      NegatedForm(FormOf(nodes, pinned, a).value, Value(nodes, a, row), row);
    case Add(l, r) =>
      FormSound(nodes, pinned, l, row);
      FormSound(nodes, pinned, r, row);
      AddedForms(FormOf(nodes, pinned, l).value, FormOf(nodes, pinned, r).value,
                 Value(nodes, l, row), Value(nodes, r, row), row);
    case Sub(l, r) =>
      FormSound(nodes, pinned, l, row);
      FormSound(nodes, pinned, r, row);
      SubtractedForms(FormOf(nodes, pinned, l).value, FormOf(nodes, pinned, r).value,
                      Value(nodes, l, row), Value(nodes, r, row), row);
    case Mul(l, r) =>
      FormSound(nodes, pinned, l, row);
      FormSound(nodes, pinned, r, row);
      var f, g := FormOf(nodes, pinned, l).value, FormOf(nodes, pinned, r).value;
      if f.terms == map[] {
        ConstantTimes(f, g, Value(nodes, l, row), Value(nodes, r, row), row);
      } else {
        ConstantTimes(g, f, Value(nodes, r, row), Value(nodes, l, row), row);
      }
  }

  lemma ConstantForm(v: int, row: Row)
    ensures Congruent(FormValue(Form(map[], v % P), row), v)
  {
    NoTerms(row.Keys, row);
    ReducedIsCongruent(v);
  }

  lemma ColumnForm(name: string, pinned: Pinned, row: Row)
    requires name in row && Obeys(row, pinned)
    ensures Congruent(FormValue(ColumnAs(name, pinned), row), row[name])
  {
    if name in pinned {
      NoTerms(row.Keys, row);
    } else {
      OneTerm(row.Keys, name, row);
    }
  }

  lemma AddedForms(f: Form, g: Form, x: int, y: int, row: Row)
    requires Congruent(FormValue(f, row), x) && Congruent(FormValue(g, row), y)
    ensures Congruent(FormValue(Combine(f, g, 1), row), x + y)
  {
    hide Combine, FormValue;
    CombineSound(f, g, 1, row);
    CongruentSum(FormValue(f, row), x, FormValue(g, row), y);
    assert 1 * FormValue(g, row) == FormValue(g, row);
  }

  lemma SubtractedForms(f: Form, g: Form, x: int, y: int, row: Row)
    requires Congruent(FormValue(f, row), x) && Congruent(FormValue(g, row), y)
    ensures Congruent(FormValue(Combine(f, g, P - 1), row), x - y)
  {
    hide Combine, FormValue;
    CombineSound(f, g, P - 1, row);
    MinusOne(FormValue(g, row));
    SumOfCongruents(FormValue(Combine(f, g, P - 1), row), FormValue(f, row), (P - 1) * FormValue(g, row),
                    -FormValue(g, row));
    CongruentSum(FormValue(f, row), x, FormValue(g, row), y);
    CongruentChain(FormValue(Combine(f, g, P - 1), row), FormValue(f, row) - FormValue(g, row), x - y);
  }

  lemma MinusOne(x: int)
    ensures Congruent((P - 1) * x, -x)
  {
    assert (P - 1) * x - (-x) == x * P;
    AddMultiple(0, x, P);
  }

  lemma NegatedForm(f: Form, v: int, row: Row)
    requires Congruent(FormValue(f, row), v)
    ensures Congruent(FormValue(Scale(f, P - 1), row), -v)
  {
    hide Scale, FormValue;
    ScaleSound(f, P - 1, row);
    MinusOne(FormValue(f, row));
    CongruentChain(FormValue(Scale(f, P - 1), row), (P - 1) * FormValue(f, row), -FormValue(f, row));
  }

  lemma ConstantTimes(c: Form, f: Form, cv: int, fv: int, row: Row)
    requires c.terms == map[] && Congruent(FormValue(c, row), cv) && Congruent(FormValue(f, row), fv)
    ensures Congruent(FormValue(Scale(f, c.constant), row), cv * fv)
  {
    NoTerms(row.Keys, row);
    assert FormValue(c, row) == c.constant;
    hide Scale, FormValue, Congruent;
    ScaleSound(f, c.constant, row);
    CongruentTimes(FormValue(f, row), fv, c.constant);
    CongruentTimes(c.constant, cv, fv);
    CongruentChain(FormValue(Scale(f, c.constant), row), c.constant * FormValue(f, row), c.constant * fv);
    CongruentChain(FormValue(Scale(f, c.constant), row), c.constant * fv, cv * fv);
  }

  // --- factors --------------------------------------------------------------

  /** The factors of a node, signs aside, the right operand's first. */
  function FactorsOf(nodes: seq<Node>, i: nat): (factors: seq<nat>)
    requires i < |nodes| && Ordered(nodes)
    ensures Inside(nodes, factors)
    decreases i
  {
    assert ArgsBefore(nodes[i], i);
    match nodes[i]
    case Mul(l, r) => FactorsOf(nodes, r) + FactorsOf(nodes, l)
    case Neg(a) => FactorsOf(nodes, a)
    case _ => [i]
  }

  /** How many nodes the expression tree of a node has. */
  function TreeSize(nodes: seq<Node>, i: nat): nat
    requires i < |nodes| && Ordered(nodes)
    decreases i
  {
    assert ArgsBefore(nodes[i], i);
    match nodes[i]
    case Mul(l, r) => 1 + TreeSize(nodes, l) + TreeSize(nodes, r)
    case Neg(a) => 1 + TreeSize(nodes, a)
    case _ => 1
  }

  predicate Inside(nodes: seq<Node>, stack: seq<nat>) {
    forall k | 0 <= k < |stack| :: stack[k] < |nodes|
  }

  /** What popping the whole stack will add, and how many pops that takes. */
  function Pending(nodes: seq<Node>, stack: seq<nat>): seq<nat>
    requires Ordered(nodes) && Inside(nodes, stack)
  {
    if stack == [] then []
    else FactorsOf(nodes, stack[|stack| - 1]) + Pending(nodes, stack[..|stack| - 1])
  }

  function Pops(nodes: seq<Node>, stack: seq<nat>): nat
    requires Ordered(nodes) && Inside(nodes, stack)
  {
    if stack == [] then 0 else TreeSize(nodes, stack[|stack| - 1]) + Pops(nodes, stack[..|stack| - 1])
  }

  lemma Pushed(nodes: seq<Node>, stack: seq<nat>, i: nat)
    requires Ordered(nodes) && Inside(nodes, stack) && i < |nodes|
    ensures Inside(nodes, stack + [i])
    ensures Pending(nodes, stack + [i]) == FactorsOf(nodes, i) + Pending(nodes, stack)
    ensures Pops(nodes, stack + [i]) == TreeSize(nodes, i) + Pops(nodes, stack)
  {
    assert (stack + [i])[..|stack|] == stack;
  }

  /** What replaces a popped node, if it is not a factor itself. */
  function Unfold(node: Node): Option<seq<nat>> {
    match node
    case Mul(l, r) => Some([l, r])
    case Neg(a) => Some([a])
    case _ => None
  }

  lemma Popped(nodes: seq<Node>, rest: seq<nat>, i: nat)
    requires Ordered(nodes) && Inside(nodes, rest) && i < |nodes|
    ensures Pending(nodes, rest + [i]) == FactorsOf(nodes, i) + Pending(nodes, rest)
    ensures Pops(nodes, rest + [i]) > Pops(nodes, rest)
    ensures match Unfold(nodes[i])
            case None => FactorsOf(nodes, i) == [i]
            case Some(args) =>
              && Inside(nodes, rest + args)
              && Pending(nodes, rest + args) == Pending(nodes, rest + [i])
              && Pops(nodes, rest + args) < Pops(nodes, rest + [i])
  {
    hide Pending, Pops;
    assert ArgsBefore(nodes[i], i);
    Pushed(nodes, rest, i);
    match nodes[i]
    case Mul(l, r) =>
      TwoPushed(nodes, rest, l, r);
    case Neg(a) =>
      Pushed(nodes, rest, a);
    case _ =>
  }

  lemma TwoPushed(nodes: seq<Node>, stack: seq<nat>, l: nat, r: nat)
    requires Ordered(nodes) && Inside(nodes, stack) && l < |nodes| && r < |nodes|
    ensures Inside(nodes, stack + [l, r])
    ensures Pending(nodes, stack + [l, r]) == FactorsOf(nodes, r) + FactorsOf(nodes, l) + Pending(nodes, stack)
    ensures Pops(nodes, stack + [l, r]) == TreeSize(nodes, r) + TreeSize(nodes, l) + Pops(nodes, stack)
  {
    hide Pending, Pops, FactorsOf, TreeSize;
    Pushed(nodes, stack, l);
    Pushed(nodes, stack + [l], r);
    assert stack + [l, r] == stack + [l] + [r];
  }

  method Factors(nodes: seq<Node>, i: nat) returns (out: seq<nat>)
    requires Ordered(nodes) && i < |nodes|
    ensures out == FactorsOf(nodes, i)
  {
    hide FactorsOf, Pops, Unfold, Ordered;
    out := [];
    var stack := [i];
    Popped(nodes, [], i);
    assert [] + [i] == stack;
    while stack != []
      invariant Inside(nodes, stack)
      invariant out + Pending(nodes, stack) == FactorsOf(nodes, i)
      decreases Pops(nodes, stack)
    {
      var current, rest := stack[|stack| - 1], stack[..|stack| - 1];
      assert stack == rest + [current];
      Popped(nodes, rest, current);
      var args := Unfold(nodes[current]);
      if args.Some? {
        stack := rest + args.value;
      } else {
        out := out + [current];
        stack := rest;
      }
    }
  }

  ghost predicate SomeFactorVanishes(nodes: seq<Node>, factors: seq<nat>, row: Row)
    requires WellFormed(nodes, row.Keys) && Inside(nodes, factors)
  {
    exists k :: 0 <= k < |factors| && Value(nodes, factors[k], row) % P == 0
  }

  /** P is prime, so a node vanishes exactly where one of its factors does. */
  lemma {:induction false} FactorsVanish(nodes: seq<Node>, i: nat, row: Row)
    requires WellFormed(nodes, row.Keys) && i < |nodes|
    ensures Value(nodes, i, row) % P == 0 <==> SomeFactorVanishes(nodes, FactorsOf(nodes, i), row)
    decreases i
  {
    assert ArgsBefore(nodes[i], i);
    match nodes[i]
    case Mul(l, r) =>
      FactorsVanish(nodes, l, row);
      FactorsVanish(nodes, r, row);
      FieldPrime.ProductVanishes(Value(nodes, l, row), Value(nodes, r, row));
      EitherFactor(nodes, FactorsOf(nodes, r), FactorsOf(nodes, l), row);
    case Neg(a) =>
      FactorsVanish(nodes, a, row);
    case _ =>
      assert FactorsOf(nodes, i)[0] == i;
  }

  lemma EitherFactor(nodes: seq<Node>, a: seq<nat>, b: seq<nat>, row: Row)
    requires WellFormed(nodes, row.Keys) && Inside(nodes, a) && Inside(nodes, b)
    ensures SomeFactorVanishes(nodes, a + b, row)
      <==> SomeFactorVanishes(nodes, a, row) || SomeFactorVanishes(nodes, b, row)
  {
    hide Value;
    if SomeFactorVanishes(nodes, a, row) {
      var k :| 0 <= k < |a| && Value(nodes, a[k], row) % P == 0;
      assert (a + b)[k] == a[k];
    }
    if SomeFactorVanishes(nodes, b, row) {
      var k :| 0 <= k < |b| && Value(nodes, b[k], row) % P == 0;
      assert (a + b)[|a| + k] == b[k];
    }
  }
}
