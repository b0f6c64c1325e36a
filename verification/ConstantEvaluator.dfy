/**
  The u32 constant evaluator: names resolve to parsed expressions, a shared
  active set catches cyclic definitions, and every intermediate must be a u32.
*/
module ConstantEvaluator {
  import opened Basics

  datatype Operator = Add | Sub | Mult | LShift | RShift | OtherOperator

  datatype Expr =
    | Constant(value: int)
    | Name(id: string)
    | BinOp(op: Operator, left: Expr, right: Expr)
    | OtherNode

  type Table = map<string, Expr>

  /** One operator on two u32 operands; a result outside u32 has no value. */
  function Apply(op: Operator, left: int, right: int): Option<int>
    requires U32(left) && U32(right)
  {
    match op
    case Add => Checked(left + right)
    case Sub => Checked(left - right)
    case Mult => Checked(left * right)
    case LShift => Checked(left * Pow2(right))
    case RShift => Checked(left / Pow2(right))
    case OtherOperator => None
  }

  function Checked(n: int): Option<int> {
    if U32(n) then Some(n) else None
  }

  /** l doubled r times. */
  function Doubled(l: int, r: nat): int
    decreases r
  {
    if r == 0 then l else Doubled(l + l, r - 1)
  }

  /** The operation rule: a sum, a difference, a product, l doubled r times, or
      the most times that one doubled r times goes into l; always a u32. */
  predicate Combines(op: Operator, l: int, r: nat, v: int) {
    && 0 <= v <= 0xFFFF_FFFF
    && match op
       case Add => v == l + r
       case Sub => v + r == l
       case Mult => v == l * r
       case LShift => v == Doubled(l, r)
       case RShift => v * Doubled(1, r) <= l < (v + 1) * Doubled(1, r)
       case OtherOperator => false
  }

  lemma {:induction false} DoubledIsTimes(l: int, r: nat)
    ensures Doubled(l, r) == l * Pow2(r)
    decreases r
  {
    if r > 0 {
      DoubledIsTimes(l + l, r - 1);
      TwiceProduct(l, Pow2(r - 1));
    }
  }

  lemma QuotientIs(l: nat, d: nat, v: int)
    requires d > 0
    ensures v == l / d <==> v * d <= l < (v + 1) * d
  {
    var q := l / d;
    assert l == q * d + l % d && (q + 1) * d == q * d + d;
    TimesMonotone(v + 1, q, d);
    TimesMonotone(q + 1, v, d);
  }

  lemma TimesMonotone(a: int, b: int, d: nat)
    ensures a <= b ==> a * d <= b * d
  {
    if a <= b { assert (b - a) * d >= 0; }
  }

  lemma ApplyCombines(op: Operator, l: int, r: int, v: int)
    requires U32(l) && U32(r)
    ensures Apply(op, l, r) == Some(v) <==> Combines(op, l, r, v)
  {
    DoubledIsTimes(l, r);
    DoubledIsTimes(1, r);
    QuotientIs(l, Pow2(r), v);
  }

  // --- what an expression means ---------------------------------------------

  /** The value of e when names may be expanded at most n deep. */
  function ValueWithin(table: Table, e: Expr, n: nat): (r: Option<int>)
    ensures r.Some? ==> U32(r.value)
    decreases n, e
  {
    match e
    case Constant(value) => Checked(value)
    case Name(id) => if id in table && n > 0 then ValueWithin(table, table[id], n - 1) else None
    case BinOp(op, left, right) =>
      var l := ValueWithin(table, left, n);
      var r := ValueWithin(table, right, n);
      if l.Some? && r.Some? then Apply(op, l.value, r.value) else None
    case OtherNode => None
  }

  /** Some finite expansion of e has the value v. */
  ghost predicate Denotes(table: Table, e: Expr, v: int) {
    exists n: nat :: ValueWithin(table, e, n) == Some(v)
  }

  lemma {:induction false} MoreFuel(table: Table, e: Expr, n: nat, m: nat)
    requires n <= m && ValueWithin(table, e, n).Some?
    ensures ValueWithin(table, e, m) == ValueWithin(table, e, n)
    decreases n, e
  {
    match e {
      case Name(id) => MoreFuel(table, table[id], n - 1, m - 1);
      case BinOp(_, left, right) =>
        MoreFuel(table, left, n, m);
        MoreFuel(table, right, n, m);
      case _ =>
    }
  }

  /** Denotation is exactly the big-step rules: a constant its own value, a name
      its definition's, an operation its operands' combined; nothing else. */
  lemma BigStepRules(table: Table, e: Expr, v: int)
    ensures Denotes(table, e, v) <==>
            match e
            case Constant(value) => v == value && 0 <= value <= 0xFFFF_FFFF
            case Name(id) => id in table && Denotes(table, table[id], v)
            case BinOp(op, left, right) =>
              exists l, r :: U32(l) && U32(r) && Denotes(table, left, l) && Denotes(table, right, r)
                             && Combines(op, l, r, v)
            case OtherNode => false
  {
    match e {
      case Constant(value) =>
        assert ValueWithin(table, e, 0) == Checked(value);
      case Name(id) =>
        if id in table && Denotes(table, table[id], v) {
          var n: nat :| ValueWithin(table, table[id], n) == Some(v);
          assert ValueWithin(table, e, n + 1) == Some(v);
        }
        if Denotes(table, e, v) {
          var n: nat :| ValueWithin(table, e, n) == Some(v);
          assert ValueWithin(table, table[id], n - 1) == Some(v);
        }
      case BinOp(op, left, right) =>
        forall l, r | U32(l) && U32(r) && Denotes(table, left, l) && Denotes(table, right, r)
                      && Combines(op, l, r, v)
          ensures Denotes(table, e, v)
        {
          ApplyCombines(op, l, r, v);
          var n: nat :| ValueWithin(table, left, n) == Some(l);
          var m: nat :| ValueWithin(table, right, m) == Some(r);
          MoreFuel(table, left, n, n + m);
          MoreFuel(table, right, m, n + m);
          assert ValueWithin(table, e, n + m) == Some(v);
        }
        if Denotes(table, e, v) {
          var n: nat :| ValueWithin(table, e, n) == Some(v);
          var l, r := ValueWithin(table, left, n).value, ValueWithin(table, right, n).value;
          assert Denotes(table, left, l) && Denotes(table, right, r);
          ApplyCombines(op, l, r, v);
        }
      case OtherNode =>
    }
  }

  lemma DenotesUnique(table: Table, e: Expr, v: int, w: int)
    requires Denotes(table, e, v) && Denotes(table, e, w)
    ensures v == w
  {
    var n: nat :| ValueWithin(table, e, n) == Some(v);
    var m: nat :| ValueWithin(table, e, m) == Some(w);
    MoreFuel(table, e, n, n + m);
    MoreFuel(table, e, m, n + m);
  }

  // --- what the evaluator computes ------------------------------------------

  /** Errors as the caller of resolve sees them.  RegistryError is a ValueError,
      so an inner error is re-raised as an unsupported expression of the name
      whose definition was being evaluated. */
  datatype Outcome =
    | Value(value: int)
    | Missing(name: string)
    | Cyclic(name: string)
    | UnsupportedIn(name: string)
    | BadNode

  function Resolve(table: Table, active: set<string>, name: string): (r: Outcome)
    ensures r.Value? ==> U32(r.value)
    decreases table.Keys - active, 0
  {
    if name !in table then Missing(name)
    else if name in active then Cyclic(name)
    else
      assert name in table.Keys - active;
      match Evaluate(table, active + {name}, table[name])
      case Value(v) => Value(v)
      case _ => UnsupportedIn(name)
  }

  function Evaluate(table: Table, active: set<string>, e: Expr): (r: Outcome)
    ensures r.Value? ==> U32(r.value)
    decreases table.Keys - active, 1, e
  {
    match e
    case Constant(value) => if U32(value) then Value(value) else BadNode
    case Name(id) => Resolve(table, active, id)
    case BinOp(op, left, right) =>
      var l := Evaluate(table, active, left);
      if !l.Value? then l else
      var r := Evaluate(table, active, right);
      if !r.Value? then r else
      var result := Apply(op, l.value, r.value);
      if result.Some? then Value(result.value) else BadNode
    case OtherNode => BadNode
  }

  /** A value the evaluator returns is the denotation. */
  lemma {:induction false} EvaluateSound(table: Table, active: set<string>, e: Expr)
    requires Evaluate(table, active, e).Value?
    ensures Denotes(table, e, Evaluate(table, active, e).value)
    decreases table.Keys - active, 1, e
  {
    hide Combines, Denotes, Apply;
    var v := Evaluate(table, active, e).value;
    BigStepRules(table, e, v);
    match e {
      case Name(id) =>
        assert id in table.Keys - active;
        EvaluateSound(table, active + {id}, table[id]);
      case BinOp(op, left, right) =>
        EvaluateSound(table, active, left);
        EvaluateSound(table, active, right);
        ApplyCombines(op, Evaluate(table, active, left).value, Evaluate(table, active, right).value, v);
      case _ =>
    }
  }

  /** No active name has a value within n expansions. */
  predicate NoneWithin(table: Table, active: set<string>, n: nat) {
    forall id | id in active :: ValueWithin(table, Name(id), n).None?
  }

  lemma NoneWithinLess(table: Table, active: set<string>, n: nat)
    requires NoneWithin(table, active, n) && n > 0
    ensures NoneWithin(table, active, n - 1)
  {
    forall id | id in active ensures ValueWithin(table, Name(id), n - 1).None? {
      if ValueWithin(table, Name(id), n - 1).Some? {
        MoreFuel(table, Name(id), n - 1, n);
      }
    }
  }

  /** Something with a value within n is evaluated to it, if no name already
      being resolved has a value that soon: such a name cannot occur. */
  lemma {:induction false} EvaluateComplete(table: Table, active: set<string>, e: Expr, n: nat)
    requires ValueWithin(table, e, n).Some? && NoneWithin(table, active, n)
    ensures Evaluate(table, active, e) == Value(ValueWithin(table, e, n).value)
    decreases n, e
  {
    match e {
      case Name(id) =>
        if ValueWithin(table, e, n - 1).Some? {
          MoreFuel(table, e, n - 1, n);
          NoneWithinLess(table, active, n);
          EvaluateComplete(table, active, e, n - 1);
        } else {
          NoneWithinLess(table, active, n);
          assert NoneWithin(table, active + {id}, n - 1);
          EvaluateComplete(table, active + {id}, table[id], n - 1);
        }
      case BinOp(op, left, right) =>
        EvaluateComplete(table, active, left, n);
        EvaluateComplete(table, active, right, n);
      case _ =>
    }
  }

  /**
    The evaluator on a whole table: it returns v exactly when v is the constant's
    denotation; it reports the constant missing exactly when it is not in the
    table; every other failure, cycles included, is reported as an unsupported
    expression of the constant asked for.
  */
  lemma ResolveDecides(table: Table, name: string)
    ensures forall v :: Resolve(table, {}, name) == Value(v) <==> Denotes(table, Name(name), v)
    ensures Resolve(table, {}, name) == Missing(name) <==> name !in table
    ensures Resolve(table, {}, name) == UnsupportedIn(name) <==>
            name in table && forall v :: !Denotes(table, Name(name), v)
    ensures !Resolve(table, {}, name).Cyclic? && !Resolve(table, {}, name).BadNode?
  {
    var r := Resolve(table, {}, name);
    assert Evaluate(table, {}, Name(name)) == r;
    if r.Value? {
      EvaluateSound(table, {}, Name(name));
    }
    forall v | Denotes(table, Name(name), v) ensures r == Value(v) {
      var n: nat :| ValueWithin(table, Name(name), n) == Some(v);
      EvaluateComplete(table, {}, Name(name), n);
    }
  }

  // --- why it fails ---------------------------------------------------------

  /** One step of dependency: to an operand, or to a name's definition. */
  predicate Uses(table: Table, e: Expr, c: Expr) {
    match e
    case BinOp(_, left, right) => c == left || c == right
    case Name(id) => id in table && c == table[id]
    case _ => false
  }

  predicate Chain(table: Table, path: seq<Expr>) {
    path != [] && forall i | 0 < i < |path| :: Uses(table, path[i - 1], path[i])
  }

  ghost predicate Reaches(table: Table, e: Expr, c: Expr) {
    exists path :: Chain(table, path) && path[0] == e && path[|path| - 1] == c
  }

  /** A name that depends on itself. */
  ghost predicate OnCycle(table: Table, id: string) {
    id in table && Reaches(table, table[id], Name(id))
  }

  ghost predicate NoResult(op: Operator, l: nat, r: nat) {
    forall v :: !Combines(op, l, r, v)
  }

  lemma NoneIsNoResult(op: Operator, l: int, r: int)
    requires U32(l) && U32(r)
    ensures Apply(op, l, r).None? <==> NoResult(op, l, r)
  {
    if Apply(op, l, r).Some? { ApplyCombines(op, l, r, Apply(op, l, r).value); }
    if v :| Combines(op, l, r, v) { ApplyCombines(op, l, r, v); }
  }

  /** A node that is wrong in itself: a missing or cyclic name, an unsupported
      node or operator, or a value outside u32. */
  ghost predicate Fault(table: Table, c: Expr) {
    match c
    case Constant(value) => !U32(value)
    case Name(id) => id !in table || OnCycle(table, id)
    case BinOp(op, left, right) =>
      op.OtherOperator?
      || exists l, r :: U32(l) && U32(r) && Denotes(table, left, l) && Denotes(table, right, r)
                        && NoResult(op, l, r)
    case OtherNode => true
  }

  lemma ReachesSelf(table: Table, e: Expr)
    ensures Reaches(table, e, e)
  {
    assert Chain(table, [e]) && [e][0] == e;
  }

  lemma ReachesThrough(table: Table, e: Expr, d: Expr, c: Expr)
    requires Uses(table, e, d) && Reaches(table, d, c)
    ensures Reaches(table, e, c)
  {
    var path :| Chain(table, path) && path[0] == d && path[|path| - 1] == c;
    var longer := [e] + path;
    forall i | 0 < i < |longer| ensures Uses(table, longer[i - 1], longer[i]) {
      if i > 1 { assert longer[i - 1] == path[i - 2] && longer[i] == path[i - 1]; }
    }
    assert Chain(table, longer) && longer[0] == e && longer[|longer| - 1] == c;
  }

  /** Whatever a valued expression depends on has a value no later. */
  lemma {:induction false} ChainKeepsValue(table: Table, path: seq<Expr>, n: nat)
    requires Chain(table, path) && ValueWithin(table, path[0], n).Some?
    ensures ValueWithin(table, path[|path| - 1], n).Some?
    decreases |path|
  {
    if |path| > 1 {
      var next := path[1];
      assert Uses(table, path[0], next);
      if path[0].Name? {
        MoreFuel(table, next, n - 1, n);
      }
      var rest := path[1..];
      assert forall i | 0 < i < |rest| :: rest[i - 1] == path[i] && rest[i] == path[i + 1];
      ChainKeepsValue(table, rest, n);
    }
  }

  /** A cyclic name would have a value in fewer and fewer expansions. */
  lemma {:induction false} CycleHasNoValue(table: Table, id: string, n: nat)
    requires OnCycle(table, id)
    ensures ValueWithin(table, Name(id), n).None?
    decreases n
  {
    if n > 0 && ValueWithin(table, table[id], n - 1).Some? {
      var path :| Chain(table, path) && path[0] == table[id] && path[|path| - 1] == Name(id);
      ChainKeepsValue(table, path, n - 1);
      CycleHasNoValue(table, id, n - 1);
      assert false;
    }
  }

  lemma FaultHasNoValue(table: Table, c: Expr, n: nat)
    requires Fault(table, c)
    ensures ValueWithin(table, c, n).None?
  {
    match c {
      case Name(id) =>
        if id in table { CycleHasNoValue(table, id, n); }
      case BinOp(op, left, right) =>
        if ValueWithin(table, c, n).Some? && !op.OtherOperator? {
          var l, r :| U32(l) && U32(r) && Denotes(table, left, l) && Denotes(table, right, r) && NoResult(op, l, r);
          NoneIsNoResult(op, l, r);
          DenotesUnique(table, left, l, ValueWithin(table, left, n).value);
          DenotesUnique(table, right, r, ValueWithin(table, right, n).value);
          assert false;
        }
      case _ =>
    }
  }

  /** A failed evaluation reaches a fault, or a name that was already active. */
  lemma {:induction false} FailureHasCause(table: Table, active: set<string>, e: Expr) returns (cause: Expr)
    requires !Evaluate(table, active, e).Value?
    ensures Reaches(table, e, cause)
    ensures Fault(table, cause) || (cause.Name? && cause.id in active)
    decreases table.Keys - active, 1, e
  {
    cause := e;
    ReachesSelf(table, e);
    match e {
      case Name(id) =>
        if id in table && id !in active {
          assert id in table.Keys - active;
          cause := FailureHasCause(table, active + {id}, table[id]);
          ReachesThrough(table, e, table[id], cause);
          if cause == Name(id) { assert OnCycle(table, id); }
        }
      case BinOp(op, left, right) =>
        if !Evaluate(table, active, left).Value? {
          cause := FailureHasCause(table, active, left);
          ReachesThrough(table, e, left, cause);
        } else if !Evaluate(table, active, right).Value? {
          cause := FailureHasCause(table, active, right);
          ReachesThrough(table, e, right, cause);
        } else {
          EvaluateSound(table, active, left);
          EvaluateSound(table, active, right);
          NoneIsNoResult(op, Evaluate(table, active, left).value, Evaluate(table, active, right).value);
        }
      case _ =>
    }
  }

  /**
    Resolution fails exactly when the constant reaches a fault: a missing name,
    a name that depends on itself, an unsupported node or operator, or an
    intermediate outside u32.
  */
  lemma FailsExactlyOnFault(table: Table, name: string)
    ensures !Resolve(table, {}, name).Value? <==>
            exists c :: Reaches(table, Name(name), c) && Fault(table, c)
  {
    assert Evaluate(table, {}, Name(name)) == Resolve(table, {}, name);
    if !Resolve(table, {}, name).Value? {
      var c := FailureHasCause(table, {}, Name(name));
    } else {
      EvaluateSound(table, {}, Name(name));
      var n: nat :| ValueWithin(table, Name(name), n).Some?;
      forall c | Reaches(table, Name(name), c) ensures !Fault(table, c) {
        var path :| Chain(table, path) && path[0] == Name(name) && path[|path| - 1] == c;
        ChainKeepsValue(table, path, n);
        if Fault(table, c) { FaultHasNoValue(table, c, n); assert false; }
      }
    }
  }

  // --- the evaluator itself -------------------------------------------------

  /** Resolution with one shared active set, entered and left around each name. */
  class Resolver {
    const table: Table
    var active: set<string>

    constructor (table: Table)
      ensures this.table == table && active == {}
    {
      this.table := table;
      active := {};
    }

    method ResolveName(name: string) returns (r: Outcome)
      modifies this`active
      ensures r == Resolve(table, old(active), name)
      ensures active == old(active)
      decreases table.Keys - active, 0
    {
      if name !in table {
        return Missing(name);
      }
      if name in active {
        return Cyclic(name);
      }
      ghost var before := active;
      assert name in table.Keys - active;
      active := active + {name};
      var inner := EvaluateNode(table[name]);
      active := active - {name};
      assert active == before;
      if inner.Value? {
        return inner;
      }
      return UnsupportedIn(name);
    }

    method EvaluateNode(node: Expr) returns (r: Outcome)
      modifies this`active
      ensures r == Evaluate(table, old(active), node)
      ensures active == old(active)
      decreases table.Keys - active, 1, node
    {
      var value;
      match node {
        case Constant(n) =>
          value := n;
        case Name(id) =>
          var inner := ResolveName(id);
          if !inner.Value? {
            return inner;
          }
          value := inner.value;
        case BinOp(op, left, right) =>
          var l := EvaluateNode(left);
          if !l.Value? {
            return l;
          }
          var r := EvaluateNode(right);
          if !r.Value? {
            return r;
          }
          match op {
            case Add => value := l.value + r.value;
            case Sub => value := l.value - r.value;
            case Mult => value := l.value * r.value;
            case LShift => value := l.value * Pow2(r.value);
            case RShift => value := l.value / Pow2(r.value);
            case OtherOperator => return BadNode;
          }
        case OtherNode =>
          return BadNode;
      }
      if !(0 <= value <= 0xFFFF_FFFF) {
        return BadNode;
      }
      return Value(value);
    }
  }

  /** parse_u32_constant from the parsed table on. */
  method ParseU32Constant(table: Table, name: string) returns (r: Outcome)
    ensures forall v :: r == Value(v) <==> Denotes(table, Name(name), v)
    ensures r == Missing(name) <==> name !in table
    ensures !r.Value? <==> exists c :: Reaches(table, Name(name), c) && Fault(table, c)
    ensures !r.Cyclic? && !r.BadNode?
  {
    var resolver := new Resolver(table);
    r := resolver.ResolveName(name);
    ResolveDecides(table, name);
    FailsExactlyOnFault(table, name);
  }
}
