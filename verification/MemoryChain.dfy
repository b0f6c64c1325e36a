/**
  Offline memory: exact tuple balance between one initial and one final state,
  together with strictly increasing clocks, is one source-to-sink path.
*/
module MemoryChain {
  import opened Basics
  import opened RelationBus

  datatype MemoryState = MemoryState(addrSpace: int, addr: int, clock: int, values: seq<int>)

  datatype Transition = Transition(previous: MemoryState, next: MemoryState, kind: string)

  predicate CanonicalState(s: MemoryState) {
    && Canonical(s.addrSpace) && Canonical(s.addr) && Canonical(s.clock)
    && (forall i | 0 <= i < |s.values| :: Canonical(s.values[i]))
    && |s.values| == 4
  }

  function Key(s: MemoryState): (int, int) {
    (s.addrSpace, s.addr)
  }

  /** initial, final, then both ends of every transition. */
  function States(initial: MemoryState, final: MemoryState, ts: seq<Transition>): seq<MemoryState> {
    if ts == [] then [initial, final]
    else States(initial, final, ts[..|ts| - 1]) + [ts[|ts| - 1].previous, ts[|ts| - 1].next]
  }

  function In(ts: seq<Transition>, s: MemoryState): nat {
    if ts == [] then 0 else (if ts[0].next == s then 1 else 0) + In(ts[1..], s)
  }

  function Out(ts: seq<Transition>, s: MemoryState): nat {
    if ts == [] then 0 else (if ts[0].previous == s then 1 else 0) + Out(ts[1..], s)
  }

  function Unit(b: bool): int {
    if b then 1 else 0
  }

  /** source + edges - sink, on one tuple. */
  function Balance(initial: MemoryState, final: MemoryState, ts: seq<Transition>, s: MemoryState): int {
    Unit(s == initial) - Unit(s == final) - Out(ts, s) + In(ts, s)
  }

  ghost predicate Balanced(initial: MemoryState, final: MemoryState, ts: seq<Transition>) {
    forall s :: Balance(initial, final, ts, s) == 0
  }

  predicate Strict(ts: seq<Transition>) {
    forall i | 0 <= i < |ts| :: ts[i].previous.clock < ts[i].next.clock
  }

  /** Consecutive transitions from one state to another. */
  predicate IsPath(from: MemoryState, path: seq<Transition>, to: MemoryState) {
    if path == [] then from == to
    else
      && path[0].previous == from
      && path[|path| - 1].next == to
      && forall i | 0 < i < |path| :: path[i].previous == path[i - 1].next
  }

  // --- counting -------------------------------------------------------------

  lemma {:induction false} CountAppend(a: seq<Transition>, b: seq<Transition>, s: MemoryState)
    ensures In(a + b, s) == In(a, s) + In(b, s)
    ensures Out(a + b, s) == Out(a, s) + Out(b, s)
  {
    if a == [] {
      assert a + b == b;
    } else {
      assert (a + b)[1..] == a[1..] + b;
      CountAppend(a[1..], b, s);
    }
  }

  lemma CountRemove(ts: seq<Transition>, i: nat, s: MemoryState)
    requires i < |ts|
    ensures In(ts, s) == In(ts[..i] + ts[i + 1..], s) + Unit(ts[i].next == s)
    ensures Out(ts, s) == Out(ts[..i] + ts[i + 1..], s) + Unit(ts[i].previous == s)
  {
    CountAppend(ts[..i], ts[i..], s);
    CountAppend(ts[..i], ts[i + 1..], s);
    assert ts[..i] + ts[i..] == ts && ts[i..][1..] == ts[i + 1..];
  }

  lemma RemoveOne(ts: seq<Transition>, i: nat)
    requires i < |ts|
    ensures multiset(ts) == multiset(ts[..i] + ts[i + 1..]) + multiset{ts[i]}
    ensures Strict(ts) ==> Strict(ts[..i] + ts[i + 1..])
  {
    assert ts == ts[..i] + [ts[i]] + ts[i + 1..];
  }

  lemma CountPermutation(a: seq<Transition>, b: seq<Transition>, s: MemoryState)
    requires multiset(a) == multiset(b)
    ensures In(a, s) == In(b, s) && Out(a, s) == Out(b, s)
  {
    var entering, leaving := (ts: seq<Transition>) => In(ts, s) as int, (ts: seq<Transition>) => Out(ts, s) as int;
    forall x: seq<Transition>, y: seq<Transition>
      ensures entering(x + y) == Plus(entering(x), entering(y)) && leaving(x + y) == Plus(leaving(x), leaving(y))
    {
      CountAppend(x, y, s);
    }
    AdditivePermuted(entering, Plus, a, b);
    AdditivePermuted(leaving, Plus, a, b);
  }

  lemma SameLength(a: seq<Transition>, b: seq<Transition>)
    requires multiset(a) == multiset(b)
    ensures |a| == |b|
  {
    assert |multiset(a)| == |a| && |multiset(b)| == |b|;
  }

  lemma {:induction false} NoneEnter(ts: seq<Transition>, s: MemoryState)
    requires Strict(ts) && forall i | 0 <= i < |ts| :: s.clock <= ts[i].previous.clock
    ensures In(ts, s) == 0
  {
    if ts != [] {
      assert ts[0].next != s;
      assert forall i | 0 <= i < |ts[1..]| :: ts[1..][i] == ts[i + 1];
      NoneEnter(ts[1..], s);
    }
  }

  lemma {:induction false} Leaves(ts: seq<Transition>, i: nat)
    requires i < |ts|
    ensures Out(ts, ts[i].previous) >= 1
  {
    CountRemove(ts, i, ts[i].previous);
  }

  lemma {:induction false} Earliest(ts: seq<Transition>) returns (m: nat)
    requires ts != []
    ensures m < |ts| && forall i | 0 <= i < |ts| :: ts[m].previous.clock <= ts[i].previous.clock
  {
    var n := |ts| - 1;
    m := n;
    if n > 0 {
      var k := Earliest(ts[..n]);
      assert forall i | 0 <= i < n :: ts[..n][i] == ts[i];
      if ts[k].previous.clock < ts[n].previous.clock {
        m := k;
      }
    }
  }

  /** What is left to walk never branches, never detaches and never stops early. */
  lemma NextIsForced(current: MemoryState, final: MemoryState, remaining: seq<Transition>)
    requires Strict(remaining) && Balanced(current, final, remaining)
    ensures remaining == [] <==> current == final
    ensures remaining != [] ==> Out(remaining, current) == 1
  {
    assert Balance(current, final, remaining, current) == 0;
    if remaining != [] {
      var m := Earliest(remaining);
      var s := remaining[m].previous;
      NoneEnter(remaining, s);
      Leaves(remaining, m);
      assert Balance(current, final, remaining, s) == 0;
    }
  }

  lemma TakeStep(current: MemoryState, final: MemoryState, remaining: seq<Transition>, i: nat)
    requires Balanced(current, final, remaining) && i < |remaining| && remaining[i].previous == current
    ensures Balanced(remaining[i].next, final, remaining[..i] + remaining[i + 1..])
  {
    var rest := remaining[..i] + remaining[i + 1..];
    forall s ensures Balance(remaining[i].next, final, rest, s) == 0 {
      CountRemove(remaining, i, s);
      assert Balance(current, final, remaining, s) == 0;
    }
  }

  lemma {:induction false} PathBalances(from: MemoryState, path: seq<Transition>, to: MemoryState, s: MemoryState)
    requires IsPath(from, path, to)
    ensures Balance(from, to, path, s) == 0
    decreases |path|
  {
    if path != [] {
      var rest := path[1..];
      assert forall i | 0 <= i < |rest| :: rest[i] == path[i + 1];
      PathBalances(path[0].next, rest, to, s);
    }
  }

  // --- the checker ----------------------------------------------------------

  datatype Reason =
    | BadState(index: nat)
    | KeyChanged
    | NotStrict
    | Imbalance(state: MemoryState, coefficient: int)
    | Branches(at: MemoryState, outgoing: int)
    | DetachedRest(count: int)
    | OnePath

  datatype ChainCheck = ChainCheck(
    valid: bool,
    reason: Reason,
    transitions: int,
    exactBalance: bool,
    strictOrder: bool,
    connected: bool,
    orderedClocks: seq<int>,
    orderedValues: seq<seq<int>>)

  predicate WellKeyed(initial: MemoryState, final: MemoryState, ts: seq<Transition>) {
    forall s | s in States(initial, final, ts) :: CanonicalState(s) && Key(s) == Key(initial)
  }

  function Visited(from: MemoryState, path: seq<Transition>): seq<MemoryState> {
    if path == [] then [from] else Visited(from, path[..|path| - 1]) + [path[|path| - 1].next]
  }

  function Clocks(states: seq<MemoryState>): seq<int> {
    seq(|states|, i requires 0 <= i < |states| => states[i].clock)
  }

  function Values(states: seq<MemoryState>): seq<seq<int>> {
    seq(|states|, i requires 0 <= i < |states| => states[i].values)
  }

  lemma {:induction false} AbsentBalances(initial: MemoryState, final: MemoryState, ts: seq<Transition>, s: MemoryState)
    requires s !in States(initial, final, ts)
    ensures Balance(initial, final, ts, s) == 0
  {
    if ts != [] {
      var n := |ts| - 1;
      AbsentBalances(initial, final, ts[..n], s);
      CountAppend(ts[..n], [ts[n]], s);
      assert ts == ts[..n] + [ts[n]];
      assert States(initial, final, ts) == States(initial, final, ts[..n]) + [ts[n].previous, ts[n].next];
      assert s !in States(initial, final, ts[..n]) && s != ts[n].previous && s != ts[n].next;
    } else {
      assert States(initial, final, ts) == [initial, final];
    }
  }

  /** The first state of the list with a non-zero coefficient, if any. */
  method FindImbalance(initial: MemoryState, final: MemoryState, ts: seq<Transition>)
    returns (found: bool, state: MemoryState)
    ensures found <==> !Balanced(initial, final, ts)
    ensures found ==> Balance(initial, final, ts, state) != 0
  {
    var states := States(initial, final, ts);
    for i := 0 to |states|
      invariant forall k | 0 <= k < i :: Balance(initial, final, ts, states[k]) == 0
    {
      if Balance(initial, final, ts, states[i]) != 0 {
        return true, states[i];
      }
    }
    forall s ensures Balance(initial, final, ts, s) == 0 {
      if s !in states { AbsentBalances(initial, final, ts, s); }
    }
    return false, initial;
  }

  method OutgoingOf(remaining: seq<Transition>, current: MemoryState) returns (candidates: seq<nat>)
    ensures |candidates| == Out(remaining, current)
    ensures forall c | c in candidates :: c < |remaining| && remaining[c].previous == current
  {
    candidates := [];
    for i := 0 to |remaining|
      invariant |candidates| == Out(remaining[..i], current)
      invariant forall c | c in candidates :: c < i && remaining[c].previous == current
    {
      CountAppend(remaining[..i], [remaining[i]], current);
      assert remaining[..i + 1] == remaining[..i] + [remaining[i]];
      if remaining[i].previous == current {
        candidates := candidates + [i];
      }
    }
    assert remaining[..|remaining|] == remaining;
  }

  /** Between steps: a path already walked, and a balanced rest still to walk. */
  ghost predicate Walking(initial: MemoryState, final: MemoryState, ts: seq<Transition>,
                          path: seq<Transition>, current: MemoryState, remaining: seq<Transition>) {
    && Strict(remaining) && Balanced(current, final, remaining)
    && IsPath(initial, path, current)
    && multiset(path) + multiset(remaining) == multiset(ts)
  }

  lemma WalkOn(initial: MemoryState, final: MemoryState, ts: seq<Transition>,
               path: seq<Transition>, current: MemoryState, remaining: seq<Transition>, i: nat)
    requires Walking(initial, final, ts, path, current, remaining)
    requires i < |remaining| && remaining[i].previous == current
    ensures Walking(initial, final, ts, path + [remaining[i]], remaining[i].next, remaining[..i] + remaining[i + 1..])
  {
    TakeStep(current, final, remaining, i);
    RemoveOne(remaining, i);
    VisitOne(initial, path, remaining[i]);
    assert multiset(path + [remaining[i]]) == multiset(path) + multiset{remaining[i]};
  }

  /** Follow the only outgoing transition until the final state is reached. */
  method WalkChain(initial: MemoryState, final: MemoryState, ts: seq<Transition>)
    returns (check: ChainCheck, ghost path: seq<Transition>)
    requires Strict(ts) && Balanced(initial, final, ts)
    ensures check.valid && check.reason.OnePath? && check.transitions == |ts|
    ensures IsPath(initial, path, final) && multiset(path) == multiset(ts)
    ensures check.orderedClocks == Clocks(Visited(initial, path))
    ensures check.orderedValues == Values(Visited(initial, path))
  {
    path := [];
    var n := |ts|;
    var remaining := ts;
    var current := initial;
    var ordered := [current];
    while current != final
      invariant Walking(initial, final, ts, path, current, remaining)
      invariant ordered == Visited(initial, path)
      decreases |remaining|
    {
      NextIsForced(current, final, remaining);
      var candidates := OutgoingOf(remaining, current);
      if |candidates| != 1 {
        return ChainCheck(false, Branches(current, |candidates|), n, true, true, false,
                          Clocks(ordered), Values(ordered)), path;
      }
      assert candidates[0] in candidates;
      var i := candidates[0];
      var transition := remaining[i];
      WalkOn(initial, final, ts, path, current, remaining, i);
      VisitOne(initial, path, transition);
      remaining := remaining[..i] + remaining[i + 1..];
      current := transition.next;
      path := path + [transition];
      ordered := ordered + [current];
    }
    NextIsForced(current, final, remaining);
    if remaining != [] {
      return ChainCheck(false, DetachedRest(|remaining|), n, true, true, false,
                        Clocks(ordered), Values(ordered)), path;
    }
    return ChainCheck(true, OnePath, n, true, true, true, Clocks(ordered), Values(ordered)), path;
  }

  lemma VisitOne(initial: MemoryState, path: seq<Transition>, t: Transition)
    requires IsPath(initial, path, t.previous)
    ensures IsPath(initial, path + [t], t.next)
    ensures Visited(initial, path + [t]) == Visited(initial, path) + [t.next]
  {
    assert (path + [t])[..|path|] == path;
  }

  /** The position of the first state that is not canonical, or the length. */
  method FirstBadState(states: seq<MemoryState>) returns (bad: nat)
    ensures bad <= |states| && (bad < |states| ==> !CanonicalState(states[bad]))
    ensures forall k | 0 <= k < bad :: CanonicalState(states[k])
  {
    for i := 0 to |states|
      invariant forall k | 0 <= k < i :: CanonicalState(states[k])
    {
      if !CanonicalState(states[i]) {
        return i;
      }
    }
    return |states|;
  }

  /**
    The chain checker.  It accepts exactly the canonical, single-key, strictly
    clocked and exactly balanced components; a balanced component never makes
    it report a branch or a detached rest; and on acceptance the states it lists
    are those of a path that uses every transition once.
  */
  method VerifyOfflineMemoryChain(initial: MemoryState, final: MemoryState, ts: seq<Transition>)
    returns (check: ChainCheck, ghost path: seq<Transition>)
    ensures check.valid <==>
            WellKeyed(initial, final, ts) && Strict(ts) && Balanced(initial, final, ts)
    ensures !check.reason.Branches? && !check.reason.DetachedRest?
    ensures check.reason.Imbalance? ==>
              Balance(initial, final, ts, check.reason.state) == check.reason.coefficient != 0
    ensures check.valid ==>
              && IsPath(initial, path, final) && multiset(path) == multiset(ts)
              && check.orderedClocks == Clocks(Visited(initial, path))
              && check.orderedValues == Values(Visited(initial, path))
  {
    path := [];
    var n := |ts|;
    var states := States(initial, final, ts);
    var bad := FirstBadState(states);
    if bad < |states| {
      assert states[bad] in states;
      return ChainCheck(false, BadState(bad), n, false, false, false, [], []), path;
    }
    if exists s | s in states :: Key(s) != Key(initial) {
      return ChainCheck(false, KeyChanged, n, false, false, false, [], []), path;
    }
    var unbalanced, state := FindImbalance(initial, final, ts);
    if !Strict(ts) {
      return ChainCheck(false, NotStrict, n, !unbalanced, false, false, [], []), path;
    }
    if unbalanced {
      return ChainCheck(false, Imbalance(state, Balance(initial, final, ts, state)), n,
                        false, true, false, [], []), path;
    }
    check, path := WalkChain(initial, final, ts);
  }

  // --- the theorem ----------------------------------------------------------

  /** A balanced strict component, walked from its source. */
  lemma {:induction false} WalkBalanced(current: MemoryState, final: MemoryState, remaining: seq<Transition>)
    returns (path: seq<Transition>)
    requires Strict(remaining) && Balanced(current, final, remaining)
    ensures IsPath(current, path, final) && multiset(path) == multiset(remaining)
    decreases |remaining|
  {
    NextIsForced(current, final, remaining);
    if remaining == [] {
      path := [];
    } else {
      var candidates := Candidate(remaining, current);
      TakeStep(current, final, remaining, candidates);
      RemoveOne(remaining, candidates);
      var t := remaining[candidates];
      var rest := WalkBalanced(t.next, final, remaining[..candidates] + remaining[candidates + 1..]);
      path := [t] + rest;
      assert path[1..] == rest;
      assert multiset(path) == multiset{t} + multiset(rest);
    }
  }

  lemma {:induction false} Candidate(ts: seq<Transition>, s: MemoryState) returns (i: nat)
    requires Out(ts, s) >= 1
    ensures i < |ts| && ts[i].previous == s
  {
    if ts[0].previous == s {
      i := 0;
    } else {
      var k := Candidate(ts[1..], s);
      i := k + 1;
    }
  }

  /**
    For strictly increasing transitions, exact balance from `initial` to `final`
    holds exactly when some ordering of all of them is a path between the two.
  */
  lemma BalancedIffOnePath(initial: MemoryState, final: MemoryState, ts: seq<Transition>)
    requires Strict(ts)
    ensures Balanced(initial, final, ts) <==>
            exists path :: IsPath(initial, path, final) && multiset(path) == multiset(ts)
  {
    if Balanced(initial, final, ts) {
      var path := WalkBalanced(initial, final, ts);
    }
    forall path | IsPath(initial, path, final) && multiset(path) == multiset(ts)
      ensures Balanced(initial, final, ts)
    {
      forall s ensures Balance(initial, final, ts, s) == 0 {
        PathBalances(initial, path, final, s);
        CountPermutation(path, ts, s);
      }
    }
  }

  /** Between a state and itself there is nothing to walk. */
  lemma BalancedLoopIsEmpty(state: MemoryState, ts: seq<Transition>)
    requires Strict(ts)
    ensures Balanced(state, state, ts) <==> ts == []
  {
    if Balanced(state, state, ts) {
      NextIsForced(state, state, ts);
    }
  }

  // --- strictness is needed -------------------------------------------------

  const SOURCE := MemoryState(1, 0x1000, 0, [1, 0, 0, 0])
  const SINK := MemoryState(1, 0x1000, 3, [2, 0, 0, 0])
  const LEFT := MemoryState(1, 0x1000, 1, [7, 0, 0, 0])
  const RIGHT := MemoryState(1, 0x1000, 2, [8, 0, 0, 0])
  const DETACHED := [Transition(SOURCE, SINK, "opcode"),
                     Transition(LEFT, RIGHT, "detached"),
                     Transition(RIGHT, LEFT, "detached")]

  /** A detached two-cycle beside an honest edge balances exactly, yet no path
      uses all three transitions: closure without clock order is not enough. */
  lemma DetachedCycleBalances()
    ensures Balanced(SOURCE, SINK, DETACHED)
    ensures forall path :: IsPath(SOURCE, path, SINK) ==> multiset(path) != multiset(DETACHED)
  {
    forall s ensures Balance(SOURCE, SINK, DETACHED, s) == 0 {
      DetachedBalance(s);
    }
    forall path: seq<Transition> | multiset(path) == multiset(DETACHED)
      ensures !IsPath(SOURCE, path, SINK)
    {
      DetachedOrder(path);
    }
  }

  lemma DetachedBalance(s: MemoryState)
    ensures Balance(SOURCE, SINK, DETACHED, s) == 0
  {
    var ts := DETACHED;
    assert ts[3..] == [] && ts[2..][1..] == ts[3..] && ts[1..][1..] == ts[2..];
    assert In(ts[2..], s) == Unit(LEFT == s) && Out(ts[2..], s) == Unit(RIGHT == s);
    assert In(ts[1..], s) == Unit(RIGHT == s) + In(ts[2..], s);
    assert Out(ts[1..], s) == Unit(LEFT == s) + Out(ts[2..], s);
  }

  /** Ordering the three transitions always breaks after the honest one. */
  lemma DetachedOrder(path: seq<Transition>)
    requires multiset(path) == multiset(DETACHED)
    ensures !IsPath(SOURCE, path, SINK)
  {
    SameLength(path, DETACHED);
    forall i | 0 <= i < 3 ensures path[i] in DETACHED {
      assert path[i] in multiset(path);
    }
  }
}
