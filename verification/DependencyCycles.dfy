/**
  The package workspace's dependency-cycle finder: a depth-first search over
  three sets, in the order the checker walks them.
*/
module DependencyCycles {
  import opened Names

  type Graph = map<string, set<string>>

  /** A package that is not a key of the graph depends on nothing. */
  function Deps(graph: Graph, node: string): set<string> {
    if node in graph then graph[node] else {}
  }

  function Universe(graph: Graph): set<string> {
    graph.Keys + set k, d | k in graph && d in graph[k] :: d
  }

  /** A simple closed walk of real edges: the first node comes back at the end. */
  predicate IsCycle(graph: Graph, c: seq<string>) {
    && |c| >= 2 && c[0] == c[|c| - 1] && Distinct(c[..|c| - 1])
    && forall i | 0 < i < |c| :: c[i] in Deps(graph, c[i - 1])
  }

  /** The edge that closes a reported cycle. */
  function Closing(c: seq<string>): (string, string)
    requires |c| >= 2
  {
    (c[|c| - 2], c[|c| - 1])
  }

  /** No edge closes two of the reported cycles. */
  predicate ClosedOnce(cycles: seq<seq<string>>) {
    forall i, j | 0 <= i < j < |cycles| ::
      |cycles[i]| >= 2 && |cycles[j]| >= 2 && Closing(cycles[i]) != Closing(cycles[j])
  }

  predicate Closes(cycles: seq<seq<string>>, u: string, v: string) {
    exists i | 0 <= i < |cycles| :: |cycles[i]| >= 2 && Closing(cycles[i]) == (u, v)
  }

  /** An edge that no reported cycle closes. */
  predicate Kept(graph: Graph, cycles: seq<seq<string>>, u: string, v: string) {
    v in Deps(graph, u) && !Closes(cycles, u, v)
  }

  /** A closed walk that uses only kept edges. */
  predicate KeptLoop(graph: Graph, cycles: seq<seq<string>>, w: seq<string>) {
    && |w| >= 2 && w[0] == w[|w| - 1]
    && forall i | 0 < i < |w| :: Kept(graph, cycles, w[i - 1], w[i])
  }

  /** A closed walk passes through an edge that closes a reported cycle. */
  predicate CutBy(cycles: seq<seq<string>>, w: seq<string>) {
    exists i | 0 < i < |w| :: Closes(cycles, w[i - 1], w[i])
  }

  ghost predicate Acyclic(graph: Graph) {
    forall w: seq<string> :: !KeptLoop(graph, [], w)
  }

  /** Each kept edge leads from a node to one listed before it. */
  predicate Topological(graph: Graph, cycles: seq<seq<string>>, order: seq<string>) {
    forall i, v | 0 <= i < |order| && v in Deps(graph, order[i]) && !Closes(cycles, order[i], v) :: v in order[..i]
  }

  // --- the search state -----------------------------------------------------

  /** The three sets of the search, the path, and the orders nodes were entered and left in. */
  datatype Search = Search(
    cycles: seq<seq<string>>,
    visiting: seq<string>,
    active: set<string>,
    complete: set<string>,
    finished: seq<string>,
    entered: seq<string>)

  function Top(s: Search): string
    requires s.visiting != []
  {
    s.visiting[|s.visiting| - 1]
  }

  predicate Members(list: seq<string>, names: set<string>) {
    && (forall n | n in list :: n in names)
    && (forall n | n in names :: n in list)
  }

  /** `visiting` is the active path, and no node is both active and complete. */
  predicate Stacked(graph: Graph, s: Search) {
    && Members(s.visiting, s.active) && Distinct(s.visiting)
    && (forall i | 0 < i < |s.visiting| :: s.visiting[i] in Deps(graph, s.visiting[i - 1]))
    && s.active !! s.complete && s.active + s.complete <= Universe(graph)
  }

  /** Nodes complete in topological order of the kept edges; none is entered twice. */
  predicate Ordered(graph: Graph, s: Search) {
    && Members(s.finished, s.complete) && Distinct(s.finished)
    && Members(s.entered, s.active + s.complete) && Distinct(s.entered)
    && Topological(graph, s.cycles, s.finished)
  }

  /** Every reported list is a cycle, and no edge closes two of them. */
  predicate Reported(graph: Graph, s: Search) {
    && (forall c | c in s.cycles :: IsCycle(graph, c))
    && (forall c | c in s.cycles :: |c| >= 2 && Closing(c).0 in s.active + s.complete)
    && ClosedOnce(s.cycles)
  }

  predicate Inv(graph: Graph, s: Search) {
    Stacked(graph, s) && Ordered(graph, s) && Reported(graph, s)
  }

  lemma ClosesMonotone(cycles: seq<seq<string>>, more: seq<seq<string>>, u: string, v: string)
    requires Closes(cycles, u, v)
    ensures Closes(cycles + more, u, v)
  {
    var i :| 0 <= i < |cycles| && |cycles[i]| >= 2 && Closing(cycles[i]) == (u, v);
    assert (cycles + more)[i] == cycles[i];
  }

  lemma TopologicalMonotone(graph: Graph, cycles: seq<seq<string>>, more: seq<seq<string>>, order: seq<string>)
    requires Topological(graph, cycles, order)
    ensures Topological(graph, cycles + more, order)
  {
    forall i, v | 0 <= i < |order| && v in Deps(graph, order[i]) && !Closes(cycles + more, order[i], v)
      ensures v in order[..i]
    {
      if Closes(cycles, order[i], v) {
        ClosesMonotone(cycles, more, order[i], v);
        assert false;
      }
    }
  }

  lemma DepsInUniverse(graph: Graph, node: string)
    ensures Deps(graph, node) <= Universe(graph)
  {
  }

  /** The part of the path from a node, closed by that node, is a cycle. */
  function PathCycle(s: Search, start: nat): seq<string>
    requires start < |s.visiting|
  {
    s.visiting[start..] + [s.visiting[start]]
  }

  lemma PathClosesCycle(graph: Graph, s: Search, start: nat)
    requires Stacked(graph, s) && start < |s.visiting|
    requires s.visiting[start] in Deps(graph, Top(s))
    ensures IsCycle(graph, PathCycle(s, start))
    ensures Closing(PathCycle(s, start)) == (Top(s), s.visiting[start])
  {
    var c := PathCycle(s, start);
    assert c[..|c| - 1] == s.visiting[start..];
    forall i | 0 < i < |c| ensures c[i] in Deps(graph, c[i - 1]) {
      assert c[i - 1] == s.visiting[start + i - 1];
    }
  }

  lemma ReportKeepsInv(graph: Graph, s: Search, start: nat)
    requires Inv(graph, s) && start < |s.visiting|
    requires s.visiting[start] in Deps(graph, Top(s))
    requires !Closes(s.cycles, Top(s), s.visiting[start])
    ensures Inv(graph, s.(cycles := s.cycles + [PathCycle(s, start)]))
    ensures Closes(s.cycles + [PathCycle(s, start)], Top(s), s.visiting[start])
  {
    var c := PathCycle(s, start);
    var cycles := s.cycles + [c];
    PathClosesCycle(graph, s, start);
    TopologicalMonotone(graph, s.cycles, [c], s.finished);
    assert cycles[|s.cycles|] == c;
    assert Top(s) in s.visiting;
    forall i, j | 0 <= i < j < |cycles| ensures Closing(cycles[i]) != Closing(cycles[j]) {
      assert cycles[i] == s.cycles[i] && s.cycles[i] in s.cycles;
    }
  }

  function Enter(s: Search, node: string): Search {
    s.(visiting := s.visiting + [node], active := s.active + {node}, entered := s.entered + [node])
  }

  lemma EnterKeepsInv(graph: Graph, s: Search, node: string)
    requires Inv(graph, s) && node in Universe(graph)
    requires node !in s.active && node !in s.complete
    requires s.visiting != [] ==> node in Deps(graph, Top(s))
    ensures Inv(graph, Enter(s, node))
    ensures forall v :: !Closes(s.cycles, node, v)
  {
    var t := Enter(s, node);
    assert Members(t.visiting, t.active) && Members(t.entered, t.active + t.complete);
    forall i | 0 <= i < |s.cycles| ensures |s.cycles[i]| >= 2 && Closing(s.cycles[i]).0 != node {
      assert s.cycles[i] in s.cycles;
    }
  }

  function Leave(s: Search): Search
    requires s.visiting != []
  {
    s.(visiting := s.visiting[..|s.visiting| - 1],
       active := s.active - {Top(s)},
       complete := s.complete + {Top(s)},
       finished := s.finished + [Top(s)])
  }

  lemma LeaveKeepsStack(graph: Graph, s: Search)
    requires Stacked(graph, s) && s.visiting != []
    ensures Stacked(graph, Leave(s))
    ensures Leave(s).active + Leave(s).complete == s.active + s.complete
  {
    var t, n := Leave(s), |s.visiting| - 1;
    assert s.visiting[n] in s.visiting;
    forall x | x in t.visiting ensures x in t.active {
      var k :| 0 <= k < n && s.visiting[k] == x;
      assert s.visiting[k] in s.visiting && s.visiting[k] != s.visiting[n];
    }
    forall x | x in t.active ensures x in t.visiting {
      assert x in s.visiting;
      var k :| 0 <= k <= n && s.visiting[k] == x;
      assert t.visiting[k] == x;
    }
  }

  lemma FinishKeepsOrder(graph: Graph, cycles: seq<seq<string>>, finished: seq<string>, node: string)
    requires Topological(graph, cycles, finished)
    requires forall d | d in Deps(graph, node) :: d in finished || Closes(cycles, node, d)
    ensures Topological(graph, cycles, finished + [node])
  {
    var order := finished + [node];
    forall i, v | 0 <= i < |order| && v in Deps(graph, order[i]) && !Closes(cycles, order[i], v)
      ensures v in order[..i]
    {
      if i < |finished| {
        assert order[i] == finished[i] && order[..i] == finished[..i];
      } else {
        assert order[..i] == finished;
      }
    }
  }

  lemma LeaveKeepsInv(graph: Graph, s: Search)
    requires Inv(graph, s) && s.visiting != []
    requires forall d | d in Deps(graph, Top(s)) :: d in s.complete || Closes(s.cycles, Top(s), d)
    ensures Inv(graph, Leave(s))
  {
    hide Deps, Universe, IsCycle, Closes, Topological;
    var t := Leave(s);
    LeaveKeepsStack(graph, s);
    FinishKeepsOrder(graph, s.cycles, s.finished, Top(s));
    assert Top(s) in s.visiting;
    assert Members(t.finished, t.complete) && Distinct(t.finished);
  }

  /** What one visit of `node` does to the search. */
  predicate Visited(s: Search, t: Search, node: string) {
    && t.visiting == s.visiting && t.active == s.active
    && s.complete <= t.complete && s.finished <= t.finished && s.cycles <= t.cycles
    && (node in t.complete || (s.visiting != [] && node in s.active && Closes(t.cycles, Top(s), node)))
    && forall i | |s.cycles| <= i < |t.cycles| ::
         && |t.cycles[i]| >= 2
         && (Closing(t.cycles[i]).0 !in s.active + s.complete
             || (s.visiting != [] && Closing(t.cycles[i]) == (Top(s), node)))
  }

  lemma OnPath(graph: Graph, s: Search, node: string)
    requires Inv(graph, s) && node in s.active
    ensures s.visiting != [] && node in s.visiting
  {
  }

  lemma ReportIsVisited(graph: Graph, s: Search, start: nat)
    requires Inv(graph, s) && start < |s.visiting|
    requires s.visiting[start] in Deps(graph, Top(s)) && !Closes(s.cycles, Top(s), s.visiting[start])
    ensures Visited(s, s.(cycles := s.cycles + [PathCycle(s, start)]), s.visiting[start])
  {
    PathClosesCycle(graph, s, start);
    ReportKeepsInv(graph, s, start);
    assert s.visiting[start] in s.visiting;
  }

  /** Part-way through the dependencies of the node on top of the path. */
  predicate Expanding(graph: Graph, s: Search, t: Search, deps: seq<string>, i: nat) {
    && s.visiting != [] && i <= |deps|
    && t.visiting == s.visiting && t.active == s.active
    && s.complete <= t.complete && s.finished <= t.finished && s.cycles <= t.cycles
    && (forall j | 0 <= j < i :: deps[j] in t.complete || Closes(t.cycles, Top(s), deps[j]))
    && (forall j | i <= j < |deps| :: !Closes(t.cycles, Top(s), deps[j]))
    && forall k | |s.cycles| <= k < |t.cycles| ::
         && |t.cycles[k]| >= 2
         && (Closing(t.cycles[k]).0 !in s.active + s.complete || Closing(t.cycles[k]).0 == Top(s))
  }

  lemma ExpandStart(graph: Graph, s: Search, node: string, deps: seq<string>)
    requires forall v :: !Closes(s.cycles, node, v)
    ensures Expanding(graph, Enter(s, node), Enter(s, node), deps, 0)
  {
    assert Top(Enter(s, node)) == node;
  }

  /** The next dependency may be visited, with less of the graph left to enter. */
  lemma ExpandReady(graph: Graph, s: Search, t: Search, node: string, deps: seq<string>, i: nat)
    requires Expanding(graph, Enter(s, node), t, deps, i) && i < |deps|
    requires forall d | d in deps :: d in Deps(graph, node)
    requires node in Universe(graph) && node !in s.active && node !in s.complete
    ensures t.visiting != [] && Top(t) == node && node in t.active
    ensures deps[i] in Deps(graph, node) && deps[i] in Universe(graph) && !Closes(t.cycles, node, deps[i])
    ensures Universe(graph) - t.active - t.complete < Universe(graph) - s.active - s.complete
  {
    assert deps[i] in deps;
    DepsInUniverse(graph, node);
    assert Top(Enter(s, node)) == node;
    assert node in Universe(graph) - s.active - s.complete;
    assert node !in Universe(graph) - t.active - t.complete;
  }

  lemma ExpandDone(graph: Graph, s: Search, t: Search, node: string, deps: seq<string>)
    requires Expanding(graph, Enter(s, node), t, deps, |deps|)
    requires forall d | d in Deps(graph, node) :: d in deps
    ensures t.visiting != [] && Top(t) == node
    ensures forall d | d in Deps(graph, node) :: d in t.complete || Closes(t.cycles, node, d)
  {
    assert Top(Enter(s, node)) == node;
  }

  lemma ExpandOne(graph: Graph, s: Search, t: Search, u: Search, deps: seq<string>, i: nat)
    requires Expanding(graph, s, t, deps, i) && i < |deps| && Distinct(deps)
    requires Top(s) in s.active && Visited(t, u, deps[i])
    ensures Expanding(graph, s, u, deps, i + 1)
  {
    var node := Top(s);
    assert u.cycles == t.cycles + u.cycles[|t.cycles|..];
    forall j | 0 <= j < i + 1 ensures deps[j] in u.complete || Closes(u.cycles, node, deps[j]) {
      if Closes(t.cycles, node, deps[j]) {
        ClosesMonotone(t.cycles, u.cycles[|t.cycles|..], node, deps[j]);
      }
    }
    forall j, k | i + 1 <= j < |deps| && 0 <= k < |u.cycles| && |u.cycles[k]| >= 2
      ensures Closing(u.cycles[k]) != (node, deps[j])
    {
      if k < |t.cycles| {
        assert t.cycles[k] == u.cycles[k] && !Closes(t.cycles, node, deps[j]);
      }
    }
    forall k | |s.cycles| <= k < |u.cycles|
      ensures && |u.cycles[k]| >= 2
              && (Closing(u.cycles[k]).0 !in s.active + s.complete || Closing(u.cycles[k]).0 == node)
    {
      if k < |t.cycles| { assert u.cycles[k] == t.cycles[k]; }
    }
  }

  /** Entering, expanding every dependency and leaving is one visit. */
  lemma ExpandedIsVisited(graph: Graph, s: Search, t: Search, node: string, deps: seq<string>)
    requires Inv(graph, s) && node !in s.active && node !in s.complete
    requires Expanding(graph, Enter(s, node), t, deps, |deps|)
    ensures Visited(s, Leave(t), node)
  {
    var n := |s.visiting|;
    assert Enter(s, node).visiting[..n] == s.visiting && Top(Enter(s, node)) == node;
    assert s.active + {node} - {node} == s.active;
    assert s.finished <= t.finished <= t.finished + [node];
  }

  // --- the order of the search ----------------------------------------------

  predicate Least(names: set<string>, n: string) {
    n in names && forall m | m in names :: m == n || Before(n, m)
  }

  /** The dependencies of the node on top of the path that are still to be followed. */
  function Open(graph: Graph, s: Search): set<string>
    requires s.visiting != []
  {
    set d | d in Deps(graph, Top(s)) && d !in s.complete && !Closes(s.cycles, Top(s), d)
  }

  function Start(): Search {
    Search([], [], {}, {}, [], [])
  }

  /** Report the path from its only place of the node, or enter the node. */
  predicate Follows(s: Search, t: Search, n: string) {
    if n in s.active
    then exists i | 0 <= i < |s.visiting| ::
           s.visiting[i] == n && n !in s.visiting[..i]
           && t == s.(cycles := s.cycles + [s.visiting[i..] + [n]])
    else
      && t.visiting == s.visiting + [n] && t.entered == s.entered + [n] && t.active == s.active + {n}
      && t.complete == s.complete && t.finished == s.finished && t.cycles == s.cycles
  }

  predicate Left(s: Search, t: Search)
    requires s.visiting != []
  {
    && t.visiting == s.visiting[..|s.visiting| - 1] && t.active == s.active - {Top(s)}
    && t.complete == s.complete + {Top(s)} && t.finished == s.finished + [Top(s)]
    && t.entered == s.entered && t.cycles == s.cycles
  }

  /**
    One step of the search.  On an empty path the least key that is not complete
    is entered; from a node its least open dependency is followed; a node without
    open dependencies is left.
  */
  ghost predicate Step(graph: Graph, s: Search, t: Search) {
    if s.visiting == [] then exists n :: Least(graph.Keys - s.complete, n) && n !in s.active && Follows(s, t, n)
    else if Open(graph, s) == {} then Left(s, t)
    else exists d :: Least(Open(graph, s), d) && Follows(s, t, d)
  }

  /** Steps one after another, from the start to `now`. */
  ghost predicate Trace(graph: Graph, run: seq<Search>, now: Search) {
    && run != [] && run[0] == Start() && run[|run| - 1] == now
    && forall i | 0 < i < |run| :: Step(graph, run[i - 1], run[i])
  }

  /** The search is over: the path is empty and every key complete. */
  predicate Done(graph: Graph, s: Search) {
    s.visiting == [] && graph.Keys <= s.complete
  }

  ghost predicate Searched(graph: Graph, run: seq<Search>, cycles: seq<seq<string>>) {
    exists now :: Trace(graph, run, now) && Done(graph, now) && now.cycles == cycles
  }

  lemma LeastUnique(names: set<string>, a: string, b: string)
    requires Least(names, a) && Least(names, b)
    ensures a == b
  {
    BeforeTotal(a, b);
  }

  /** The step after a state is determined. */
  lemma StepUnique(graph: Graph, s: Search, t: Search, u: Search)
    requires Step(graph, s, t) && Step(graph, s, u)
    ensures t == u
  {
    hide Open;
    if s.visiting == [] {
      var n :| Least(graph.Keys - s.complete, n) && n !in s.active && Follows(s, t, n);
      var m :| Least(graph.Keys - s.complete, m) && m !in s.active && Follows(s, u, m);
      LeastUnique(graph.Keys - s.complete, n, m);
    } else if Open(graph, s) != {} {
      var d :| Least(Open(graph, s), d) && Follows(s, t, d);
      var e :| Least(Open(graph, s), e) && Follows(s, u, e);
      LeastUnique(Open(graph, s), d, e);
      if d in s.active { SamePlace(s, t, u, d); }
    }
  }

  lemma SamePlace(s: Search, t: Search, u: Search, n: string)
    requires n in s.active && Follows(s, t, n) && Follows(s, u, n)
    ensures t == u
  {
    var i :| 0 <= i < |s.visiting| && s.visiting[i] == n && n !in s.visiting[..i]
             && t == s.(cycles := s.cycles + [s.visiting[i..] + [n]]);
    var j :| 0 <= j < |s.visiting| && s.visiting[j] == n && n !in s.visiting[..j]
             && u == s.(cycles := s.cycles + [s.visiting[j..] + [n]]);
    PrefixHolds(s.visiting, i);
    PrefixHolds(s.visiting, j);
  }

  lemma PrefixHolds(list: seq<string>, j: nat)
    requires j <= |list|
    ensures forall i | 0 <= i < j :: list[i] in list[..j]
  {
    forall i | 0 <= i < j ensures list[i] in list[..j] {
      assert list[..j][i] == list[i];
    }
  }

  /** Nothing follows the end. */
  lemma NotYetDone(graph: Graph, run: seq<Search>, now: Search, i: nat)
    requires Trace(graph, run, now) && i < |run| - 1
    ensures !Done(graph, run[i])
  {
    assert Step(graph, run[i + 1 - 1], run[i + 1]);
  }

  lemma {:induction false} SameRun(graph: Graph, a: seq<Search>, b: seq<Search>, x: Search, y: Search, i: nat)
    requires Trace(graph, a, x) && Trace(graph, b, y) && i < |a| && i < |b|
    ensures a[i] == b[i]
  {
    hide Step;
    if i > 0 {
      SameRun(graph, a, b, x, y, i - 1);
      StepUnique(graph, a[i - 1], a[i], b[i]);
    }
  }

  /** The graph alone decides what is reported, and in which order. */
  lemma SearchDetermined(graph: Graph, a: seq<Search>, b: seq<Search>, x: seq<seq<string>>, y: seq<seq<string>>)
    requires Searched(graph, a, x) && Searched(graph, b, y)
    ensures x == y
  {
    hide Step;
    var s :| Trace(graph, a, s) && Done(graph, s) && s.cycles == x;
    var t :| Trace(graph, b, t) && Done(graph, t) && t.cycles == y;
    if |a| < |b| {
      SameRun(graph, a, b, s, t, |a| - 1);
      NotYetDone(graph, b, t, |a| - 1);
      assert false;
    } else if |b| < |a| {
      SameRun(graph, a, b, s, t, |b| - 1);
      NotYetDone(graph, a, s, |b| - 1);
      assert false;
    }
    SameRun(graph, a, b, s, t, |a| - 1);
  }

  /** The nodes of `list` stand in `entered` in the same order. */
  predicate EnteredInOrder(entered: seq<string>, list: seq<string>) {
    forall i, j | 0 <= i < j < |list| :: EnteredBefore(entered, list[i], list[j])
  }

  predicate EnteredBefore(entered: seq<string>, a: string, b: string) {
    exists k | 0 <= k < |entered| :: entered[k] == b && a in entered[..k]
  }

  /** The path, and every reported list but for its end, are in the order of entering. */
  predicate InOrder(s: Search) {
    && EnteredInOrder(s.entered, s.visiting) && (forall n | n in s.visiting :: n in s.entered)
    && forall c | c in s.cycles :: |c| >= 1 && EnteredInOrder(s.entered, c[..|c| - 1])
  }

  lemma EnteredMore(entered: seq<string>, n: string, list: seq<string>)
    requires EnteredInOrder(entered, list)
    ensures EnteredInOrder(entered + [n], list)
  {
    forall i, j | 0 <= i < j < |list| ensures EnteredBefore(entered + [n], list[i], list[j]) {
      assert EnteredBefore(entered, list[i], list[j]);
      var k :| 0 <= k < |entered| && entered[k] == list[j] && list[i] in entered[..k];
      assert (entered + [n])[..k] == entered[..k];
    }
  }

  lemma EnteredLast(entered: seq<string>, list: seq<string>, n: string)
    requires EnteredInOrder(entered, list) && forall m | m in list :: m in entered
    ensures EnteredInOrder(entered + [n], list + [n])
  {
    EnteredMore(entered, n, list);
    var more, longer := entered + [n], list + [n];
    forall i, j | 0 <= i < j < |longer| ensures EnteredBefore(more, longer[i], longer[j]) {
      if j == |list| {
        assert more[|entered|] == n && more[..|entered|] == entered && list[i] in list;
      } else {
        assert EnteredBefore(more, list[i], list[j]);
      }
    }
  }

  lemma StepInOrder(graph: Graph, s: Search, t: Search)
    requires InOrder(s) && Step(graph, s, t)
    ensures InOrder(t)
  {
    hide Open, EnteredInOrder, Least;
    if s.visiting == [] {
      var n :| Least(graph.Keys - s.complete, n) && n !in s.active && Follows(s, t, n);
      FollowInOrder(s, t, n);
    } else if Open(graph, s) == {} {
      ShorterInOrder(s.entered, s.visiting, 0, |s.visiting| - 1);
    } else {
      var d :| Least(Open(graph, s), d) && Follows(s, t, d);
      FollowInOrder(s, t, d);
    }
  }

  lemma ShorterInOrder(entered: seq<string>, list: seq<string>, i: nat, j: nat)
    requires EnteredInOrder(entered, list) && i <= j <= |list|
    ensures EnteredInOrder(entered, list[i..j])
  {
    forall a, b | 0 <= a < b < j - i ensures EnteredBefore(entered, list[i..j][a], list[i..j][b]) {
      assert EnteredBefore(entered, list[i + a], list[i + b]);
    }
  }

  lemma FollowInOrder(s: Search, t: Search, n: string)
    requires InOrder(s) && Follows(s, t, n)
    ensures InOrder(t)
  {
    hide EnteredInOrder;
    if n in s.active {
      var i :| 0 <= i < |s.visiting| && s.visiting[i] == n && n !in s.visiting[..i]
               && t == s.(cycles := s.cycles + [s.visiting[i..] + [n]]);
      ReportInOrder(s, t, i, n);
    } else {
      EnterInOrder(s, t, n);
    }
  }

  lemma ReportInOrder(s: Search, t: Search, i: nat, n: string)
    requires InOrder(s) && i < |s.visiting| && t == s.(cycles := s.cycles + [s.visiting[i..] + [n]])
    ensures InOrder(t)
  {
    hide EnteredInOrder;
    var c := s.visiting[i..] + [n];
    assert c[..|c| - 1] == s.visiting[i..|s.visiting|];
    ShorterInOrder(s.entered, s.visiting, i, |s.visiting|);
  }

  lemma EnterInOrder(s: Search, t: Search, n: string)
    requires InOrder(s) && t.visiting == s.visiting + [n] && t.entered == s.entered + [n] && t.cycles == s.cycles
    ensures InOrder(t)
  {
    hide EnteredInOrder;
    EnteredLast(s.entered, s.visiting, n);
    forall c | c in s.cycles ensures |c| >= 1 && EnteredInOrder(t.entered, c[..|c| - 1]) {
      EnteredMore(s.entered, n, c[..|c| - 1]);
    }
  }

  /** Every reported list names its nodes in the order the search entered them, so it starts at the
      one entered first. */
  lemma {:induction false} ReportedInOrder(graph: Graph, run: seq<Search>, now: Search)
    requires Trace(graph, run, now)
    ensures InOrder(now)
    decreases |run|
  {
    hide Step, InOrder;
    if |run| == 1 {
      assert InOrder(Start()) by { StartInOrder(); }
    } else {
      var n := |run| - 1;
      assert Trace(graph, run[..n], run[n - 1]);
      ReportedInOrder(graph, run[..n], run[n - 1]);
      StepInOrder(graph, run[n - 1], run[n]);
    }
  }

  lemma StartInOrder()
    ensures InOrder(Start())
  {
  }

  /** The node the search comes to next. */
  predicate IsNext(graph: Graph, s: Search, node: string) {
    if s.visiting == [] then Least(graph.Keys - s.complete, node) else Least(Open(graph, s), node)
  }

  lemma EnterIsStep(graph: Graph, s: Search, node: string)
    requires IsNext(graph, s, node) && node !in s.active
    ensures Step(graph, s, Enter(s, node))
  {
    hide Open, Least;
    assert Follows(s, Enter(s, node), node);
    if s.visiting != [] { LeastIn(Open(graph, s), node); }
  }

  lemma LeastIn(names: set<string>, n: string)
    requires Least(names, n)
    ensures names != {}
  {
  }

  lemma ReportIsStep(graph: Graph, s: Search, i: nat)
    requires i < |s.visiting| && s.visiting[i] !in s.visiting[..i] && s.visiting[i] in s.active
    requires IsNext(graph, s, s.visiting[i])
    ensures Step(graph, s, s.(cycles := s.cycles + [s.visiting[i..] + [s.visiting[i]]]))
  {
    hide Open, Least;
    var t := s.(cycles := s.cycles + [s.visiting[i..] + [s.visiting[i]]]);
    assert Follows(s, t, s.visiting[i]);
    LeastIn(Open(graph, s), s.visiting[i]);
  }

  lemma LeaveIsStep(graph: Graph, s: Search)
    requires s.visiting != []
    requires forall d | d in Deps(graph, Top(s)) :: d in s.complete || Closes(s.cycles, Top(s), d)
    ensures Step(graph, s, Leave(s))
  {
    hide Closes;
    assert Open(graph, s) == {};
  }

  /** In ascending order the dependencies come up as the least open ones. */
  lemma ExpandNext(graph: Graph, s: Search, t: Search, deps: seq<string>, i: nat)
    requires Expanding(graph, s, t, deps, i) && i < |deps| && Ascending(deps)
    requires forall d :: d in deps <==> d in Deps(graph, Top(s))
    ensures t.visiting != [] && (deps[i] !in t.complete ==> IsNext(graph, t, deps[i]))
  {
    hide Closes, Deps;
    assert Top(t) == Top(s) && deps[i] in deps;
    if deps[i] !in t.complete {
      forall m | m in Open(graph, t) ensures m == deps[i] || Before(deps[i], m) {
        assert m in deps;
        var j :| 0 <= j < |deps| && deps[j] == m;
      }
    }
  }

  lemma OneStep(graph: Graph, run: seq<Search>, s: Search, t: Search)
    requires Trace(graph, run, s) && Step(graph, s, t)
    ensures Trace(graph, run + [t], t)
  {
    hide Step;
  }

  lemma Entering(graph: Graph, run: seq<Search>, s: Search, node: string)
    requires Inv(graph, s) && node in Universe(graph) && Trace(graph, run, s)
    requires node !in s.active && node !in s.complete && IsNext(graph, s, node)
    requires s.visiting != [] ==> node in Deps(graph, Top(s))
    ensures Inv(graph, Enter(s, node)) && Trace(graph, run + [Enter(s, node)], Enter(s, node))
    ensures forall v :: !Closes(s.cycles, node, v)
  {
    hide Inv, Universe, Deps, Closes, Trace, IsNext, Step;
    EnterKeepsInv(graph, s, node);
    EnterIsStep(graph, s, node);
    OneStep(graph, run, s, Enter(s, node));
  }

  /** All dependencies followed: leaving completes the visit. */
  lemma Leaving(graph: Graph, run: seq<Search>, s: Search, t: Search, node: string, deps: seq<string>)
    requires Inv(graph, s) && node !in s.active && node !in s.complete
    requires Inv(graph, t) && Trace(graph, run, t) && Expanding(graph, Enter(s, node), t, deps, |deps|)
    requires forall d | d in Deps(graph, node) :: d in deps
    ensures t.visiting != [] && Top(t) == node
    ensures Inv(graph, Leave(t)) && Visited(s, Leave(t), node) && Trace(graph, run + [Leave(t)], Leave(t))
  {
    hide Inv, Visited, Expanding, Deps, Closes, Trace, Step;
    ExpandDone(graph, s, t, node, deps);
    LeaveKeepsInv(graph, t);
    ExpandedIsVisited(graph, s, t, node, deps);
    LeaveIsStep(graph, t);
    OneStep(graph, run, t, Leave(t));
  }

  // --- the finder -----------------------------------------------------------

  class CycleFinder {
    const graph: Graph
    var cycles: seq<seq<string>>
    var visiting: seq<string>
    var active: set<string>
    var complete: set<string>
    ghost var finished: seq<string>
    ghost var entered: seq<string>
    ghost var trace: seq<Search>

    constructor (graph: Graph)
      ensures this.graph == graph
      ensures State() == Start() && Inv(graph, State()) && Trace(graph, trace, State())
    {
      this.graph := graph;
      cycles, visiting, active, complete := [], [], {}, {};
      finished, entered := [], [];
      trace := [Start()];
    }

    ghost function State(): Search
      reads this
    {
      Search(cycles, visiting, active, complete, finished, entered)
    }

    /**
      Visit one node.  Afterwards the path is as before and the node is
      complete, unless it was on the path, in which case the edge into it now
      closes a reported cycle; the search stays consistent throughout.
    */
    method Visit(node: string)
      requires Inv(graph, State()) && node in Universe(graph) && Trace(graph, trace, State())
      requires visiting != [] ==> node in Deps(graph, Top(State())) && !Closes(cycles, Top(State()), node)
      requires node !in complete ==> IsNext(graph, State(), node)
      modifies this
      ensures Inv(graph, State()) && Visited(old(State()), State(), node) && Trace(graph, trace, State())
      decreases Universe(graph) - active - complete, 1
    {
      if node in complete {
        return;
      }
      if node in active {
        CloseCycle(node);
        return;
      }
      Expand(node);
    }

    /** The node is on the path: report the part of the path from it. */
    method CloseCycle(node: string)
      requires Inv(graph, State()) && node in active && Trace(graph, trace, State())
      requires visiting != [] ==> node in Deps(graph, Top(State())) && !Closes(cycles, Top(State()), node)
      requires IsNext(graph, State(), node)
      modifies this`cycles, this`trace
      ensures Inv(graph, State()) && Visited(old(State()), State(), node) && Trace(graph, trace, State())
    {
      hide Inv, Visited, IsCycle, Deps, Closes, Universe, Trace, IsNext;
      OnPath(graph, State(), node);
      var start := 0;
      while visiting[start] != node
        invariant start < |visiting| && node !in visiting[..start]
        decreases |visiting| - start
      {
        start := start + 1;
      }
      ReportKeepsInv(graph, State(), start);
      ReportIsVisited(graph, State(), start);
      ReportIsStep(graph, State(), start);
      OneStep(graph, trace, State(), State().(cycles := cycles + [visiting[start..] + [node]]));
      cycles := cycles + [visiting[start..] + [node]];
      trace := trace + [State()];
    }

    /** The node is new: put it on the path, visit what it depends on, take it off. */
    method Expand(node: string)
      requires Inv(graph, State()) && node in Universe(graph) && Trace(graph, trace, State())
      requires node !in active && node !in complete && IsNext(graph, State(), node)
      requires visiting != [] ==> node in Deps(graph, Top(State()))
      modifies this
      ensures Inv(graph, State()) && Visited(old(State()), State(), node) && Trace(graph, trace, State())
      decreases Universe(graph) - active - complete, 0
    {
      hide Inv, Visited, Expanding, Universe, Deps, Closes, SortedList, Trace, IsNext, Step, Ascending;
      ghost var before := State();
      Entering(graph, trace, before, node);
      active := active + {node};
      visiting := visiting + [node];
      entered := entered + [node];
      assert State() == Enter(before, node);
      trace := trace + [State()];
      var deps := Sorted(Deps(graph, node));
      ExpandStart(graph, before, node, deps);
      for i := 0 to |deps|
        invariant Inv(graph, State())
        invariant Expanding(graph, Enter(before, node), State(), deps, i) && Trace(graph, trace, State())
      {
        ghost var now := State();
        ExpandReady(graph, before, now, node, deps, i);
        ExpandNext(graph, Enter(before, node), now, deps, i);
        Visit(deps[i]);
        ExpandOne(graph, Enter(before, node), now, State(), deps, i);
      }
      ghost var expanded := State();
      Leaving(graph, trace, before, expanded, node, deps);
      visiting := visiting[..|visiting| - 1];
      active := active - {node};
      complete := complete + {node};
      finished := finished + [node];
      assert State() == Leave(expanded);
      trace := trace + [State()];
    }
  }

  // --- what the result means ------------------------------------------------

  /** Along a loop of kept edges the position in the order keeps falling. */
  lemma {:induction false} LoopDescends(graph: Graph, cycles: seq<seq<string>>, order: seq<string>,
                                        w: seq<string>, start: nat, i: nat) returns (p: nat)
    requires Topological(graph, cycles, order) && Distinct(order)
    requires forall k | k in graph :: k in order
    requires KeptLoop(graph, cycles, w) && i < |w|
    requires start < |order| && order[start] == w[0]
    ensures p < |order| && order[p] == w[i] && p + i <= start
    decreases i
  {
    if i == 0 {
      p := start;
    } else {
      var q := LoopDescends(graph, cycles, order, w, start, i - 1);
      assert Kept(graph, cycles, w[i - 1], w[i]);
      assert w[i] in order[..q];
      p :| 0 <= p < q && order[p] == w[i];
    }
  }

  lemma TopologicalExcludesLoops(graph: Graph, cycles: seq<seq<string>>, order: seq<string>, w: seq<string>)
    requires Topological(graph, cycles, order) && Distinct(order)
    requires forall k | k in graph :: k in order
    ensures !KeptLoop(graph, cycles, w)
  {
    if KeptLoop(graph, cycles, w) {
      assert Kept(graph, cycles, w[0], w[1]);
      var start :| 0 <= start < |order| && order[start] == w[0];
      var p := LoopDescends(graph, cycles, order, w, start, |w| - 1);
      assert false;
    }
  }

  lemma CycleIsLoop(graph: Graph, c: seq<string>)
    requires IsCycle(graph, c)
    ensures KeptLoop(graph, [], c)
  {
    forall i | 0 < i < |c| ensures Kept(graph, [], c[i - 1], c[i]) {
    }
  }

  /**
    The checker.  Every reported list is a simple closed walk of real edges; no
    edge closes two of them; deleting the closing edge of each leaves no closed
    walk at all, over keys and plain dependencies alike, so every closed walk of
    the graph passes through one of those edges; and nothing is reported exactly
    when the graph was acyclic to begin with.
  */
  method FindCycles(graph: Graph) returns (cycles: seq<seq<string>>)
    ensures forall c | c in cycles :: IsCycle(graph, c)
    ensures ClosedOnce(cycles)
    ensures forall w: seq<string> :: !KeptLoop(graph, cycles, w)
    ensures forall w: seq<string> | KeptLoop(graph, [], w) :: CutBy(cycles, w)
    ensures cycles == [] <==> Acyclic(graph)
    ensures exists run :: Searched(graph, run, cycles)
  {
    hide CutBy, Inv, Visited, Universe, KeptLoop, Topological, SortedList, Trace, IsNext, Ascending;
    var finder := new CycleFinder(graph);
    var packages := Sorted(graph.Keys);
    for i := 0 to |packages|
      invariant fresh(finder) && finder.graph == graph
      invariant Inv(graph, finder.State()) && finder.visiting == []
      invariant Trace(graph, finder.trace, finder.State())
      invariant forall k | 0 <= k < i :: packages[k] in finder.complete
    {
      assert packages[i] in packages;
      PackageIsNode(graph, packages[i]);
      ghost var before := finder.State();
      RootNext(graph, before, packages, i);
      finder.Visit(packages[i]);
      RootIsComplete(before, finder.State(), packages[i]);
    }
    cycles := finder.cycles;
    forall k | k in graph ensures k in finder.complete {
      assert k in packages;
    }
    SearchResult(graph, finder.State());
    assert Done(graph, finder.State());
    assert Searched(graph, finder.trace, cycles);
  }

  /** In ascending order the packages come up as the least keys not complete. */
  lemma RootNext(graph: Graph, s: Search, packages: seq<string>, i: nat)
    requires Ascending(packages) && (forall k :: k in packages <==> k in graph) && i < |packages|
    requires s.visiting == [] && forall k | 0 <= k < i :: packages[k] in s.complete
    ensures packages[i] !in s.complete ==> IsNext(graph, s, packages[i])
  {
    if packages[i] !in s.complete {
      assert packages[i] in packages;
      forall m | m in graph.Keys - s.complete ensures m == packages[i] || Before(packages[i], m) {
        assert m in packages;
        var j :| 0 <= j < |packages| && packages[j] == m;
      }
    }
  }

  lemma PackageIsNode(graph: Graph, package: string)
    requires package in graph
    ensures package in Universe(graph)
  {
  }

  /** A visit that starts on an empty path leaves it empty and the node complete. */
  lemma RootIsComplete(s: Search, t: Search, node: string)
    requires Visited(s, t, node) && s.visiting == []
    ensures t.visiting == [] && node in t.complete && s.complete <= t.complete
  {
  }

  lemma SearchResult(graph: Graph, s: Search)
    requires Inv(graph, s) && forall k | k in graph :: k in s.complete
    ensures forall c | c in s.cycles :: IsCycle(graph, c)
    ensures ClosedOnce(s.cycles)
    ensures forall w: seq<string> :: !KeptLoop(graph, s.cycles, w)
    ensures forall w: seq<string> | KeptLoop(graph, [], w) :: CutBy(s.cycles, w)
    ensures s.cycles == [] <==> Acyclic(graph)
  {
    forall w: seq<string> ensures !KeptLoop(graph, s.cycles, w) {
      TopologicalExcludesLoops(graph, s.cycles, s.finished, w);
    }
    forall w: seq<string> | KeptLoop(graph, [], w) ensures CutBy(s.cycles, w) {
      assert !KeptLoop(graph, s.cycles, w);
      var i :| 0 < i < |w| && !Kept(graph, s.cycles, w[i - 1], w[i]);
      assert Kept(graph, [], w[i - 1], w[i]);
    }
    if s.cycles == [] {
      assert forall w: seq<string> :: !KeptLoop(graph, [], w);
    } else {
      assert s.cycles[0] in s.cycles;
      CycleIsLoop(graph, s.cycles[0]);
      assert KeptLoop(graph, [], s.cycles[0]);
    }
  }

  // --- two packages that depend on each other -------------------------------

  function Pair(a: string, b: string): Graph {
    map[a := {b}, b := {a}]
  }

  function PairRun(a: string, b: string): (run: seq<Search>)
    ensures |run| == 6
  {
    [Start(),
     Search([], [a], {a}, {}, [], [a]),
     Search([], [a, b], {a, b}, {}, [], [a, b]),
     Search([[a, b, a]], [a, b], {a, b}, {}, [], [a, b]),
     Search([[a, b, a]], [a], {a}, {b}, [b], [a, b]),
     Search([[a, b, a]], [], {}, {b, a}, [b, a], [a, b])]
  }

  lemma PairEnters(a: string, b: string)
    requires Before(a, b) && a != b
    ensures Step(Pair(a, b), PairRun(a, b)[0], PairRun(a, b)[1])
    ensures Step(Pair(a, b), PairRun(a, b)[1], PairRun(a, b)[2])
  {
    var g, run := Pair(a, b), PairRun(a, b);
    assert g.Keys - run[0].complete == {a, b};
    assert Least(g.Keys - run[0].complete, a) && Follows(run[0], run[1], a);
    assert Open(g, run[1]) == {b};
    assert Least(Open(g, run[1]), b) && Follows(run[1], run[2], b);
  }

  lemma PairReports(a: string, b: string)
    requires a != b
    ensures Step(Pair(a, b), PairRun(a, b)[2], PairRun(a, b)[3])
  {
    var g, run := Pair(a, b), PairRun(a, b);
    var s := run[2];
    assert Open(g, s) == {a};
    assert s.visiting[0..] + [a] == [a, b, a] && s.visiting[0] == a && s.visiting[..0] == [];
    assert Least(Open(g, s), a) && Follows(s, run[3], a);
  }

  lemma PairLeaves(a: string, b: string)
    requires a != b
    ensures Step(Pair(a, b), PairRun(a, b)[3], PairRun(a, b)[4])
    ensures Step(Pair(a, b), PairRun(a, b)[4], PairRun(a, b)[5])
  {
    var g, run := Pair(a, b), PairRun(a, b);
    assert Closing([a, b, a]) == (b, a) && run[3].cycles[0] == [a, b, a];
    assert Closes(run[3].cycles, b, a);
    assert Open(g, run[3]) == {} && run[3].visiting[..1] == [a] && run[3].active - {b} == {a};
    assert Open(g, run[4]) == {} && run[4].visiting[..0] == [] && run[4].active - {a} == {};
  }

  lemma PairEnds(a: string, b: string)
    ensures var run := PairRun(a, b);
            Done(Pair(a, b), run[5]) && run[0] == Start() && run[5].cycles == [[a, b, a]]
  {
  }

  lemma PairSearched(a: string, b: string)
    requires Before(a, b) && a != b
    ensures Searched(Pair(a, b), PairRun(a, b), [[a, b, a]])
  {
    hide Step, PairRun, Pair, Done;
    PairEnds(a, b);
    PairEnters(a, b);
    PairReports(a, b);
    PairLeaves(a, b);
    var g, run := Pair(a, b), PairRun(a, b);
    forall i | 0 < i < 6 ensures Step(g, run[i - 1], run[i]) {
      assert i == 1 || i == 2 || i == 3 || i == 4 || i == 5;
    }
    assert Trace(g, run, run[5]);
  }

  /** The search reports them once, from the one whose name comes first. */
  lemma PairIsReported(a: string, b: string, run: seq<Search>, cycles: seq<seq<string>>)
    requires Before(a, b) && a != b && Searched(Pair(a, b), run, cycles)
    ensures cycles == [[a, b, a]]
  {
    hide Searched, Pair, PairRun;
    PairSearched(a, b);
    SearchDetermined(Pair(a, b), run, PairRun(a, b), cycles, [[a, b, a]]);
  }
}
