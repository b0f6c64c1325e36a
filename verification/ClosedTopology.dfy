/**
  The topology compiler of the source pack: the words each component feeds to
  each other selected component, compressed to one edge per producer and target.
*/
module ClosedTopology {
  import opened Basics

  /** Bases, widths and instance numbers come from unsigned decimal literals. */
  datatype Feed = Feed(
    field: string, instance: nat, target: string, relation: nat, wordBase: nat, wordsPerInstance: nat)

  datatype Edge = Edge(producer: string, wordBase: nat, wordsPerInstance: nat, instances: nat)

  datatype Capacity = Capacity(producer: string, instances: nat)

  datatype Result =
    | Derived(edges: map<string, seq<Edge>>, capacities: map<string, seq<Capacity>>)
    | NoFeeds(producer: string)
    | NotContiguous(producer: string, target: string)

  type FeedTable = map<string, seq<Feed>>

  function FeedsOf(table: FeedTable, producer: string): seq<Feed> {
    if producer in table then table[producer] else []
  }

  // --- what an edge stands for ----------------------------------------------

  /** One instance's window of words in its producer's sub-input buffer. */
  datatype Window = Window(producer: string, wordBase: nat, words: nat)

  function Slots(producer: string, feeds: seq<Feed>): (windows: seq<Window>)
    ensures |windows| == |feeds|
  {
    seq(|feeds|, i requires 0 <= i < |feeds| =>
      Window(producer, feeds[i].wordBase, feeds[i].wordsPerInstance))
  }

  function Expand(e: Edge): (windows: seq<Window>)
    ensures |windows| == e.instances
  {
    seq(e.instances, i requires 0 <= i < e.instances =>
      Window(e.producer, e.wordBase + i * e.wordsPerInstance, e.wordsPerInstance))
  }

  /** The feeds to one target, in source order. */
  function Group(feeds: seq<Feed>, target: string): (group: seq<Feed>)
    ensures forall f | f in group :: f in feeds && f.target == target
  {
    if feeds == [] then []
    else
      var last := feeds[|feeds| - 1];
      Group(feeds[..|feeds| - 1], target) + if last.target == target then [last] else []
  }

  /** The edge and the group hold the same windows, each as often. */
  ghost predicate Represents(e: Edge, producer: string, group: seq<Feed>) {
    e.producer == producer && multiset(Expand(e)) == multiset(Slots(producer, group))
  }

  /** Some edge stands for the group: its feeds are uniform and contiguous. */
  ghost predicate Compressible(producer: string, group: seq<Feed>) {
    group == [] || exists e :: Represents(e, producer, group)
  }

  // --- one group ------------------------------------------------------------

  predicate ByBase(feeds: seq<Feed>) {
    forall i, j | 0 <= i < j < |feeds| :: feeds[i].wordBase <= feeds[j].wordBase
  }

  lemma ByBaseFrom(list: seq<Feed>, k: nat)
    requires ByBase(list) && 0 < k <= |list|
    ensures forall j | k <= j < |list| :: list[k - 1].wordBase <= list[j].wordBase
  {
  }

  lemma InsertKeepsOrder(list: seq<Feed>, f: Feed, k: nat)
    requires ByBase(list) && k <= |list|
    requires k > 0 ==> list[k - 1].wordBase <= f.wordBase
    requires forall j | k <= j < |list| :: f.wordBase < list[j].wordBase
    ensures ByBase(list[..k] + [f] + list[k..])
  {
    if k > 0 {
      assert forall j | 0 <= j < k :: list[j].wordBase <= list[k - 1].wordBase;
    }
  }

  method InsertByBase(list: seq<Feed>, f: Feed, ghost producer: string) returns (more: seq<Feed>)
    requires ByBase(list)
    ensures ByBase(more) && |more| == |list| + 1
    ensures multiset(Slots(producer, more))
         == multiset(Slots(producer, list)) + multiset{Window(producer, f.wordBase, f.wordsPerInstance)}
  {
    var k := |list|;
    while k > 0 && f.wordBase < list[k - 1].wordBase
      invariant 0 <= k <= |list| && forall j | k <= j < |list| :: f.wordBase < list[j].wordBase
    {
      ByBaseFrom(list, k);
      k := k - 1;
    }
    SlotsInsert(producer, list, f, k);
    InsertKeepsOrder(list, f, k);
    more := list[..k] + [f] + list[k..];
  }

  method SortedByBase(feeds: seq<Feed>, ghost producer: string) returns (list: seq<Feed>)
    ensures ByBase(list) && |list| == |feeds|
    ensures multiset(Slots(producer, list)) == multiset(Slots(producer, feeds))
  {
    hide Slots, ByBase;
    list := [];
    NoSlots(producer);
    for i := 0 to |feeds|
      invariant ByBase(list) && |list| == i
      invariant multiset(Slots(producer, list)) == multiset(Slots(producer, feeds[..i]))
    {
      assert feeds[..i + 1] == feeds[..i] + [feeds[i]];
      SlotsInsert(producer, feeds[..i], feeds[i], i);
      list := InsertByBase(list, feeds[i], producer);
    }
    assert feeds[..|feeds|] == feeds;
  }

  lemma NoSlots(producer: string)
    ensures ByBase([]) && Slots(producer, []) == []
  {
  }

  lemma SlotsInsert(producer: string, feeds: seq<Feed>, f: Feed, k: nat)
    requires k <= |feeds|
    ensures multiset(Slots(producer, feeds[..k] + [f] + feeds[k..]))
         == multiset(Slots(producer, feeds)) + multiset{Window(producer, f.wordBase, f.wordsPerInstance)}
    ensures Slots(producer, feeds + [f])
         == Slots(producer, feeds) + [Window(producer, f.wordBase, f.wordsPerInstance)]
  {
    var s := Slots(producer, feeds);
    var w := Window(producer, f.wordBase, f.wordsPerInstance);
    assert Slots(producer, feeds[..k] + [f] + feeds[k..]) == s[..k] + [w] + s[k..];
    assert s == s[..k] + s[k..];
  }

  predicate Ascending(windows: seq<Window>) {
    forall i, j | 0 <= i < j < |windows| :: windows[i].wordBase <= windows[j].wordBase
  }

  predicate Uniform(windows: seq<Window>, producer: string, words: nat) {
    forall w | w in windows :: w.producer == producer && w.words == words
  }

  lemma SameHead(a: seq<Window>, b: seq<Window>, producer: string, words: nat)
    requires a != [] && Ascending(a) && Ascending(b) && Uniform(b, producer, words)
    requires multiset(a) == multiset(b)
    ensures b != [] && a[0] == b[0]
  {
    assert a[0] in multiset(a) && a[0] in multiset(b);
    assert b[0] in multiset(b) && b[0] in multiset(a);
    var i :| 0 <= i < |b| && b[i] == a[0];
    var j :| 0 <= j < |a| && a[j] == b[0];
  }

  lemma TailBag(a: seq<Window>)
    requires a != []
    ensures multiset(a[1..]) == multiset(a) - multiset{a[0]}
  {
    assert a == [a[0]] + a[1..];
  }

  /** Ascending windows of one width are determined by which windows they are. */
  lemma {:induction false} AscendingUnique(a: seq<Window>, b: seq<Window>, producer: string, words: nat)
    requires Ascending(a) && Ascending(b) && Uniform(b, producer, words)
    requires multiset(a) == multiset(b)
    ensures a == b
    decreases |a|
  {
    if a != [] {
      SameHead(a, b, producer, words);
      TailBag(a);
      TailBag(b);
      assert Uniform(b[1..], producer, words);
      AscendingUnique(a[1..], b[1..], producer, words);
      assert a == [a[0]] + a[1..] && b == [b[0]] + b[1..];
    } else {
      assert |multiset(b)| == 0;
    }
  }

  lemma ExpandAscends(e: Edge)
    ensures Ascending(Expand(e)) && Uniform(Expand(e), e.producer, e.wordsPerInstance)
  {
    forall i, j | 0 <= i < j < e.instances
      ensures e.wordBase + i * e.wordsPerInstance <= e.wordBase + j * e.wordsPerInstance
    {
      assert (j - i) * e.wordsPerInstance >= 0;
    }
  }

  /** Feeds in base order are compressible exactly when each starts where the one before ends. */
  lemma SortedRunTest(producer: string, list: seq<Feed>, e: Edge)
    requires list != [] && ByBase(list)
    requires e == Edge(producer, list[0].wordBase, list[0].wordsPerInstance, |list|)
    ensures Represents(e, producer, list) <==> Slots(producer, list) == Expand(e)
    ensures (exists other :: Represents(other, producer, list)) <==> Slots(producer, list) == Expand(e)
  {
    forall other | Represents(other, producer, list) ensures Slots(producer, list) == Expand(e) {
      ExpandAscends(other);
      var slots := Slots(producer, list);
      assert Ascending(slots);
      AscendingUnique(slots, Expand(other), producer, other.wordsPerInstance);
      assert slots[0] == Expand(other)[0];
      assert other == e;
    }
    if Slots(producer, list) == Expand(e) {
      assert Represents(e, producer, list);
    }
  }

  /** An edge is determined by the windows it stands for. */
  lemma EdgeIsDetermined(a: Edge, b: Edge)
    requires a.instances > 0
    ensures multiset(Expand(a)) == multiset(Expand(b)) <==> a == b
  {
    if multiset(Expand(a)) == multiset(Expand(b)) {
      ExpandAscends(a);
      ExpandAscends(b);
      AscendingUnique(Expand(a), Expand(b), b.producer, b.wordsPerInstance);
      assert Expand(a)[0] == Expand(b)[0];
    }
  }

  method CompressGroup(producer: string, group: seq<Feed>) returns (ok: bool, e: Edge)
    requires group != []
    ensures ok <==> Compressible(producer, group)
    ensures ok ==> Represents(e, producer, group) && e.instances == |group|
  {
    var feeds := SortedByBase(group, producer);
    var width := feeds[0].wordsPerInstance;
    var first := feeds[0].wordBase;
    e := Edge(producer, first, width, |feeds|);
    SortedRunTest(producer, feeds, e);
    SameWindowsCompress(producer, feeds, group);
    for index := 0 to |feeds|
      invariant forall i | 0 <= i < index :: Slots(producer, feeds)[i] == Expand(e)[i]
    {
      if feeds[index].wordsPerInstance != width || feeds[index].wordBase != first + index * width {
        assert Slots(producer, feeds)[index] != Expand(e)[index];
        return false, e;
      }
    }
    assert Slots(producer, feeds) == Expand(e);
    ok := true;
  }

  lemma SameWindowsCompress(producer: string, a: seq<Feed>, b: seq<Feed>)
    requires a != [] && b != [] && multiset(Slots(producer, a)) == multiset(Slots(producer, b))
    ensures forall e :: Represents(e, producer, a) <==> Represents(e, producer, b)
    ensures Compressible(producer, a) <==> Compressible(producer, b)
  {
    if Compressible(producer, a) {
      var e :| Represents(e, producer, a);
      assert Represents(e, producer, b);
    }
    if Compressible(producer, b) {
      var e :| Represents(e, producer, b);
      assert Represents(e, producer, a);
    }
  }

  // --- the whole topology ---------------------------------------------------

  /**
    The edges into one target are one edge for each producer, in order, that
    feeds the target at all, standing for exactly what it feeds.
  */
  ghost predicate Compresses(order: seq<string>, table: FeedTable, target: string, edges: seq<Edge>)
  {
    if order == [] then edges == []
    else
      var n := |order| - 1;
      var group := Group(FeedsOf(table, order[n]), target);
      if group == [] then Compresses(order[..n], table, target, edges)
      else
        edges != [] && Represents(edges[|edges| - 1], order[n], group)
        && edges[|edges| - 1].instances == |group|
        && Compresses(order[..n], table, target, edges[..|edges| - 1])
  }

  ghost predicate AllCompressible(order: seq<string>, table: FeedTable, selected: set<string>)
  {
    forall p, t | p in order && t in selected :: Compressible(p, Group(FeedsOf(table, p), t))
  }

  function CapacitiesOf(edges: seq<Edge>): (capacities: seq<Capacity>)
    ensures |capacities| == |edges|
  {
    seq(|edges|, i requires 0 <= i < |edges| => Capacity(edges[i].producer, edges[i].instances))
  }

  ghost predicate Grouped(feeds: seq<Feed>, selected: set<string>, grouped: map<string, seq<Feed>>, keys: seq<string>) {
    && (forall t :: t in grouped <==> t in selected && Group(feeds, t) != [])
    && (forall t | t in grouped :: grouped[t] == Group(feeds, t))
    && (forall t :: t in keys <==> t in grouped)
    && (forall i, j | 0 <= i < j < |keys| :: keys[i] != keys[j])
  }

  lemma GroupNext(feeds: seq<Feed>, i: nat, target: string)
    requires i < |feeds|
    ensures Group(feeds[..i + 1], target)
         == Group(feeds[..i], target) + if feeds[i].target == target then [feeds[i]] else []
  {
    assert feeds[..i + 1][..i] == feeds[..i];
  }

  lemma GroupedNext(feeds: seq<Feed>, i: nat, selected: set<string>, grouped: map<string, seq<Feed>>, keys: seq<string>)
    requires i < |feeds| && Grouped(feeds[..i], selected, grouped, keys)
    ensures var f := feeds[i]; var list := if f.target in grouped then grouped[f.target] else [];
            if f.target in selected
            then Grouped(feeds[..i + 1], selected, grouped[f.target := list + [f]],
                         if f.target in grouped then keys else keys + [f.target])
            else Grouped(feeds[..i + 1], selected, grouped, keys)
  {
    hide Group;
    forall t ensures Group(feeds[..i + 1], t)
                  == Group(feeds[..i], t) + if feeds[i].target == t then [feeds[i]] else []
    {
      GroupNext(feeds, i, t);
    }
  }

  /** The insertion-ordered dictionary of the feeds to selected targets. */
  method GroupByTarget(feeds: seq<Feed>, selected: set<string>)
    returns (grouped: map<string, seq<Feed>>, keys: seq<string>)
    ensures Grouped(feeds, selected, grouped, keys)
  {
    grouped := map[];
    keys := [];
    assert Grouped(feeds[..0], selected, grouped, keys);
    hide Grouped;
    for i := 0 to |feeds|
      invariant Grouped(feeds[..i], selected, grouped, keys)
    {
      var feed := feeds[i];
      GroupedNext(feeds, i, selected, grouped, keys);
      if feed.target in selected {
        var list := [];
        if feed.target in grouped {
          list := grouped[feed.target];
        } else {
          keys := keys + [feed.target];
        }
        grouped := grouped[feed.target := list + [feed]];
      }
    }
    assert feeds[..|feeds|] == feeds;
  }

  ghost predicate Keyed(order: seq<string>, edges: map<string, seq<Edge>>, capacities: map<string, seq<Capacity>>) {
    forall t :: (t in edges <==> t in order) && (t in capacities <==> t in order)
  }

  /** One target's lists after the first `k` producers. */
  ghost predicate UpTo(order: seq<string>, table: FeedTable, k: nat, target: string,
                       edges: seq<Edge>, capacities: seq<Capacity>)
  {
    k <= |order| && Compresses(order[..k], table, target, edges) && capacities == CapacitiesOf(edges)
  }

  /** The dictionaries after producers `order[..i]`, and targets `done` of the next one. */
  ghost predicate Progress(order: seq<string>, table: FeedTable, i: nat, done: set<string>,
                           edges: map<string, seq<Edge>>, capacities: map<string, seq<Capacity>>)
  {
    && Keyed(order, edges, capacities)
    && forall t | t in order ::
         UpTo(order, table, if t in done then i + 1 else i, t, edges[t], capacities[t])
  }

  lemma AppendEdge(order: seq<string>, table: FeedTable, i: nat, done: set<string>, target: string, e: Edge,
                   edges: map<string, seq<Edge>>, capacities: map<string, seq<Capacity>>)
    requires i < |order| && target in order && target !in done
    requires Progress(order, table, i, done, edges, capacities)
    requires Group(FeedsOf(table, order[i]), target) != []
    requires Represents(e, order[i], Group(FeedsOf(table, order[i]), target))
    requires e.instances == |Group(FeedsOf(table, order[i]), target)|
    ensures var more := edges[target := edges[target] + [e]];
            var most := capacities[target := capacities[target] + [Capacity(order[i], e.instances)]];
            Keyed(order, more, most) && Progress(order, table, i, done + {target}, more, most)
  {
    CompressesAppend(order, table, i, target, e, edges[target], capacities[target]);
    hide UpTo, Represents, Group;
  }

  lemma CompressesAppend(order: seq<string>, table: FeedTable, i: nat, target: string, e: Edge,
                         edges: seq<Edge>, capacities: seq<Capacity>)
    requires i < |order| && UpTo(order, table, i, target, edges, capacities)
    requires Group(FeedsOf(table, order[i]), target) != []
    requires Represents(e, order[i], Group(FeedsOf(table, order[i]), target))
    requires e.instances == |Group(FeedsOf(table, order[i]), target)|
    ensures UpTo(order, table, i + 1, target, edges + [e], capacities + [Capacity(order[i], e.instances)])
  {
    assert e.producer == order[i];
    hide Represents, Group;
    assert (edges + [e])[..|edges|] == edges;
    assert order[..i + 1][..i] == order[..i];
    CapacitiesAppend(edges, e);
  }

  lemma CapacitiesAppend(edges: seq<Edge>, e: Edge)
    ensures CapacitiesOf(edges + [e]) == CapacitiesOf(edges) + [Capacity(e.producer, e.instances)]
  {
  }

  lemma NoProducers(order: seq<string>, table: FeedTable,
                    edges: map<string, seq<Edge>>, capacities: map<string, seq<Capacity>>)
    requires Keyed(order, edges, capacities)
    requires forall t | t in edges :: edges[t] == [] && capacities[t] == []
    ensures Progress(order, table, 0, {}, edges, capacities)
  {
  }

  lemma NextProducer(order: seq<string>, table: FeedTable, i: nat, done: set<string>,
                     edges: map<string, seq<Edge>>, capacities: map<string, seq<Capacity>>)
    requires i < |order| && Progress(order, table, i, done, edges, capacities)
    requires forall t | t in order && t !in done :: Group(FeedsOf(table, order[i]), t) == []
    ensures Progress(order, table, i + 1, {}, edges, capacities)
  {
    hide Group, Represents, CapacitiesOf;
    assert order[..i + 1][..i] == order[..i];
    forall t | t in order ensures UpTo(order, table, i + 1, t, edges[t], capacities[t]) {
    }
  }

  lemma KeyOfGroup(feeds: seq<Feed>, selected: set<string>, grouped: map<string, seq<Feed>>,
                   keys: seq<string>, k: nat)
    requires Grouped(feeds, selected, grouped, keys) && k < |keys|
    ensures keys[k] in selected && keys[k] in grouped && keys[k] !in keys[..k]
    ensures grouped[keys[k]] == Group(feeds, keys[k]) != []
  {
    assert keys[k] in keys;
  }

  lemma PrefixMember(keys: seq<string>, k: nat)
    requires k < |keys|
    ensures forall t :: t in keys[..k + 1] <==> t in keys[..k] || t == keys[k]
  {
    assert keys[..k + 1] == keys[..k] + [keys[k]];
  }

  lemma SilentTargets(producer: string, feeds: seq<Feed>, selected: set<string>,
                      grouped: map<string, seq<Feed>>, keys: seq<string>)
    requires Grouped(feeds, selected, grouped, keys)
    ensures forall t | t in selected && t !in keys ::
              Group(feeds, t) == [] && Compressible(producer, Group(feeds, t))
  {
  }

  /** One target's turn: check its group, then append an edge and a capacity. */
  method AddTarget(order: seq<string>, table: FeedTable, i: nat, ghost done: set<string>, target: string,
                   group: seq<Feed>, edges: map<string, seq<Edge>>, capacities: map<string, seq<Capacity>>)
    returns (r: Result)
    requires i < |order| && target in order && target !in done
    requires Progress(order, table, i, done, edges, capacities)
    requires group == Group(FeedsOf(table, order[i]), target) != []
    ensures !r.NoFeeds?
    ensures r.Derived? <==> Compressible(order[i], group)
    ensures r.Derived? ==> Progress(order, table, i, done + {target}, r.edges, r.capacities)
    ensures r.NotContiguous? ==> r.producer == order[i] && r.target == target
  {
    var ok, e := CompressGroup(order[i], group);
    if !ok {
      return NotContiguous(order[i], target);
    }
    assert Keyed(order, edges, capacities);
    AppendEdge(order, table, i, done, target, e, edges, capacities);
    hide Progress, Group, Represents, Compressible;
    r := Derived(edges[target := edges[target] + [e]],
                 capacities[target := capacities[target] + [Capacity(order[i], e.instances)]]);
  }

  /** One producer's turn. */
  method AddProducer(order: seq<string>, table: FeedTable, i: nat,
                     edges: map<string, seq<Edge>>, capacities: map<string, seq<Capacity>>)
    returns (r: Result)
    requires i < |order| && Progress(order, table, i, {}, edges, capacities)
    ensures !r.NoFeeds?
    ensures r.Derived? ==> Progress(order, table, i + 1, {}, r.edges, r.capacities)
    ensures r.Derived? <==> forall t | t in order :: Compressible(order[i], Group(FeedsOf(table, order[i]), t))
    ensures r.NotContiguous? ==>
              && r.producer == order[i] && r.target in order
              && !Compressible(r.producer, Group(FeedsOf(table, r.producer), r.target))
  {
    hide Compresses, Represents, Group, Grouped, Compressible, CapacitiesOf, Progress, FeedsOf;
    var producer := order[i];
    var feeds := FeedsOf(table, producer);
    var grouped, keys := GroupByTarget(feeds, (set t | t in order));
    ghost var done := {};
    r := Derived(edges, capacities);
    for k := 0 to |keys|
      invariant forall t :: t in done <==> t in keys[..k]
      invariant r.Derived? && Progress(order, table, i, done, r.edges, r.capacities)
      invariant forall t | t in done :: Compressible(producer, Group(feeds, t))
    {
      var target := keys[k];
      KeyOfGroup(feeds, (set t | t in order), grouped, keys, k);
      r := AddTarget(order, table, i, done, target, grouped[target], r.edges, r.capacities);
      if r.NotContiguous? {
        return;
      }
      done := done + {target};
      PrefixMember(keys, k);
    }
    assert keys[..|keys|] == keys;
    SilentTargets(producer, feeds, (set t | t in order), grouped, keys);
    NextProducer(order, table, i, done, r.edges, r.capacities);
  }

  lemma CompressiblePrefix(order: seq<string>, table: FeedTable, i: nat, selected: set<string>)
    requires i < |order|
    ensures AllCompressible(order[..i + 1], table, selected) <==>
              AllCompressible(order[..i], table, selected)
              && forall t | t in selected :: Compressible(order[i], Group(FeedsOf(table, order[i]), t))
    ensures AllCompressible(order, table, selected) ==> AllCompressible(order[..i + 1], table, selected)
  {
    assert order[..i + 1] == order[..i] + [order[i]];
    assert order[i] in order[..i + 1];
  }

  lemma CompressibleStart(order: seq<string>, table: FeedTable, selected: set<string>)
    ensures AllCompressible(order[..0], table, selected)
  {
  }

  method DeriveClosedTopology(order: seq<string>, table: FeedTable) returns (r: Result)
    ensures r.Derived? <==>
              (forall p | p in order :: p in table) && AllCompressible(order, table, set t | t in order)
    ensures r.NoFeeds? ==> r.producer in order && r.producer !in table
    ensures r.Derived? ==>
              && Keyed(order, r.edges, r.capacities)
              && (forall t | t in order ::
                    Compresses(order, table, t, r.edges[t])
                    && r.capacities[t] == CapacitiesOf(r.edges[t]))
    ensures r.NotContiguous? ==>
              && r.producer in order && r.target in order
              && !Compressible(r.producer, Group(FeedsOf(table, r.producer), r.target))
  {
    hide Compresses, Represents, Group, Compressible, CapacitiesOf, AllCompressible;
    var selected := set t | t in order;
    var edges: map<string, seq<Edge>> := map t | t in selected :: [];
    var capacities: map<string, seq<Capacity>> := map t | t in selected :: [];
    NoProducers(order, table, edges, capacities);
    CompressibleStart(order, table, selected);
    for i := 0 to |order|
      invariant Progress(order, table, i, {}, edges, capacities)
      invariant AllCompressible(order[..i], table, selected)
      invariant forall p | p in order[..i] :: p in table
    {
      if order[i] !in table {
        return NoFeeds(order[i]);
      }
      CompressiblePrefix(order, table, i, selected);
      r := AddProducer(order, table, i, edges, capacities);
      if r.NotContiguous? {
        assert order[i] in order;
        return;
      }
      edges, capacities := r.edges, r.capacities;
    }
    assert order[..|order|] == order;
    r := Derived(edges, capacities);
  }

  // --- what the topology means ----------------------------------------------

  function ExpandAll(edges: seq<Edge>): seq<Window> {
    if edges == [] then [] else ExpandAll(edges[..|edges| - 1]) + Expand(edges[|edges| - 1])
  }

  /** Every window the selected producers feed to a target. */
  function AllFed(order: seq<string>, table: FeedTable, target: string): seq<Window>
  {
    if order == [] then []
    else
      var n := |order| - 1;
      AllFed(order[..n], table, target) + Slots(order[n], Group(FeedsOf(table, order[n]), target))
  }

  /** Expanding a target's edges gives back exactly the feeds into it. */
  lemma {:induction false} CompressionIsLossless(order: seq<string>, table: FeedTable, target: string, edges: seq<Edge>)
    requires Compresses(order, table, target, edges)
    ensures multiset(ExpandAll(edges)) == multiset(AllFed(order, table, target))
  {
    if order != [] {
      var n := |order| - 1;
      var group := Group(FeedsOf(table, order[n]), target);
      if group == [] {
        CompressionIsLossless(order[..n], table, target, edges);
        assert Slots(order[n], group) == [];
      } else {
        CompressionIsLossless(order[..n], table, target, edges[..|edges| - 1]);
      }
    }
  }

  function Instances(capacities: seq<Capacity>): nat {
    if capacities == [] then 0
    else Instances(capacities[..|capacities| - 1]) + capacities[|capacities| - 1].instances
  }

  /** What one producer provides to a target, over all its entries. */
  function Provided(capacities: seq<Capacity>, producer: string): nat {
    if capacities == [] then 0
    else
      var last := capacities[|capacities| - 1];
      Provided(capacities[..|capacities| - 1], producer) + if last.producer == producer then last.instances else 0
  }

  lemma LastCapacity(edges: seq<Edge>, producer: string)
    requires edges != []
    ensures var n := |edges| - 1;
      && Instances(CapacitiesOf(edges)) == Instances(CapacitiesOf(edges[..n])) + edges[n].instances
      && Provided(CapacitiesOf(edges), producer) == Provided(CapacitiesOf(edges[..n]), producer)
           + if edges[n].producer == producer then edges[n].instances else 0
  {
    assert CapacitiesOf(edges)[..|edges| - 1] == CapacitiesOf(edges[..|edges| - 1]);
  }

  lemma RepresentsNames(e: Edge, producer: string, group: seq<Feed>)
    requires Represents(e, producer, group)
    ensures e.producer == producer
  {
  }

  function Occurrences(order: seq<string>, producer: string): nat {
    multiset(order)[producer]
  }

  lemma LastOccurrence(order: seq<string>, producer: string, size: nat)
    requires order != []
    ensures var n := |order| - 1;
      Occurrences(order, producer) * size
        == Occurrences(order[..n], producer) * size + if order[n] == producer then size else 0
  {
    var n := |order| - 1;
    assert order == order[..n] + [order[n]];
    var before := Occurrences(order[..n], producer);
    assert (before + 1) * size == before * size + size;
  }

  /**
    Capacities conserve feeds: a target's capacity from one producer is the
    number of its feeds, once per place of the producer in the order, and its
    whole capacity is the number of feeds into it.
  */
  lemma {:induction false} CapacitiesConserveFeeds(
    order: seq<string>, table: FeedTable, target: string, edges: seq<Edge>, producer: string)
    requires Compresses(order, table, target, edges)
    ensures Provided(CapacitiesOf(edges), producer)
         == Occurrences(order, producer) * |Group(FeedsOf(table, producer), target)|
    ensures Instances(CapacitiesOf(edges)) == |AllFed(order, table, target)|
  {
    hide Group, Represents;
    if order == [] {
      assert CapacitiesOf(edges) == [];
    } else {
      hide Occurrences, Provided, Instances, CapacitiesOf;
      var n := |order| - 1;
      var group := Group(FeedsOf(table, order[n]), target);
      LastOccurrence(order, producer, |Group(FeedsOf(table, producer), target)|);
      if group == [] {
        CapacitiesConserveFeeds(order[..n], table, target, edges, producer);
      } else {
        LastCapacity(edges, producer);
        CapacitiesConserveFeeds(order[..n], table, target, edges[..|edges| - 1], producer);
        RepresentsNames(edges[|edges| - 1], order[n], group);
      }
    }
  }

  // --- the order feeds are listed in does not matter ------------------------

  lemma {:induction false} GroupAppend(a: seq<Feed>, b: seq<Feed>, target: string)
    ensures Group(a + b, target) == Group(a, target) + Group(b, target)
  {
    if b == [] {
      assert a + b == a;
    } else {
      var n := |b| - 1;
      assert (a + b)[..|a + b| - 1] == a + b[..n];
      GroupAppend(a, b[..n], target);
    }
  }

  lemma SlotsAppend(producer: string, a: seq<Feed>, b: seq<Feed>)
    ensures Slots(producer, a + b) == Slots(producer, a) + Slots(producer, b)
  {
  }

  function Fed(producer: string, feeds: seq<Feed>, target: string): multiset<Window> {
    multiset(Slots(producer, Group(feeds, target)))
  }

  lemma FedAppend(producer: string, a: seq<Feed>, b: seq<Feed>, target: string)
    ensures Fed(producer, a + b, target) == Fed(producer, a, target) + Fed(producer, b, target)
  {
    GroupAppend(a, b, target);
    SlotsAppend(producer, Group(a, target), Group(b, target));
  }

  lemma PermutedGroup(producer: string, a: seq<Feed>, b: seq<Feed>, target: string)
    requires multiset(a) == multiset(b)
    ensures Fed(producer, a, target) == Fed(producer, b, target)
  {
    hide Fed;
    var fed := (feeds: seq<Feed>) => Fed(producer, feeds, target);
    forall x: seq<Feed>, y: seq<Feed> ensures fed(x + y) == Join(fed(x), fed(y)) {
      FedAppend(producer, x, y, target);
    }
    JoinExchanges<Window>();
    AdditivePermuted(fed, Join, a, b);
  }

  /** The tables list the same feeds for each producer, in any order. */
  predicate SameFeeds(order: seq<string>, a: FeedTable, b: FeedTable) {
    forall p | p in order :: multiset(FeedsOf(a, p)) == multiset(FeedsOf(b, p))
  }

  lemma LastFeeds(order: seq<string>, a: FeedTable, b: FeedTable)
    requires order != [] && SameFeeds(order, a, b)
    ensures var n := |order| - 1;
            SameFeeds(order[..n], a, b) && multiset(FeedsOf(a, order[n])) == multiset(FeedsOf(b, order[n]))
  {
  }

  /** Two tables that list the same feeds, in any order, have the same edges. */
  lemma {:induction false} FeedOrderIrrelevant(
    order: seq<string>, a: FeedTable, b: FeedTable, target: string, x: seq<Edge>, y: seq<Edge>)
    requires SameFeeds(order, a, b)
    requires Compresses(order, a, target, x) && Compresses(order, b, target, y)
    ensures x == y
    decreases |order|
  {
    hide Group, Represents, SameFeeds, FeedsOf;
    if order != [] {
      var n := |order| - 1;
      var p := order[n];
      LastFeeds(order, a, b);
      SameGroupSize(p, FeedsOf(a, p), FeedsOf(b, p), target);
      if Group(FeedsOf(a, p), target) == [] {
        FeedOrderIrrelevant(order[..n], a, b, target, x, y);
      } else {
        SameEdge(p, FeedsOf(a, p), FeedsOf(b, p), target, x[|x| - 1], y[|y| - 1]);
        FeedOrderIrrelevant(order[..n], a, b, target, x[..|x| - 1], y[..|y| - 1]);
        assert x == x[..|x| - 1] + [x[|x| - 1]] && y == y[..|y| - 1] + [y[|y| - 1]];
      }
    }
  }

  lemma SameGroupSize(producer: string, a: seq<Feed>, b: seq<Feed>, target: string)
    requires multiset(a) == multiset(b)
    ensures |Group(a, target)| == |Group(b, target)|
  {
    PermutedGroup(producer, a, b, target);
    var ga, gb := Group(a, target), Group(b, target);
    assert |ga| == |multiset(Slots(producer, ga))| == |multiset(Slots(producer, gb))| == |gb|;
  }

  lemma SameEdge(producer: string, a: seq<Feed>, b: seq<Feed>, target: string, x: Edge, y: Edge)
    requires multiset(a) == multiset(b) && x.instances > 0
    requires Represents(x, producer, Group(a, target)) && Represents(y, producer, Group(b, target))
    ensures x == y
  {
    PermutedGroup(producer, a, b, target);
    EdgeIsDetermined(x, y);
  }

  /** Whether a topology exists depends only on which feeds each component lists. */
  lemma FeedOrderKeepsVerdict(order: seq<string>, a: FeedTable, b: FeedTable, selected: set<string>)
    requires SameFeeds(order, a, b)
    ensures AllCompressible(order, a, selected) <==> AllCompressible(order, b, selected)
  {
    forall p, t | p in order && t in selected
      ensures Compressible(p, Group(FeedsOf(a, p), t)) <==> Compressible(p, Group(FeedsOf(b, p), t))
    {
      PermutedGroup(p, FeedsOf(a, p), FeedsOf(b, p), t);
      SameGroupSize(p, FeedsOf(a, p), FeedsOf(b, p), t);
      var ga, gb := Group(FeedsOf(a, p), t), Group(FeedsOf(b, p), t);
      if ga != [] { SameWindowsCompress(p, ga, gb); }
    }
  }

  // --- windows counted over the feed table ----------------------------------

  /** How many of a producer's feeds put this window into the target. */
  function FeedCount(feeds: seq<Feed>, producer: string, target: string, w: Window): nat {
    if feeds == [] then 0
    else
      var f := feeds[|feeds| - 1];
      FeedCount(feeds[..|feeds| - 1], producer, target, w)
      + if f.target == target && Window(producer, f.wordBase, f.wordsPerInstance) == w then 1 else 0
  }

  function TableCount(order: seq<string>, table: FeedTable, target: string, w: Window): nat {
    if order == [] then 0
    else
      var p := order[|order| - 1];
      TableCount(order[..|order| - 1], table, target, w)
      + FeedCount(if p in table then table[p] else [], p, target, w)
  }

  lemma {:induction false} GroupKeepsFeeds(feeds: seq<Feed>, producer: string, target: string, w: Window)
    ensures multiset(Slots(producer, Group(feeds, target)))[w] == FeedCount(feeds, producer, target, w)
  {
    if feeds == [] {
      NoSlots(producer);
    } else {
      var n := |feeds| - 1;
      var init, f := feeds[..n], feeds[n];
      GroupKeepsFeeds(init, producer, target, w);
      if f.target == target {
        assert Group(feeds, target) == Group(init, target) + [f];
        SlotsInsert(producer, Group(init, target), f, 0);
      } else {
        assert Group(feeds, target) == Group(init, target);
      }
    }
  }

  lemma {:induction false} AllFedCounts(order: seq<string>, table: FeedTable, target: string, w: Window)
    ensures multiset(AllFed(order, table, target))[w] == TableCount(order, table, target, w)
  {
    hide Group, Slots, FeedCount;
    if order != [] {
      var n := |order| - 1;
      AllFedCounts(order[..n], table, target, w);
      GroupKeepsFeeds(FeedsOf(table, order[n]), order[n], target, w);
    }
  }

  /** The edges into a target stand for every window as often as the feed table lists it for that target. */
  lemma EdgesCountFeeds(order: seq<string>, table: FeedTable, target: string, edges: seq<Edge>, w: Window)
    requires Compresses(order, table, target, edges)
    ensures multiset(ExpandAll(edges))[w] == TableCount(order, table, target, w)
  {
    hide Compresses, AllFed, ExpandAll;
    CompressionIsLossless(order, table, target, edges);
    AllFedCounts(order, table, target, w);
  }

  /** What an edge says of the feeds it stands for: one width, and bases one width apart from the first. */
  lemma EdgeMeans(e: Edge, producer: string, group: seq<Feed>)
    requires Represents(e, producer, group)
    ensures e.producer == producer && e.instances == |group|
    ensures forall f | f in group ::
              f.wordsPerInstance == e.wordsPerInstance
              && exists i :: 0 <= i < e.instances && f.wordBase == e.wordBase + i * e.wordsPerInstance
    ensures forall i | 0 <= i < e.instances ::
              exists f :: f in group && f.wordBase == e.wordBase + i * e.wordsPerInstance
  {
    var windows, slots := Expand(e), Slots(producer, group);
    assert |multiset(windows)| == |multiset(slots)|;
    forall f | f in group
      ensures f.wordsPerInstance == e.wordsPerInstance
      ensures exists i :: 0 <= i < e.instances && f.wordBase == e.wordBase + i * e.wordsPerInstance
    {
      var k :| 0 <= k < |group| && group[k] == f;
      assert slots[k] in multiset(slots);
      assert slots[k] in multiset(windows);
      var i :| 0 <= i < |windows| && windows[i] == slots[k];
    }
    forall i | 0 <= i < e.instances
      ensures exists f :: f in group && f.wordBase == e.wordBase + i * e.wordsPerInstance
    {
      assert windows[i] in multiset(windows);
      assert windows[i] in multiset(slots);
      var k :| 0 <= k < |slots| && slots[k] == windows[i];
      assert group[k] in group;
    }
  }
}
