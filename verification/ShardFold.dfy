/**
  The uniqueness board: the questions it asks about every family, and how shard
  verdicts fold back into one verdict per family.

  A shard's verdict is given; the solver is not modelled.
*/
module ShardFold {
  import opened Basics
  import opened RelationBus
  import opened LinearForms
  import opened AirSystem
  import opened CaseSplit
  import opened Names

  // --- the job list ---------------------------------------------------------

  datatype Query = Whole | Uniqueness(shard: Shard) | Probe(selector: string)

  /** A question about one of the families. */
  datatype Job = Job(at: nat, query: Query)

  /** Everything the board will ask about one family. */
  predicate Asked(s: System, selectors: seq<string>, splitOutputs: bool, query: Query) {
    var cases := Cases(selectors);
    if ByRole(s.columns, Output) == [] then query == Whole
    else match query
      case Whole => false
      case Uniqueness(shard) => InPlan(shard, Axes(ByRole(s.columns, Output), splitOutputs), cases)
      case Probe(selector) => selector in cases
  }

  ghost predicate PlanHolds(systems: seq<System>, groups: seq<seq<string>>, splitOutputs: bool, jobs: seq<Job>)
    requires |groups| == |systems|
  {
    forall job :: job in jobs <==>
      job.at < |systems| && Asked(systems[job.at], groups[job.at], splitOutputs, job.query)
  }

  function UniqueQueries(shards: seq<Shard>): seq<Query> {
    seq(|shards|, i requires 0 <= i < |shards| => Uniqueness(shards[i]))
  }

  function ProbeQueries(names: seq<string>): seq<Query> {
    seq(|names|, i requires 0 <= i < |names| => Probe(names[i]))
  }

  function CaseNames(selectors: seq<string>): set<string> {
    set name | name in Cases(selectors)
  }

  /** Every shard, then one probe a case in name order. */
  ghost function QueriesFor(s: System, selectors: seq<string>, splitOutputs: bool): seq<Query> {
    var outputs := ByRole(s.columns, Output);
    if outputs == [] then [Whole]
    else UniqueQueries(ShardsFor(Axes(outputs, splitOutputs), Cases(selectors)))
         + ProbeQueries(SortedList(CaseNames(selectors)))
  }

  function JobsAt(at: nat, queries: seq<Query>): seq<Job> {
    seq(|queries|, i requires 0 <= i < |queries| => Job(at, queries[i]))
  }

  /** Family by family, every question in order. */
  ghost function JobsFor(systems: seq<System>, groups: seq<seq<string>>, splitOutputs: bool): seq<Job>
    requires |groups| == |systems|
  {
    if systems == [] then []
    else
      var n := |systems| - 1;
      JobsFor(systems[..n], groups[..n], splitOutputs) + JobsAt(n, QueriesFor(systems[n], groups[n], splitOutputs))
  }

  /** `groups` are the families' own one-hot selectors, or none when opcodes are not split. */
  ghost predicate PlanWith(systems: seq<System>, splitOutputs: bool, splitOpcodes: bool,
                           groups: seq<seq<string>>, jobs: seq<Job>)
    requires forall at | 0 <= at < |systems| :: Loaded(systems[at])
  {
    && |groups| == |systems| && jobs == JobsFor(systems, groups, splitOutputs)
    && forall at | 0 <= at < |systems| ::
         if splitOpcodes then SelectorsOf(systems[at], groups[at]) else groups[at] == []
  }

  method PlanFamily(s: System, selectors: seq<string>, splitOutputs: bool) returns (queries: seq<Query>)
    ensures queries == QueriesFor(s, selectors, splitOutputs)
  {
    hide ByRole, Axes, Cases, ShardsFor, SortedList;
    if ByRole(s.columns, Output) == [] {
      return [Whole];
    }
    var shards := PlanShards(s, selectors, splitOutputs);
    SelectorsOfShards(s, selectors, splitOutputs);
    var names := Sorted(set shard | shard in shards :: shard.selector);
    queries := UniqueQueries(shards) + ProbeQueries(names);
  }

  /** Each case has a shard, whatever the outputs are. */
  lemma SelectorsOfShards(s: System, selectors: seq<string>, splitOutputs: bool)
    requires ByRole(s.columns, Output) != []
    ensures var shards := ShardsFor(Axes(ByRole(s.columns, Output), splitOutputs), Cases(selectors));
            (set shard | shard in shards :: shard.selector) == CaseNames(selectors)
  {
    var outputs := Axes(ByRole(s.columns, Output), splitOutputs);
    var shards := ShardsFor(outputs, Cases(selectors));
    ShardMembers(outputs, Cases(selectors));
    assert outputs[0] in outputs;
    hide ShardsFor;
    forall name | name in CaseNames(selectors) ensures name in set shard | shard in shards :: shard.selector {
      assert Shard(outputs[0], name) in shards;
    }
  }

  /** Asks every family in order, with its own selectors. */
  method Plan(systems: seq<System>, splitOutputs: bool, splitOpcodes: bool) returns (jobs: seq<Job>)
    requires forall at | 0 <= at < |systems| :: Loaded(systems[at])
    ensures exists groups :: PlanWith(systems, splitOutputs, splitOpcodes, groups, jobs)
  {
    hide SelectorsOf, QueriesFor, Loaded;
    jobs := [];
    ghost var groups: seq<seq<string>> := [];
    for i := 0 to |systems|
      invariant |groups| == i && jobs == JobsFor(systems[..i], groups, splitOutputs)
      invariant forall at | 0 <= at < i ::
                  if splitOpcodes then SelectorsOf(systems[at], groups[at]) else groups[at] == []
    {
      var selectors := [];
      if splitOpcodes {
        selectors := OneHotSelectors(systems[i]);
      }
      var queries := PlanFamily(systems[i], selectors, splitOutputs);
      ghost var more := groups + [selectors];
      assert systems[..i + 1][..i] == systems[..i] && more[..i] == groups;
      jobs := jobs + JobsAt(i, queries);
      groups := more;
    }
    assert systems[..|systems|] == systems;
    assert PlanWith(systems, splitOutputs, splitOpcodes, groups, jobs);
  }

  // --- what the list contains -----------------------------------------------

  lemma QueryMembers(s: System, selectors: seq<string>, splitOutputs: bool)
    ensures forall q :: q in QueriesFor(s, selectors, splitOutputs) <==> Asked(s, selectors, splitOutputs, q)
  {
    hide ByRole, Axes, ShardsFor, SortedList;
    var shards, names := ShardsFor(Axes(ByRole(s.columns, Output), splitOutputs), Cases(selectors)),
                         SortedList(CaseNames(selectors));
    ShardMembers(Axes(ByRole(s.columns, Output), splitOutputs), Cases(selectors));
    UniqueMembers(shards);
    ProbeMembers(names);
  }

  lemma UniqueMembers(shards: seq<Shard>)
    ensures forall q :: q in UniqueQueries(shards) <==> q.Uniqueness? && q.shard in shards
  {
    forall q ensures q in UniqueQueries(shards) <==> q.Uniqueness? && q.shard in shards {
      if q.Uniqueness? && q.shard in shards {
        var i :| 0 <= i < |shards| && shards[i] == q.shard;
        assert UniqueQueries(shards)[i] == q;
      }
    }
  }

  lemma ProbeMembers(names: seq<string>)
    ensures forall q :: q in ProbeQueries(names) <==> q.Probe? && q.selector in names
  {
    forall q ensures q in ProbeQueries(names) <==> q.Probe? && q.selector in names {
      if q.Probe? && q.selector in names {
        var i :| 0 <= i < |names| && names[i] == q.selector;
        assert ProbeQueries(names)[i] == q;
      }
    }
  }

  lemma MembersAt(at: nat, queries: seq<Query>)
    ensures forall job :: job in JobsAt(at, queries) <==> job.at == at && job.query in queries
  {
    forall job ensures job in JobsAt(at, queries) <==> job.at == at && job.query in queries {
      if job.at == at && job.query in queries {
        var i :| 0 <= i < |queries| && queries[i] == job.query;
        assert JobsAt(at, queries)[i] == job;
      }
    }
  }

  /** The list holds exactly what is to be asked. */
  lemma {:induction false} JobMembers(systems: seq<System>, groups: seq<seq<string>>, splitOutputs: bool)
    requires |groups| == |systems|
    ensures PlanHolds(systems, groups, splitOutputs, JobsFor(systems, groups, splitOutputs))
  {
    hide QueriesFor, Asked;
    if systems != [] {
      var n := |systems| - 1;
      JobMembers(systems[..n], groups[..n], splitOutputs);
      QueryMembers(systems[n], groups[n], splitOutputs);
      MembersAt(n, QueriesFor(systems[n], groups[n], splitOutputs));
    }
  }

  /** The shards' questions in their order, then one probe a case, by name. */
  lemma QueriesInOrder(s: System, selectors: seq<string>, splitOutputs: bool)
    requires ByRole(s.columns, Output) != []
    ensures var queries := QueriesFor(s, selectors, splitOutputs);
            var shards := ShardsFor(Axes(ByRole(s.columns, Output), splitOutputs), Cases(selectors));
            && |shards| <= |queries|
            && (forall i | 0 <= i < |shards| :: queries[i] == Uniqueness(shards[i]))
            && (forall i | |shards| <= i < |queries| :: queries[i].Probe?)
            && (forall i, j | |shards| <= i < j < |queries| :: Before(queries[i].selector, queries[j].selector))
  {
    hide ByRole, Axes, Cases, ShardsFor, SortedList;
  }

  /** Families are asked about in their order. */
  lemma {:induction false} JobsInOrder(systems: seq<System>, groups: seq<seq<string>>, splitOutputs: bool)
    requires |groups| == |systems|
    ensures forall k | 0 <= k < |JobsFor(systems, groups, splitOutputs)| ::
              JobsFor(systems, groups, splitOutputs)[k].at < |systems|
    ensures forall i, j | 0 <= i < j < |JobsFor(systems, groups, splitOutputs)| ::
              JobsFor(systems, groups, splitOutputs)[i].at <= JobsFor(systems, groups, splitOutputs)[j].at
  {
    hide QueriesFor;
    if systems != [] {
      JobsInOrder(systems[..|systems| - 1], groups[..|systems| - 1], splitOutputs);
    }
  }

  predicate NoRepeats<T(==)>(list: seq<T>) {
    forall i, j | 0 <= i < j < |list| :: list[i] != list[j]
  }

  lemma OutputsDistinct(s: System)
    requires Loaded(s)
    ensures Distinct(ByRole(s.columns, Output))
  {
    RoleDistinct(s.columns, Output);
  }

  lemma {:induction false} RoleDistinct(columns: seq<Column>, role: Role)
    requires forall i, j | 0 <= i < j < |columns| :: columns[i].name != columns[j].name
    ensures Distinct(ByRole(columns, role))
  {
    if columns != [] {
      var n := |columns| - 1;
      RoleDistinct(columns[..n], role);
      var before := ByRole(columns[..n], role);
      forall i | 0 <= i < |before| ensures before[i] != columns[n].name {
        assert before[i] in before;
      }
    }
  }

  lemma QueriesDistinct(s: System, selectors: seq<string>, splitOutputs: bool)
    requires Loaded(s) && Distinct(selectors)
    ensures NoRepeats(QueriesFor(s, selectors, splitOutputs))
  {
    OutputsDistinct(s);
    var outputs, cases := Axes(ByRole(s.columns, Output), splitOutputs), Cases(selectors);
    ShardsDistinct(outputs, cases);
    QuestionsDistinct(ShardsFor(outputs, cases), SortedList(CaseNames(selectors)));
    hide ByRole, ShardsFor, SortedList, Axes, Cases, UniqueQueries, ProbeQueries, Distinct;
  }

  lemma QuestionsDistinct(shards: seq<Shard>, names: seq<string>)
    requires Distinct(names) && NoRepeats(shards)
    ensures NoRepeats(UniqueQueries(shards) + ProbeQueries(names))
  {
  }

  /** No question is asked twice. */
  lemma {:induction false} JobsDistinct(systems: seq<System>, groups: seq<seq<string>>, splitOutputs: bool)
    requires |groups| == |systems|
    requires forall at | 0 <= at < |systems| :: Loaded(systems[at]) && Distinct(groups[at])
    ensures NoRepeats(JobsFor(systems, groups, splitOutputs))
  {
    hide QueriesFor, Asked, Loaded;
    if systems != [] {
      var n := |systems| - 1;
      var before, last := JobsFor(systems[..n], groups[..n], splitOutputs),
                          JobsAt(n, QueriesFor(systems[n], groups[n], splitOutputs));
      JobsDistinct(systems[..n], groups[..n], splitOutputs);
      JobMembers(systems[..n], groups[..n], splitOutputs);
      QueriesDistinct(systems[n], groups[n], splitOutputs);
      forall i, j | 0 <= i < |before| && 0 <= j < |last| ensures before[i] != last[j] {
        assert before[i] in before;
      }
    }
  }

  lemma SelectorsDistinct(s: System, names: seq<string>)
    requires Loaded(s) && SelectorsOf(s, names)
    ensures Distinct(names)
  {
    hide OneHot, TermsOf;
  }

  /** The plan asks exactly the questions of each family, each once. */
  lemma PlanComplete(systems: seq<System>, splitOutputs: bool, splitOpcodes: bool,
                     groups: seq<seq<string>>, jobs: seq<Job>)
    requires forall at | 0 <= at < |systems| :: Loaded(systems[at])
    requires PlanWith(systems, splitOutputs, splitOpcodes, groups, jobs)
    ensures PlanHolds(systems, groups, splitOutputs, jobs) && NoRepeats(jobs)
  {
    hide Loaded, SelectorsOf, JobsFor, PlanHolds, NoRepeats;
    JobMembers(systems, groups, splitOutputs);
    forall at | 0 <= at < |systems| ensures Distinct(groups[at]) {
      if splitOpcodes { SelectorsDistinct(systems[at], groups[at]); }
    }
    JobsDistinct(systems, groups, splitOutputs);
  }

  // --- folding verdicts -----------------------------------------------------

  datatype Status = Sat | Unknown | Skipped | Unsat

  /** Worst first. */
  function Rank(status: Status): nat {
    match status
    case Sat => 0
    case Unknown => 1
    case Skipped => 2
    case Unsat => 3
  }

  datatype FamilyStatus = SomeSat | TimedOut | NothingAsked | AllUnsat

  function FamilyRank(status: FamilyStatus): nat {
    match status
    case SomeSat => 0
    case TimedOut => 1
    case NothingAsked => 2
    case AllUnsat => 3
  }

  function Folded(status: Status): FamilyStatus {
    match status
    case Sat => SomeSat
    case Unknown => TimedOut
    case Skipped => NothingAsked
    case Unsat => AllUnsat
  }

  /** A row the pool returns: a shard's verdict, or an honest-witness probe. */
  datatype Answer =
    | Verdict(family: string, shard: string, status: Status)
    | Witness(family: string, shard: string, satisfiable: Option<bool>)

  datatype FamilyRow = FamilyRow(
    family: string, status: FamilyStatus, shards: nat, honestWitness: Option<bool>,
    openShards: seq<string>, decidingShard: string)

  /** A family's verdicts, or its probes, in row order. */
  function Own(rows: seq<Answer>, family: string, probes: bool): (own: seq<Answer>)
    ensures forall r :: r in own <==> r in rows && r.Witness? == probes && r.family == family
  {
    if rows == [] then []
    else
      var last := rows[|rows| - 1];
      assert rows == rows[..|rows| - 1] + [last];
      Own(rows[..|rows| - 1], family, probes) + if last.Witness? == probes && last.family == family then [last] else []
  }

  predicate HasStatus(own: seq<Answer>, status: Status) {
    exists r :: r in own && r.Verdict? && r.status == status
  }

  predicate IsOpen(r: Answer) {
    r.Verdict? && (r.status == Sat || r.status == Unknown)
  }

  function OpenLabels(own: seq<Answer>): (labels: seq<string>)
    ensures forall name :: name in labels <==> exists r :: r in own && IsOpen(r) && r.shard == name
  {
    if own == [] then []
    else
      var last := own[|own| - 1];
      assert own == own[..|own| - 1] + [last];
      OpenLabels(own[..|own| - 1]) + if IsOpen(last) then [last.shard] else []
  }

  /** One family's verdict says what its shards' verdicts say together. */
  predicate StatusFolds(own: seq<Answer>, status: FamilyStatus) {
    match status
    case SomeSat => HasStatus(own, Sat)
    case TimedOut => !HasStatus(own, Sat) && HasStatus(own, Unknown)
    case NothingAsked => !HasStatus(own, Sat) && !HasStatus(own, Unknown) && HasStatus(own, Skipped)
    case AllUnsat => forall r | r in own :: r.Verdict? && r.status == Unsat
  }

  predicate WitnessFolds(probes: seq<Answer>, honest: Option<bool>) {
    && (honest == Some(false) <==> exists p :: p in probes && p.Witness? && p.satisfiable == Some(false))
    && (honest == Some(true) <==>
          probes != [] && forall p | p in probes :: p.Witness? && p.satisfiable == Some(true))
  }

  predicate Folds(rows: seq<Answer>, f: FamilyRow) {
    var own := Own(rows, f.family, false);
    && own != [] && f.shards == |own|
    && StatusFolds(own, f.status) && WitnessFolds(Own(rows, f.family, true), f.honestWitness)
    && f.openShards == OpenLabels(own)
    && exists k :: 0 <= k < |own| && IsWorst(own, k) && own[k].shard == f.decidingShard
  }

  predicate IsWorst(own: seq<Answer>, k: nat)
    requires k < |own| && forall r | r in own :: r.Verdict?
  {
    && (forall j | 0 <= j < k :: Rank(own[k].status) < Rank(own[j].status))
    && (forall j | k <= j < |own| :: Rank(own[k].status) <= Rank(own[j].status))
  }

  // --- the fold -------------------------------------------------------------

  /** A dictionary of each family's own rows of one kind. */
  ghost predicate BucketOf(rows: seq<Answer>, probes: bool, bucket: map<string, seq<Answer>>) {
    && (forall f :: f in bucket <==> Own(rows, f, probes) != [])
    && forall f | f in bucket :: bucket[f] == Own(rows, f, probes)
  }

  function Extend(bucket: map<string, seq<Answer>>, r: Answer): map<string, seq<Answer>> {
    bucket[r.family := (if r.family in bucket then bucket[r.family] else []) + [r]]
  }

  lemma OwnNext(rows: seq<Answer>, i: nat, family: string, probes: bool)
    requires i < |rows|
    ensures Own(rows[..i + 1], family, probes) == Own(rows[..i], family, probes)
              + if rows[i].Witness? == probes && rows[i].family == family then [rows[i]] else []
  {
    assert rows[..i + 1][..i] == rows[..i];
  }

  lemma BucketNext(rows: seq<Answer>, i: nat, probes: bool, bucket: map<string, seq<Answer>>)
    requires i < |rows| && BucketOf(rows[..i], probes, bucket)
    ensures BucketOf(rows[..i + 1], probes, if rows[i].Witness? == probes then Extend(bucket, rows[i]) else bucket)
  {
    hide Own;
    var more := if rows[i].Witness? == probes then Extend(bucket, rows[i]) else bucket;
    forall f
      ensures f in more <==> Own(rows[..i + 1], f, probes) != []
      ensures f in more ==> more[f] == Own(rows[..i + 1], f, probes)
    {
      OwnNext(rows, i, f, probes);
    }
  }

  /** The two dictionaries of lists, and the first one's insertion order. */
  method Bucket(rows: seq<Answer>)
    returns (keys: seq<string>, families: map<string, seq<Answer>>, probes: map<string, seq<Answer>>)
    ensures BucketOf(rows, false, families) && BucketOf(rows, true, probes) && KeysOf(keys, families)
  {
    keys, families, probes := [], map[], map[];
    assert BucketOf(rows[..0], false, families) && BucketOf(rows[..0], true, probes);
    hide BucketOf, Extend, KeysOf;
    assert KeysOf(keys, families) by { NoKeys(); }
    for i := 0 to |rows|
      invariant BucketOf(rows[..i], false, families) && BucketOf(rows[..i], true, probes)
      invariant KeysOf(keys, families)
    {
      BucketNext(rows, i, false, families);
      BucketNext(rows, i, true, probes);
      if rows[i].Witness? {
        probes := Extend(probes, rows[i]);
      } else {
        KeysNext(keys, families, rows[i]);
        if rows[i].family !in families {
          keys := keys + [rows[i].family];
        }
        families := Extend(families, rows[i]);
      }
    }
    assert rows[..|rows|] == rows;
  }

  ghost predicate KeysOf(keys: seq<string>, bucket: map<string, seq<Answer>>) {
    Distinct(keys) && forall f :: f in keys <==> f in bucket
  }

  lemma NoKeys()
    ensures KeysOf([], map[])
  {
  }

  lemma KeysNext(keys: seq<string>, bucket: map<string, seq<Answer>>, r: Answer)
    requires KeysOf(keys, bucket)
    ensures KeysOf(if r.family in bucket then keys else keys + [r.family], Extend(bucket, r))
  {
  }

  /** The first row of the worst status. */
  method Worst(own: seq<Answer>) returns (k: nat)
    requires own != [] && forall r | r in own :: r.Verdict?
    ensures k < |own| && IsWorst(own, k) && StatusFolds(own, Folded(own[k].status))
  {
    k := 0;
    assert forall j | 0 <= j < |own| :: own[j] in own;
    for i := 1 to |own|
      invariant k < i && (forall j | 0 <= j < k :: Rank(own[k].status) < Rank(own[j].status))
      invariant forall j | k <= j < i :: Rank(own[k].status) <= Rank(own[j].status)
    {
      if Rank(own[i].status) < Rank(own[k].status) { k := i; }
    }
    WorstFolds(own, k);
  }

  lemma WorstFolds(own: seq<Answer>, k: nat)
    requires k < |own| && (forall r | r in own :: r.Verdict?) && IsWorst(own, k)
    ensures StatusFolds(own, Folded(own[k].status))
  {
    assert own[k] in own;
    forall r | r in own ensures Rank(own[k].status) <= Rank(r.status) {
      var j :| 0 <= j < |own| && own[j] == r;
    }
  }

  /** False beats an open probe, which beats True. */
  function HonestWitness(probes: seq<Answer>): (honest: Option<bool>)
    requires forall p | p in probes :: p.Witness?
    ensures WitnessFolds(probes, honest)
  {
    if exists p :: p in probes && p.satisfiable == Some(false) then Some(false)
    else if probes == [] || exists p :: p in probes && p.satisfiable == None then None
    else
      assert forall p | p in probes :: p.satisfiable.Some? && p.satisfiable.value;
      Some(true)
  }

  method FoldFamily(family: string, own: seq<Answer>, probes: seq<Answer>) returns (f: FamilyRow)
    requires own != [] && (forall r | r in own :: r.Verdict?) && forall p | p in probes :: p.Witness?
    ensures f.family == family && f.shards == |own| && f.openShards == OpenLabels(own)
    ensures StatusFolds(own, f.status) && WitnessFolds(probes, f.honestWitness)
    ensures exists k :: 0 <= k < |own| && IsWorst(own, k) && own[k].shard == f.decidingShard
  {
    var k := Worst(own);
    f := FamilyRow(family, Folded(own[k].status), |own|, HonestWitness(probes), OpenLabels(own), own[k].shard);
  }

  /** Board order: worst status first, then by name. */
  function Key(f: FamilyRow): string {
    [FamilyRank(f.status) as char] + f.family
  }

  function Keys(out: seq<FamilyRow>): (keys: seq<string>)
    ensures |keys| == |out|
  {
    seq(|out|, i requires 0 <= i < |out| => Key(out[i]))
  }

  predicate Families(out: seq<FamilyRow>, family: string) {
    exists f :: f in out && f.family == family
  }

  lemma KeysApart(out: seq<FamilyRow>, f: FamilyRow, k: nat)
    requires k < |out| && !Families(out, f.family)
    ensures Key(out[k]) != Key(f)
  {
    assert out[k] in out && Key(f)[1..] == f.family && Key(out[k])[1..] == out[k].family;
  }

  lemma PlaceKeepsOrder(out: seq<FamilyRow>, f: FamilyRow, k: nat)
    requires Ascending(Keys(out)) && !Families(out, f.family) && k <= |out|
    requires forall i | 0 <= i < k :: Before(Key(out[i]), Key(f))
    requires k < |out| ==> !Before(Key(out[k]), Key(f))
    ensures Ascending(Keys(out[..k] + [f] + out[k..]))
  {
    hide Before, Key;
    var keys, more := Keys(out), Keys(out[..k] + [f] + out[k..]);
    assert more == keys[..k] + [Key(f)] + keys[k..];
    forall i | k <= i < |out| ensures Before(Key(f), keys[i]) {
      KeysApart(out, f, k);
      BeforeTotal(Key(f), keys[k]);
      if i > k { BeforeTransitive(Key(f), keys[k], keys[i]); }
    }
  }

  method Place(out: seq<FamilyRow>, f: FamilyRow) returns (more: seq<FamilyRow>)
    requires Ascending(Keys(out)) && !Families(out, f.family)
    ensures Ascending(Keys(more)) && forall g :: g in more <==> g in out || g == f
  {
    hide Before, Key, Ascending;
    var k := 0;
    while k < |out| && Before(Key(out[k]), Key(f))
      invariant k <= |out| && forall i | 0 <= i < k :: Before(Key(out[i]), Key(f))
    {
      k := k + 1;
    }
    PlaceKeepsOrder(out, f, k);
    more := out[..k] + [f] + out[k..];
    assert out == out[..k] + out[k..];
  }

  /** One row per family with a verdict, worst first, each folding its own rows. */
  ghost predicate Board(rows: seq<Answer>, out: seq<FamilyRow>) {
    && Ascending(Keys(out))
    && (forall f | f in out :: Folds(rows, f))
    && (forall r | r in rows && r.Verdict? :: Families(out, r.family))
    && forall f, g | f in out && g in out && f.family == g.family :: f == g
  }

  /** The board of the first families, in bucket order. */
  ghost predicate BoardOf(rows: seq<Answer>, families: seq<string>, out: seq<FamilyRow>) {
    && Ascending(Keys(out))
    && (forall f | f in out :: f.family in families && Folds(rows, f))
    && (forall family | family in families :: Families(out, family))
    && forall f, g | f in out && g in out && f.family == g.family :: f == g
  }

  lemma BoardNext(rows: seq<Answer>, families: seq<string>, out: seq<FamilyRow>, f: FamilyRow, more: seq<FamilyRow>)
    requires BoardOf(rows, families, out) && Folds(rows, f) && f.family !in families
    requires Ascending(Keys(more)) && forall g :: g in more <==> g in out || g == f
    ensures BoardOf(rows, families + [f.family], more)
  {
    hide Folds, Ascending;
    assert f in more;
    forall family | family in families ensures Families(more, family) {
      var g :| g in out && g.family == family;
      assert g in more;
    }
  }

  method Collect(rows: seq<Answer>) returns (out: seq<FamilyRow>)
    ensures Board(rows, out)
  {
    var keys, families, probes := Bucket(rows);
    hide Before, Own, StatusFolds, WitnessFolds, IsWorst, OpenLabels, BoardOf;
    out := [];
    NoFamilies(rows);
    for i := 0 to |keys|
      invariant BoardOf(rows, keys[..i], out)
    {
      var family := keys[i];
      assert family in keys;
      var own := if family in probes then probes[family] else [];
      var f := FoldFamily(family, families[family], own);
      ghost var before := out;
      NewFamily(rows, keys[..i], out, family);
      out := Place(out, f);
      BoardNext(rows, keys[..i], before, f, out);
      assert keys[..i + 1] == keys[..i] + [family];
    }
    assert keys[..|keys|] == keys;
    WholeBoard(rows, keys, families, out);
  }

  /** A counterexample outranks an unfinished family, which outranks one without a question, which
      outranks a proof. */
  predicate Outranks(a: FamilyStatus, b: FamilyStatus) {
    || (a == SomeSat && b != SomeSat)
    || (a == TimedOut && (b == NothingAsked || b == AllUnsat))
    || (a == NothingAsked && b == AllUnsat)
  }

  lemma KeysCompare(f: FamilyRow, g: FamilyRow)
    ensures Before(Key(f), Key(g)) <==>
              Outranks(f.status, g.status) || (f.status == g.status && Before(f.family, g.family))
  {
    assert Key(f)[1..] == f.family && Key(g)[1..] == g.family;
  }

  /** The board's order, status by status, then by name. */
  lemma BoardOrder(rows: seq<Answer>, out: seq<FamilyRow>, i: nat, j: nat)
    requires Board(rows, out) && i < j < |out|
    ensures Outranks(out[i].status, out[j].status)
         || (out[i].status == out[j].status && Before(out[i].family, out[j].family))
  {
    assert Before(Keys(out)[i], Keys(out)[j]);
    KeysCompare(out[i], out[j]);
  }

  /** The shard status a family's verdict repeats. */
  predicate Repeats(status: Status, family: FamilyStatus) {
    || (status == Sat && family == SomeSat) || (status == Unknown && family == TimedOut)
    || (status == Skipped && family == NothingAsked) || (status == Unsat && family == AllUnsat)
  }

  /** The deciding shard is the family's first with the family's verdict. */
  lemma DecidingIsFirst(rows: seq<Answer>, out: seq<FamilyRow>, f: FamilyRow) returns (k: nat)
    requires Board(rows, out) && f in out
    ensures var own := Own(rows, f.family, false);
            && k < |own| && own[k].Verdict? && own[k].shard == f.decidingShard && Repeats(own[k].status, f.status)
            && forall j | 0 <= j < k :: own[j].Verdict? && !Repeats(own[j].status, f.status)
  {
    hide Ascending, WitnessFolds, OpenLabels, IsWorst, StatusFolds;
    assert Folds(rows, f);
    var own := Own(rows, f.family, false);
    k :| 0 <= k < |own| && IsWorst(own, k) && own[k].shard == f.decidingShard;
    FirstWorst(own, k, f.status);
  }

  lemma FirstWorst(own: seq<Answer>, k: nat, status: FamilyStatus)
    requires k < |own| && (forall r | r in own :: r.Verdict?) && IsWorst(own, k) && StatusFolds(own, status)
    ensures own[k].Verdict? && Repeats(own[k].status, status)
    ensures forall j | 0 <= j < k :: own[j].Verdict? && !Repeats(own[j].status, status)
  {
    assert forall j | 0 <= j < |own| :: own[j] in own;
    WorstFolds(own, k);
    hide StatusFolds;
    SameStatus(own, own, Folded(own[k].status), status);
  }

  lemma NoFamilies(rows: seq<Answer>)
    ensures BoardOf(rows, [], [])
  {
  }

  lemma NewFamily(rows: seq<Answer>, families: seq<string>, out: seq<FamilyRow>, family: string)
    requires BoardOf(rows, families, out) && family !in families
    ensures Ascending(Keys(out)) && !Families(out, family)
  {
  }

  lemma WholeBoard(rows: seq<Answer>, keys: seq<string>, families: map<string, seq<Answer>>, out: seq<FamilyRow>)
    requires BoardOf(rows, keys, out) && BucketOf(rows, false, families) && KeysOf(keys, families)
    ensures Board(rows, out)
  {
    hide Folds, Ascending;
    forall r | r in rows && r.Verdict? ensures Families(out, r.family) {
      assert r in Own(rows, r.family, false);
    }
  }

  // --- the order of the rows does not matter --------------------------------

  lemma {:induction false} OwnAppend(a: seq<Answer>, b: seq<Answer>, family: string, probes: bool)
    ensures Own(a + b, family, probes) == Own(a, family, probes) + Own(b, family, probes)
  {
    if b == [] {
      assert a + b == a;
    } else {
      assert (a + b)[..|a + b| - 1] == a + b[..|b| - 1];
      OwnAppend(a, b[..|b| - 1], family, probes);
    }
  }

  lemma {:induction false} OpenAppend(a: seq<Answer>, b: seq<Answer>)
    ensures OpenLabels(a + b) == OpenLabels(a) + OpenLabels(b)
  {
    if b == [] {
      assert a + b == a;
    } else {
      assert (a + b)[..|a + b| - 1] == a + b[..|b| - 1];
      OpenAppend(a, b[..|b| - 1]);
    }
  }

  function Bag(rows: seq<Answer>, family: string, probes: bool): multiset<Answer> {
    multiset(Own(rows, family, probes))
  }

  lemma BagAppend(a: seq<Answer>, b: seq<Answer>, family: string, probes: bool)
    ensures Bag(a + b, family, probes) == Bag(a, family, probes) + Bag(b, family, probes)
  {
    OwnAppend(a, b, family, probes);
  }

  lemma BagPermuted(a: seq<Answer>, b: seq<Answer>, family: string, probes: bool)
    requires multiset(a) == multiset(b)
    ensures Bag(a, family, probes) == Bag(b, family, probes)
  {
    hide Bag;
    var bag := (rows: seq<Answer>) => Bag(rows, family, probes);
    forall x: seq<Answer>, y: seq<Answer> ensures bag(x + y) == Join(bag(x), bag(y)) {
      BagAppend(x, y, family, probes);
    }
    JoinExchanges<Answer>();
    AdditivePermuted(bag, Join, a, b);
  }

  lemma OwnPermuted(a: seq<Answer>, b: seq<Answer>, family: string, probes: bool)
    requires multiset(a) == multiset(b)
    ensures |Own(a, family, probes)| == |Own(b, family, probes)|
    ensures forall r :: r in Own(a, family, probes) <==> r in Own(b, family, probes)
  {
    BagPermuted(a, b, family, probes);
    var v, w := Own(a, family, probes), Own(b, family, probes);
    assert |multiset(v)| == |multiset(w)|;
    assert forall r :: r in v <==> r in multiset(v);
    assert forall r :: r in w <==> r in multiset(w);
  }

  ghost predicate SameVerdict(f: FamilyRow, g: FamilyRow) {
    && f.family == g.family && f.status == g.status && f.shards == g.shards && f.honestWitness == g.honestWitness
    && forall name :: name in f.openShards <==> name in g.openShards
  }

  lemma SameFold(a: seq<Answer>, b: seq<Answer>, f: FamilyRow, g: FamilyRow)
    requires multiset(a) == multiset(b) && Folds(a, f) && Folds(b, g) && f.family == g.family
    ensures SameVerdict(f, g)
  {
    OwnPermuted(a, b, f.family, false);
    OwnPermuted(a, b, f.family, true);
    var v, w := Own(a, f.family, false), Own(b, f.family, false);
    SameStatus(v, w, f.status, g.status);
    SameWitness(Own(a, f.family, true), Own(b, f.family, true), f.honestWitness, g.honestWitness);
    SameOpen(v, w);
  }

  lemma SameStatus(v: seq<Answer>, w: seq<Answer>, f: FamilyStatus, g: FamilyStatus)
    requires v != [] && StatusFolds(v, f) && StatusFolds(w, g) && forall r :: r in v <==> r in w
    requires forall r | r in v :: r.Verdict?
    ensures f == g
  {
    assert forall status :: HasStatus(v, status) <==> HasStatus(w, status);
    assert v[0] in v;
  }

  lemma SameWitness(v: seq<Answer>, w: seq<Answer>, f: Option<bool>, g: Option<bool>)
    requires WitnessFolds(v, f) && WitnessFolds(w, g) && |v| == |w| && forall r :: r in v <==> r in w
    ensures f == g
  {
    assert f == Some(false) <==> g == Some(false);
    assert f == Some(true) <==> g == Some(true);
    ThreeValued(f);
    ThreeValued(g);
  }

  lemma ThreeValued(f: Option<bool>)
    ensures f == None || f == Some(false) || f == Some(true)
  {
    match f
    case None =>
    case Some(v) => if v { assert f == Some(true); } else { assert f == Some(false); }
  }

  lemma SameOpen(v: seq<Answer>, w: seq<Answer>)
    requires forall r :: r in v <==> r in w
    ensures forall name :: name in OpenLabels(v) <==> name in OpenLabels(w)
  {
  }

  lemma KeysCovered(a: seq<Answer>, b: seq<Answer>, x: seq<FamilyRow>, y: seq<FamilyRow>)
    requires multiset(a) == multiset(b) && Board(a, x) && Board(b, y)
    ensures forall key | key in Keys(x) :: key in Keys(y)
  {
    forall key | key in Keys(x) ensures key in Keys(y) {
      var i :| 0 <= i < |x| && Key(x[i]) == key;
      assert x[i] in x;
      var own := Own(a, x[i].family, false);
      assert own[0] in own && own[0] in multiset(a) && own[0] in multiset(b);
      assert Families(y, own[0].family);
      var g :| g in y && g.family == x[i].family;
      SameFold(a, b, x[i], g);
      var j :| 0 <= j < |y| && y[j] == g;
      assert Keys(y)[j] == key;
    }
  }

  /** Rows that come back in another order give the same board. */
  lemma RowOrderIrrelevant(a: seq<Answer>, b: seq<Answer>, x: seq<FamilyRow>, y: seq<FamilyRow>)
    requires multiset(a) == multiset(b) && Board(a, x) && Board(b, y)
    ensures |x| == |y| && forall i | 0 <= i < |x| :: SameVerdict(x[i], y[i])
  {
    KeysCovered(a, b, x, y);
    KeysCovered(b, a, y, x);
    AscendingUnique(Keys(x), Keys(y));
    assert |Keys(x)| == |Keys(y)|;
    forall i | 0 <= i < |x| ensures SameVerdict(x[i], y[i]) {
      assert Keys(x)[i] == Keys(y)[i];
      assert Key(x[i])[1..] == x[i].family && Key(y[i])[1..] == y[i].family;
      assert x[i] in x && y[i] in y;
      SameFold(a, b, x[i], y[i]);
    }
  }

  // --- the exit code --------------------------------------------------------

  /** 2 without any family, 1 unless every family's shards are all unsat. */
  method ExitCode(anyPaths: bool, out: seq<FamilyRow>) returns (code: int)
    ensures code == 2 <==> !anyPaths
    ensures code == 0 <==> anyPaths && forall f | f in out :: f.status == AllUnsat
    ensures code == 0 || code == 1 || code == 2
  {
    if !anyPaths {
      return 2;
    }
    for i := 0 to |out|
      invariant forall f | f in out[..i] :: f.status == AllUnsat
    {
      if out[i].status != AllUnsat {
        return 1;
      }
      assert out[..i + 1] == out[..i] + [out[i]];
    }
    assert out[..|out|] == out;
    code := 0;
  }

  /** A row answers a job: verdicts are exact, or unknown. */
  ghost predicate Answers(s: System, selectors: seq<string>, query: Query, r: Answer)
    requires Loaded(s)
  {
    && r.family == s.family
    && match query
       case Whole => r.Verdict? && r.status == Skipped
       case Probe(_) => r.Witness?
       case Uniqueness(shard) =>
         && r.Verdict? && r.status != Skipped
         && (r.status == Sat ==> !ShardUnique(s, selectors, shard))
         && (r.status == Unsat ==> ShardUnique(s, selectors, shard))
  }

  ghost predicate AllAnswered(systems: seq<System>, groups: seq<seq<string>>, jobs: seq<Job>, rows: seq<Answer>)
    requires |groups| == |systems| && forall at | 0 <= at < |systems| :: Loaded(systems[at])
  {
    && |rows| == |jobs|
    && forall i | 0 <= i < |jobs| ::
         jobs[i].at < |systems| && Answers(systems[jobs[i].at], groups[jobs[i].at], jobs[i].query, rows[i])
  }

  lemma AllUnsatMeans(rows: seq<Answer>, out: seq<FamilyRow>)
    requires Board(rows, out)
    ensures (forall f | f in out :: f.status == AllUnsat) <==> forall r | r in rows && r.Verdict? :: r.status == Unsat
  {
    hide WitnessFolds, IsWorst, OpenLabels, Ascending;
    if forall f | f in out :: f.status == AllUnsat {
      forall r | r in rows && r.Verdict? ensures r.status == Unsat {
        var f :| f in out && f.family == r.family;
        assert r in Own(rows, r.family, false) && Folds(rows, f);
      }
    }
    if forall r | r in rows && r.Verdict? :: r.status == Unsat {
      forall f | f in out ensures f.status == AllUnsat {
        var own := Own(rows, f.family, false);
        assert Folds(rows, f) && own[0] in own;
      }
    }
  }

  /** Every family can be asked about and is unique. */
  ghost predicate AllUnique(systems: seq<System>)
    requires forall at | 0 <= at < |systems| :: Loaded(systems[at])
  {
    forall at | 0 <= at < |systems| :: ByRole(systems[at].columns, Output) != [] && Unique(systems[at])
  }

  ghost predicate AllProved(rows: seq<Answer>) {
    forall r | r in rows && r.Verdict? :: r.status == Unsat
  }

  ghost predicate NoneUnknown(rows: seq<Answer>) {
    forall r | r in rows && r.Verdict? :: r.status != Unknown
  }

  /** Exit 0 proves every family unique, and fails to only through a family
      that is not, that has no output, or whose shard went unanswered. */
  lemma ExitZeroMeansUnique(systems: seq<System>, groups: seq<seq<string>>,
                            splitOutputs: bool, jobs: seq<Job>, rows: seq<Answer>, out: seq<FamilyRow>)
    requires |groups| == |systems| && forall at | 0 <= at < |systems| :: Loaded(systems[at])
    requires forall at | 0 <= at < |systems| :: Splits(systems[at], groups[at])
    requires PlanHolds(systems, groups, splitOutputs, jobs) && AllAnswered(systems, groups, jobs, rows)
    requires Board(rows, out)
    ensures (forall f | f in out :: f.status == AllUnsat) ==> AllUnique(systems)
    ensures NoneUnknown(rows) ==> ((forall f | f in out :: f.status == AllUnsat) <==> AllUnique(systems))
  {
    AllUnsatMeans(rows, out);
    assert AllProved(rows) <==> forall f | f in out :: f.status == AllUnsat;
    hide Board, Loaded, Splits, AllProved, NoneUnknown, AllUnique, PlanHolds, AllAnswered;
    if AllProved(rows) { FamiliesProved(systems, groups, splitOutputs, jobs, rows); }
    if AllUnique(systems) && NoneUnknown(rows) { ShardsProved(systems, groups, splitOutputs, jobs, rows); }
  }

  lemma FamiliesProved(systems: seq<System>, groups: seq<seq<string>>,
                       splitOutputs: bool, jobs: seq<Job>, rows: seq<Answer>)
    requires |groups| == |systems| && forall at | 0 <= at < |systems| :: Loaded(systems[at])
    requires forall at | 0 <= at < |systems| :: Splits(systems[at], groups[at])
    requires PlanHolds(systems, groups, splitOutputs, jobs) && AllAnswered(systems, groups, jobs, rows)
    requires AllProved(rows)
    ensures AllUnique(systems)
  {
    hide Loaded, Splits, PlanHolds, AllAnswered, ByRole, Unique;
    forall at | 0 <= at < |systems| ensures ByRole(systems[at].columns, Output) != [] && Unique(systems[at]) {
      FamilyProved(systems, groups, splitOutputs, jobs, rows, at);
    }
  }

  lemma ShardsProved(systems: seq<System>, groups: seq<seq<string>>,
                     splitOutputs: bool, jobs: seq<Job>, rows: seq<Answer>)
    requires |groups| == |systems| && forall at | 0 <= at < |systems| :: Loaded(systems[at])
    requires forall at | 0 <= at < |systems| :: Splits(systems[at], groups[at])
    requires PlanHolds(systems, groups, splitOutputs, jobs) && AllAnswered(systems, groups, jobs, rows)
    requires AllUnique(systems) && NoneUnknown(rows)
    ensures AllProved(rows)
  {
    hide Loaded, Splits, PlanHolds, AllAnswered, AllUnique;
    forall r | r in rows && r.Verdict? ensures r.status == Unsat {
      var i :| 0 <= i < |rows| && rows[i] == r;
      ShardProved(systems, groups, splitOutputs, jobs, rows, i);
    }
  }

  lemma FamilyProved(systems: seq<System>, groups: seq<seq<string>>,
                     splitOutputs: bool, jobs: seq<Job>, rows: seq<Answer>, at: nat)
    requires |groups| == |systems| && (forall k | 0 <= k < |systems| :: Loaded(systems[k])) && at < |systems|
    requires Splits(systems[at], groups[at])
    requires PlanHolds(systems, groups, splitOutputs, jobs) && AllAnswered(systems, groups, jobs, rows)
    requires AllProved(rows)
    ensures ByRole(systems[at].columns, Output) != [] && Unique(systems[at])
  {
    hide Loaded, ShardUnique, Unique, Splits, ByRole, InPlan;
    var s, selectors := systems[at], groups[at];
    if ByRole(s.columns, Output) == [] {
      assert Asked(s, selectors, splitOutputs, Whole);
      var i := RowOf(systems, groups, jobs, rows, Job(at, Whole));
      assert false;
    }
    forall shard | InPlan(shard, Axes(ByRole(s.columns, Output), splitOutputs), Cases(selectors))
      ensures ShardUnique(s, selectors, shard)
    {
      assert Asked(s, selectors, splitOutputs, Uniqueness(shard));
      var i := RowOf(systems, groups, jobs, rows, Job(at, Uniqueness(shard)));
    }
    UniqueIffEveryShard(s, selectors, splitOutputs);
  }

  lemma RowOf(systems: seq<System>, groups: seq<seq<string>>, jobs: seq<Job>, rows: seq<Answer>, job: Job)
    returns (i: nat)
    requires |groups| == |systems| && forall k | 0 <= k < |systems| :: Loaded(systems[k])
    requires AllAnswered(systems, groups, jobs, rows) && job in jobs && job.at < |systems|
    ensures i < |rows| && rows[i] in rows && Answers(systems[job.at], groups[job.at], job.query, rows[i])
  {
    hide Answers, Loaded;
    i :| 0 <= i < |jobs| && jobs[i] == job;
  }

  lemma ShardProved(systems: seq<System>, groups: seq<seq<string>>,
                    splitOutputs: bool, jobs: seq<Job>, rows: seq<Answer>, i: nat)
    requires |groups| == |systems| && forall k | 0 <= k < |systems| :: Loaded(systems[k])
    requires forall k | 0 <= k < |systems| :: Splits(systems[k], groups[k])
    requires PlanHolds(systems, groups, splitOutputs, jobs) && AllAnswered(systems, groups, jobs, rows)
    requires i < |rows| && rows[i].Verdict? && rows[i].status != Unknown && AllUnique(systems)
    ensures rows[i].status == Unsat
  {
    hide Loaded, ShardUnique, Unique, Splits, ByRole, InPlan;
    var job := jobs[i];
    assert job in jobs;
    var s, selectors := systems[job.at], groups[job.at];
    assert Asked(s, selectors, splitOutputs, job.query);
    UniqueIffEveryShard(s, selectors, splitOutputs);
    assert Unique(s);
    assert Answers(s, selectors, job.query, rows[i]);
  }
}
