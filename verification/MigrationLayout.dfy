/**
  Where a planned migration puts each file and what it names each run, part by
  part of the paths.
*/
module MigrationLayout {
  import opened Basics
  import opened Names
  import opened FileMoves
  import opened MigrationPlan
  import opened Migration

  /** The run's parts, with text before the first and after the last. */
  predicate Spelled(parts: seq<string>, before: string, run: Run, after: string) {
    && |parts| == |run|
    && forall k | 0 <= k < |run| ::
         parts[k] == (if k == 0 then before else "") + run[k] + (if k == |run| - 1 then after else "")
  }

  lemma AffixSpells(before: string, run: Run, after: string)
    requires run != []
    ensures Spelled(Affix(before, run, after), before, run, after)
  {
    if |run| == 1 {
      assert Affix(before, run, after)[0] == before + run[0] + after;
    }
    forall k | 0 <= k < |run|
      ensures Affix(before, run, after)[k]
           == (if k == 0 then before else "") + run[k] + (if k == |run| - 1 then after else "")
    {
      if 0 < k < |run| - 1 { assert "" + run[k] + "" == run[k]; }
      if 0 < k { assert "" + run[k] == run[k]; }
      if k < |run| - 1 { assert before + run[k] + "" == before + run[k]; }
    }
  }

  lemma SpelledUnique(a: seq<string>, b: seq<string>, before: string, run: Run, after: string)
    requires Spelled(a, before, run, after) && Spelled(b, before, run, after)
    ensures a == b
  {
  }

  function Start(sha: string, n: nat): string {
    if |sha| > n then sha[..n] else sha
  }

  lemma StartIsShort(sha: string, n: nat)
    ensures Start(sha, n) == Short(sha, n)
  {
  }

  // --- reports and runs -----------------------------------------------------

  predicate NamedRuns(runOf: map<string, Run>) {
    forall sha | sha in runOf :: runOf[sha] != []
  }

  lemma {:induction false} PrefixRuns(fmt: Formats, files: Files, artifacts: map<string, Entry>, list: seq<string>,
                                      i: nat)
    requires ReportsSound(fmt, files, artifacts, list) && Distinct(list) && i <= |list|
    ensures ReportsSound(fmt, files, artifacts, list[..i])
    ensures forall sha | sha in list[..i] ::
              RunsFor(fmt, files, artifacts, list)[sha] == RunsFor(fmt, files, artifacts, list[..i])[sha]
    decreases |list|
  {
    hide ReportSound, ReportOf, RunName;
    assert forall sha | sha in list[..i] :: sha in list;
    if i == |list| {
      assert list[..i] == list;
    } else {
      var init := list[..|list| - 1];
      assert forall sha | sha in init :: sha in list;
      assert init[..i] == list[..i];
      PrefixRuns(fmt, files, artifacts, init, i);
      NotBefore(list, i);
    }
  }

  lemma NotBefore(list: seq<string>, i: nat)
    requires Distinct(list) && i < |list|
    ensures list[|list| - 1] !in list[..i]
  {
  }

  /** The i-th report's run, from its name and the runs of the reports before it. */
  lemma RunAt(fmt: Formats, files: Files, artifacts: map<string, Entry>, list: seq<string>, i: nat)
    requires ReportsSound(fmt, files, artifacts, list) && Distinct(list) && i < |list|
    ensures ReportsSound(fmt, files, artifacts, list[..i])
    ensures RunsFor(fmt, files, artifacts, list)[list[i]]
         == RunName(ReportOf(fmt, files, artifacts, list[i]).run,
                    RunsFor(fmt, files, artifacts, list[..i]).Values, list[i])
  {
    hide ReportSound, ReportOf, RunName;
    PrefixRuns(fmt, files, artifacts, list, i);
    PrefixRuns(fmt, files, artifacts, list, i + 1);
    var more := list[..i + 1];
    assert more[..i] == list[..i] && more[i] == list[i] && list[i] in more;
  }

  /** The run's name is another report's already. */
  predicate NameTaken(runOf: map<string, Run>, list: seq<string>, i: nat, name: Run)
    requires i <= |list|
  {
    exists j | 0 <= j < i :: list[j] in runOf && runOf[list[j]] == name
  }

  lemma TakenIsEarlier(fmt: Formats, files: Files, artifacts: map<string, Entry>, list: seq<string>, i: nat, name: Run)
    requires ReportsSound(fmt, files, artifacts, list) && Distinct(list) && i < |list|
    requires ReportsSound(fmt, files, artifacts, list[..i])
    ensures name in RunsFor(fmt, files, artifacts, list[..i]).Values
       <==> NameTaken(RunsFor(fmt, files, artifacts, list), list, i, name)
  {
    hide RunsFor, ReportsSound;
    PrefixRuns(fmt, files, artifacts, list, i);
    TakenInPrefix(RunsFor(fmt, files, artifacts, list), RunsFor(fmt, files, artifacts, list[..i]), list, i, name);
  }

  lemma TakenInPrefix(runOf: map<string, Run>, before: map<string, Run>, list: seq<string>, i: nat, name: Run)
    requires i <= |list| && (forall sha :: sha in runOf <==> sha in list)
    requires forall sha :: sha in before <==> sha in list[..i]
    requires forall sha | sha in list[..i] :: sha in runOf && runOf[sha] == before[sha]
    ensures name in before.Values <==> NameTaken(runOf, list, i, name)
  {
    if name in before.Values {
      var sha :| sha in before && before[sha] == name;
      var j :| 0 <= j < i && list[..i][j] == sha;
      assert list[j] == sha && runOf[list[j]] == name;
    }
    if NameTaken(runOf, list, i, name) {
      var j :| 0 <= j < i && list[j] in runOf && runOf[list[j]] == name;
      assert list[..i][j] == list[j];
    }
  }

  /**
    The i-th report, in digest order: its run is the name its content gives,
    unless an earlier report has that run; then a dash and the digest's first six
    characters are added.  It moves to the run's report.json.
  */
  lemma ReportPlaces(fmt: Formats, plan: Plan, i: nat)
    requires Planned(fmt, plan) && i < |SortedList(plan.v1.artifacts.Keys)|
    ensures var list := SortedList(plan.v1.artifacts.Keys); var sha := list[i];
            && sha in plan.runOf && sha in plan.index.artifacts && sha in plan.v1.artifacts
            && var was, run, entry := plan.v1.artifacts[sha], plan.runOf[sha], plan.index.artifacts[sha];
            && was.path in plan.files && fmt.readReport(plan.files[was.path]).Some?
            && var name := fmt.readReport(plan.files[was.path]).value.run;
            && (if NameTaken(plan.runOf, list, i, name)
                then name != [] ==> Spelled(run, "", name, "-" + Start(sha, 6))
                else run == name)
            && entry.path == ["runs"] + run + ["report.json"] && entry.run == run
            && entry.bytes == was.bytes && entry.baselineRun == None
            && Move(was.path, ["runs"] + run + ["report.json"]) in plan.moves
  {
    PlannedReports(fmt, plan);
    var list := SortedList(plan.v1.artifacts.Keys);
    assert ReportsPlanned(fmt, plan.files, plan.v1.artifacts, plan.runOf, plan.index.artifacts, plan.moves, list) by {
      PlannedParts(fmt, plan);
    }
    var sha := list[i];
    assert sha in list;
    hide Planned, SortedList;
    RunAt(fmt, plan.files, plan.v1.artifacts, list, i);
    var name := ReportOf(fmt, plan.files, plan.v1.artifacts, sha).run;
    TakenIsEarlier(fmt, plan.files, plan.v1.artifacts, list, i, name);
    if name != [] { AffixSpells("", name, "-" + Short(sha, 6)); }
    StartIsShort(sha, 6);
  }

  lemma PlannedParts(fmt: Formats, plan: Plan)
    requires Planned(fmt, plan)
    ensures ReportsPlanned(fmt, plan.files, plan.v1.artifacts, plan.runOf, plan.index.artifacts, plan.moves,
                           SortedList(plan.v1.artifacts.Keys))
  {
  }

  // --- deltas ---------------------------------------------------------------

  /** In the current run's directory, named after the baseline run. */
  predicate DeltaNamed(p: Path, current: Run, baseline: Run, ending: string) {
    && |p| == 1 + |current| + |baseline| && p[..1 + |current|] == ["runs"] + current
    && Spelled(p[1 + |current|..], "delta-from-", baseline, ending)
  }

  lemma DeltaIsNamed(current: Run, baseline: Run, ending: string)
    requires baseline != []
    ensures DeltaNamed(["runs"] + current + Affix("delta-from-", baseline, ending), current, baseline, ending)
  {
    hide Affix;
    AffixSpells("delta-from-", baseline, ending);
    var p := ["runs"] + current + Affix("delta-from-", baseline, ending);
    assert p[1 + |current|..] == Affix("delta-from-", baseline, ending);
  }

  lemma NamedUnique(p: Path, q: Path, current: Run, baseline: Run, ending: string)
    requires DeltaNamed(p, current, baseline, ending) && DeltaNamed(q, current, baseline, ending)
    ensures p == q
  {
    SpelledUnique(p[1 + |current|..], q[1 + |current|..], "delta-from-", baseline, ending);
    assert p == p[..1 + |current|] + p[1 + |current|..] && q == q[..1 + |current|] + q[1 + |current|..];
  }

  lemma {:induction false} PathKeys(runOf: map<string, Run>, comparisons: seq<Comparison>)
    requires forall c | c in comparisons :: Archived(runOf, c)
    ensures forall sha :: sha in DeltaPaths(runOf, comparisons)
                          <==> exists j :: 0 <= j < |comparisons| && comparisons[j].deltaSha == sha
  {
    hide DeltaPath, Archived;
    if comparisons != [] {
      var n := |comparisons| - 1;
      assert comparisons == comparisons[..n] + [comparisons[n]];
      PathKeys(runOf, comparisons[..n]);
    }
  }

  lemma {:induction false} PrefixPaths(runOf: map<string, Run>, comparisons: seq<Comparison>, i: nat)
    requires (forall c | c in comparisons :: Archived(runOf, c)) && i <= |comparisons|
    ensures forall c | c in comparisons[..i] :: Archived(runOf, c)
    ensures var paths, before := DeltaPaths(runOf, comparisons), DeltaPaths(runOf, comparisons[..i]);
            forall sha | sha in before :: sha in paths && paths[sha] == before[sha]
    decreases |comparisons|
  {
    hide DeltaPath, DeltaPaths, Archived;
    assert forall c | c in comparisons[..i] :: c in comparisons;
    if i == |comparisons| {
      assert comparisons[..i] == comparisons;
    } else {
      var n := |comparisons| - 1;
      var init := comparisons[..n];
      assert forall c | c in init :: c in comparisons;
      assert init[..i] == comparisons[..i] && comparisons == init + [comparisons[n]];
      PrefixPaths(runOf, init, i);
      PathsSnoc(runOf, init, comparisons[n]);
    }
  }

  /** No earlier comparison is of the same delta. */
  predicate IsFirst(comparisons: seq<Comparison>, i: nat)
    requires i < |comparisons|
  {
    forall j | 0 <= j < i :: comparisons[j].deltaSha != comparisons[i].deltaSha
  }

  /** The path a delta's first comparison gives it. */
  lemma PathAt(runOf: map<string, Run>, comparisons: seq<Comparison>, i: nat)
    requires (forall c | c in comparisons :: Archived(runOf, c)) && i < |comparisons| && IsFirst(comparisons, i)
    ensures forall c | c in comparisons[..i] :: Archived(runOf, c)
    ensures Archived(runOf, comparisons[i])
    ensures var c := comparisons[i];
            DeltaPaths(runOf, comparisons)[c.deltaSha]
            == DeltaPath(DeltaPaths(runOf, comparisons[..i]).Values,
                         runOf[c.currentSha], runOf[c.baselineSha], c.deltaSha)
  {
    hide DeltaPath;
    var c := comparisons[i];
    PrefixPaths(runOf, comparisons, i);
    PrefixPaths(runOf, comparisons, i + 1);
    var more := comparisons[..i + 1];
    assert more[..i] == comparisons[..i] && more[i] == c && c in comparisons;
    PathKeys(runOf, comparisons[..i]);
  }

  /** An earlier comparison's delta took the plain name. */
  predicate PlainTaken(out: seq<NewComparison>, i: nat, current: Run, baseline: Run)
    requires i <= |out|
  {
    exists j | 0 <= j < i :: DeltaNamed(out[j].deltaPath, current, baseline, ".json")
  }

  predicate EarlierPath(out: seq<NewComparison>, i: nat, p: Path)
    requires i <= |out|
  {
    exists j | 0 <= j < i :: out[j].deltaPath == p
  }

  /** The paths taken so far are those of the earlier comparisons. */
  lemma TakenIsEarlierPath(runOf: map<string, Run>, comparisons: seq<Comparison>, out: seq<NewComparison>, i: nat,
                           p: Path)
    requires (forall c | c in comparisons :: Archived(runOf, c)) && i < |comparisons|
    requires Compared(runOf, DeltaPaths(runOf, comparisons), comparisons, out)
    requires forall c | c in comparisons[..i] :: Archived(runOf, c)
    ensures p in DeltaPaths(runOf, comparisons[..i]).Values <==> EarlierPath(out, i, p)
  {
    hide DeltaPaths;
    PrefixPaths(runOf, comparisons, i);
    PathKeys(runOf, comparisons[..i]);
    var before := DeltaPaths(runOf, comparisons[..i]);
    if p in before.Values {
      var sha :| sha in before && before[sha] == p;
      var j :| 0 <= j < i && comparisons[..i][j].deltaSha == sha;
      assert out[j].deltaPath == p;
    }
    if EarlierPath(out, i, p) {
      var j :| 0 <= j < i && out[j].deltaPath == p;
      assert comparisons[..i][j].deltaSha in before;
    }
  }

  lemma TakenIsNamed(out: seq<NewComparison>, i: nat, current: Run, baseline: Run)
    requires i <= |out| && baseline != []
    ensures EarlierPath(out, i, ["runs"] + current + Affix("delta-from-", baseline, ".json"))
       <==> PlainTaken(out, i, current, baseline)
  {
    var plain := ["runs"] + current + Affix("delta-from-", baseline, ".json");
    DeltaIsNamed(current, baseline, ".json");
    hide Affix, DeltaNamed;
    if j :| 0 <= j < i && DeltaNamed(out[j].deltaPath, current, baseline, ".json") {
      NamedUnique(out[j].deltaPath, plain, current, baseline, ".json");
    }
  }

  lemma {:induction false} FirstBaseline(out: seq<NewComparison>, i: nat)
    requires i < |out| && forall j | 0 <= j < i :: out[j].v1.deltaSha != out[i].v1.deltaSha
    ensures FirstOf(out, out[i].v1.deltaSha) == Some(out[i].baselineRun)
  {
    if i > 0 { FirstBaseline(out[1..], i - 1); }
  }

  lemma {:induction false} NoBaseline(out: seq<NewComparison>, sha: string)
    requires forall j | 0 <= j < |out| :: out[j].v1.deltaSha != sha
    ensures FirstOf(out, sha) == None
  {
    if out != [] { NoBaseline(out[1..], sha); }
  }

  /**
    A delta goes where its first comparison says: into the current run's
    directory, as delta-from- and the baseline run, with a dash and the digest's
    first six characters if an earlier delta has that path.  Every comparison of
    the delta names that path.
  */
  lemma DeltaPlaces(fmt: Formats, plan: Plan, i: nat)
    requires Planned(fmt, plan) && NamedRuns(plan.runOf)
    requires i < |plan.v1.comparisons| && IsFirst(plan.v1.comparisons, i)
    ensures |plan.index.comparisons| == |plan.v1.comparisons|
    ensures var c, out := plan.v1.comparisons[i], plan.index.comparisons;
            && c.currentSha in plan.runOf && c.baselineSha in plan.runOf
            && var current, baseline := plan.runOf[c.currentSha], plan.runOf[c.baselineSha];
            && DeltaNamed(out[i].deltaPath, current, baseline,
                          if PlainTaken(out, i, current, baseline)
                          then "-" + Start(c.deltaSha, 6) + ".json" else ".json")
            && forall k | 0 <= k < |out| && plan.v1.comparisons[k].deltaSha == c.deltaSha ::
                 out[k].deltaPath == out[i].deltaPath
  {
    PlannedDeltas(fmt, plan);
    hide Planned, DeltaNamed, PlannedDelta, DeltaSound;
    var c, out := plan.v1.comparisons[i], plan.index.comparisons;
    assert c in plan.v1.comparisons && Archived(plan.runOf, c);
    var current, baseline := plan.runOf[c.currentSha], plan.runOf[c.baselineSha];
    PathAt(plan.runOf, plan.v1.comparisons, i);
    TakenIsEarlierPath(plan.runOf, plan.v1.comparisons, out, i,
                       ["runs"] + current + Affix("delta-from-", baseline, ".json"));
    TakenIsNamed(out, i, current, baseline);
    DeltaIsNamed(current, baseline, ".json");
    DeltaIsNamed(current, baseline, "-" + Short(c.deltaSha, 6) + ".json");
    StartIsShort(c.deltaSha, 6);
    hide Affix, DeltaPaths, Start, Short;
  }

  /** An archived delta's entry: that path, the first part of the current run, and the baseline run. */
  lemma DeltaEntries(fmt: Formats, plan: Plan, i: nat)
    requires Planned(fmt, plan) && NamedRuns(plan.runOf)
    requires i < |plan.v1.comparisons| && IsFirst(plan.v1.comparisons, i)
    requires plan.v1.comparisons[i].deltaSha in plan.v1.deltas
    ensures |plan.index.comparisons| == |plan.v1.comparisons|
    ensures var c := plan.v1.comparisons[i];
            && c.deltaSha in plan.index.deltas && c.currentSha in plan.runOf && c.baselineSha in plan.runOf
            && var was, entry := plan.v1.deltas[c.deltaSha], plan.index.deltas[c.deltaSha];
            && var current := plan.runOf[c.currentSha];
            && entry.path == plan.index.comparisons[i].deltaPath && entry.bytes == was.bytes
            && entry.baselineRun == Some(plan.runOf[c.baselineSha])
            && |current| > 0 && entry.run == [current[0]] && (entry.run == current <==> |current| == 1)
            && Move(was.path, entry.path) in plan.moves
  {
    hide Planned, DeltaSound, Spelled, PlainTaken, DeltaPaths, FirstOf;
    DeltaPlaces(fmt, plan, i);
    PlannedDeltas(fmt, plan);
    var c, out := plan.v1.comparisons[i], plan.index.comparisons;
    assert c in plan.v1.comparisons && Archived(plan.runOf, c);
    FirstBaseline(out, i);
    SecondPart(out[i].deltaPath, plan.runOf[c.currentSha]);
    hide DeltaNamed;
  }

  lemma SecondPart(p: Path, current: Run)
    requires |p| >= 1 + |current| && p[..1 + |current|] == ["runs"] + current && current != []
    ensures |p| > 1 && p[1] == current[0]
  {
    assert p[1] == p[..1 + |current|][1];
  }

  /** A delta without a comparison is kept, attributed to nothing. */
  lemma LooseDeltas(fmt: Formats, plan: Plan, sha: string)
    requires Planned(fmt, plan) && sha in plan.v1.deltas
    requires forall k | 0 <= k < |plan.v1.comparisons| :: plan.v1.comparisons[k].deltaSha != sha
    ensures sha in plan.index.deltas
    ensures var entry := plan.index.deltas[sha];
            && entry.path == ["runs", "unattributed", Start(sha, 12) + ".json"] && entry.run == ["unattributed"]
            && entry.bytes == plan.v1.deltas[sha].bytes && entry.baselineRun == None
            && Move(plan.v1.deltas[sha].path, entry.path) in plan.moves
  {
    hide Planned, DeltaSound, DeltaPaths, FirstOf, Start, Short;
    PlannedDeltas(fmt, plan);
    StartIsShort(sha, 12);
    PathKeys(plan.runOf, plan.v1.comparisons);
    NoBaseline(plan.index.comparisons, sha);
  }

  // --- bundles --------------------------------------------------------------

  /** A bundle goes below its run: the manifest, the tree with its shape, and a summary that is not
      the run's report under another name. */
  lemma BundlePlaces(fmt: Formats, plan: Plan, d: string)
    requires Planned(fmt, plan) && d in plan.bundles
    ensures d in plan.index.bundles && plan.bundles[d].reportSha in plan.runOf
    ensures var l, run, locator := plan.bundles[d], plan.runOf[plan.bundles[d].reportSha], plan.index.bundles[d];
            && locator.v1 == l && locator.run == run && locator.path == ["runs"] + run + ["bundle"]
            && Move(l.path + ["manifest.json"], locator.path + ["manifest.json"]) in plan.moves
            && (forall rest: Path | rest != [] && l.path + ["tree"] + rest in plan.files ::
                  Move(l.path + ["tree"] + rest, locator.path + ["tree"] + rest) in plan.moves)
            && (var summary := l.path + ["summary.json"];
                summary in plan.files ==>
                  if fmt.digest(plan.files[summary]) == l.reportSha then summary in plan.removals
                  else Move(summary, locator.path + ["summary.divergent.json"]) in plan.moves)
  {
    hide Planned, TreePlanned, SummaryPlanned;
    PlannedBundles(fmt, plan);
    var l := plan.bundles[d];
    assert BundlePlanned(fmt, plan.files, plan.runOf, d, l, plan.index.bundles[d], plan.moves, plan.removals);
    var run := plan.runOf[l.reportSha];
    TreeMoves(plan.files, l, run, plan.moves);
    SummaryMoves(fmt, plan.files, l, run, plan.moves, plan.removals);
    assert NewManifest(run) == BundlePath(run) + ["manifest.json"];
  }

  lemma TreeMoves(files: Files, l: Locator, run: Run, moves: seq<Move>)
    requires TreePlanned(files, l, run, moves)
    ensures forall rest: Path | rest != [] && l.path + ["tree"] + rest in files ::
              Move(l.path + ["tree"] + rest, ["runs"] + run + ["bundle"] + ["tree"] + rest) in moves
  {
    forall rest: Path | rest != [] && l.path + ["tree"] + rest in files
      ensures Move(l.path + ["tree"] + rest, ["runs"] + run + ["bundle"] + ["tree"] + rest) in moves
    {
      var p := l.path + ["tree"] + rest;
      assert p[..|TreeAt(l)|] == TreeAt(l) && p[|TreeAt(l)|..] == rest;
      assert InTree(l, p) && Moves(moves, p, TreeTarget(l, run, p));
    }
  }

  lemma SummaryMoves(fmt: Formats, files: Files, l: Locator, run: Run, moves: seq<Move>, removals: seq<Path>)
    requires SummaryPlanned(fmt, files, l, run, moves, removals)
    ensures var summary := l.path + ["summary.json"];
            summary in files ==>
              if fmt.digest(files[summary]) == l.reportSha then summary in removals
              else Move(summary, ["runs"] + run + ["bundle"] + ["summary.divergent.json"]) in moves
  {
    assert DivergentSummary(run) == ["runs"] + run + ["bundle"] + ["summary.divergent.json"];
  }
}
