/**
  What the one-shot migration of the benchmark history plans: a directory per
  run, with the run's report, its deltas and its bundle, and the index that
  names them.  The digest, the JSON readers and the JSON writer are parameters.
*/
module MigrationPlan {
  import opened Basics
  import opened Names
  import opened FileMoves

  type Run = seq<string>

  // --- the two index layouts ------------------------------------------------

  datatype Entry = Entry(path: Path, bytes: int)
  datatype Comparison = Comparison(id: string, baselineSha: string, currentSha: string, deltaSha: string)
  datatype Locator = Locator(path: Path, reportSha: string, artifactFiles: int, artifactBytes: int)

  datatype IndexV1 = IndexV1(
    schemaVersion: int, artifacts: map<string, Entry>, deltas: map<string, Entry>, comparisons: seq<Comparison>)

  datatype NewEntry = NewEntry(path: Path, bytes: int, run: Run, baselineRun: Option<Run>)
  datatype NewComparison = NewComparison(v1: Comparison, baselineRun: Run, currentRun: Run, deltaPath: Path)
  datatype NewLocator = NewLocator(v1: Locator, path: Path, run: Run)

  datatype RunRecord = RunRecord(
    kind: string, report: Entry, reportSha: string, deltas: seq<Path>, bundle: Option<NewLocator>)

  datatype IndexV2 = IndexV2(
    runs: map<Run, RunRecord>, artifacts: map<string, NewEntry>, deltas: map<string, NewEntry>,
    bundles: map<string, NewLocator>, comparisons: seq<NewComparison>)

  datatype Report = Report(run: Run, kind: string)

  datatype Formats = Formats(
    digest: Bytes -> string,
    readReport: Bytes -> Option<Report>,
    readIndex: Bytes -> Option<IndexV1>,
    readBundles: Bytes -> Option<map<string, Locator>>,
    encode: IndexV2 -> Bytes)

  // --- names ----------------------------------------------------------------

  const INDEX: Path := ["index.json"]
  const BUNDLE_INDEX: Path := ["matrix_bundles", "index.json"]
  const STALE: seq<string> := ["reports", "deltas", "matrix_bundles"]

  function Short(s: string, n: nat): string {
    if |s| < n then s else s[..n]
  }

  /** Text put before and after a run's name, which may hold separators. */
  function Affix(before: string, run: Run, after: string): Path {
    if run == [] then [before + after]
    else
      var first := run[0 := before + run[0]];
      first[|run| - 1 := first[|run| - 1] + after]
  }

  function Disambiguated(run: Run, sha: string): Run {
    Affix("", run, "-" + Short(sha, 6))
  }

  function ReportPath(run: Run): (p: Path)
    ensures !OffRuns(p)
  {
    ["runs"] + run + ["report.json"]
  }

  function BundlePath(run: Run): (p: Path)
    ensures !OffRuns(p)
  {
    ["runs"] + run + ["bundle"]
  }

  function Unattributed(sha: string): Path {
    ["runs", "unattributed", Short(sha, 12) + ".json"]
  }

  function DeltaPath(taken: set<Path>, current: Run, baseline: Run, sha: string): (p: Path)
    ensures |p| > 1 && p[0] == "runs"
  {
    var candidate := ["runs"] + current + Affix("delta-from-", baseline, ".json");
    if candidate in taken
    then ["runs"] + current + Affix("delta-from-", baseline, "-" + Short(sha, 6) + ".json")
    else candidate
  }

  // --- what a plan holds ----------------------------------------------------

  predicate ReportSound(fmt: Formats, files: Files, artifacts: map<string, Entry>, sha: string)
    requires sha in artifacts
  {
    var path := artifacts[sha].path;
    path in files && fmt.digest(files[path]) == sha && fmt.readReport(files[path]).Some?
  }

  function ReportOf(fmt: Formats, files: Files, artifacts: map<string, Entry>, sha: string): Report
    requires sha in artifacts && ReportSound(fmt, files, artifacts, sha)
  {
    fmt.readReport(files[artifacts[sha].path]).value
  }

  /** A run is named by its report, with the digest's start added if the name is taken. */
  function RunName(name: Run, taken: set<Run>, sha: string): Run {
    if name in taken then Disambiguated(name, sha) else name
  }

  predicate ReportsSound(fmt: Formats, files: Files, artifacts: map<string, Entry>, list: seq<string>) {
    forall sha | sha in list :: sha in artifacts && ReportSound(fmt, files, artifacts, sha)
  }

  function RunsFor(fmt: Formats, files: Files, artifacts: map<string, Entry>, list: seq<string>): (m: map<string, Run>)
    requires ReportsSound(fmt, files, artifacts, list)
    ensures forall sha :: sha in m <==> sha in list
  {
    if list == [] then map[]
    else
      var n := |list| - 1;
      var prior := RunsFor(fmt, files, artifacts, list[..n]);
      assert list == list[..n] + [list[n]];
      prior[list[n] := RunName(ReportOf(fmt, files, artifacts, list[n]).run, prior.Values, list[n])]
  }

  /** The i-th report finds both its name and its name with the digest's start taken. */
  predicate BothTaken(fmt: Formats, files: Files, artifacts: map<string, Entry>, list: seq<string>, i: nat)
    requires ReportsSound(fmt, files, artifacts, list) && i < |list|
  {
    assert forall sha | sha in list[..i] :: sha in list;
    var taken := RunsFor(fmt, files, artifacts, list[..i]).Values;
    var name := ReportOf(fmt, files, artifacts, list[i]).run;
    name in taken && Disambiguated(name, list[i]) in taken
  }

  ghost predicate OneRunEach(runOf: map<string, Run>) {
    forall a, b | a in runOf && b in runOf && runOf[a] == runOf[b] :: a == b
  }

  lemma OneRunMore(runOf: map<string, Run>, sha: string, run: Run)
    requires sha !in runOf
    ensures OneRunEach(runOf[sha := run]) <==> OneRunEach(runOf) && run !in runOf.Values
  {
    var more := runOf[sha := run];
    if OneRunEach(more) {
      forall a, b | a in runOf && b in runOf && runOf[a] == runOf[b] ensures a == b {
        assert more[a] == more[b];
      }
      forall a | a in runOf ensures runOf[a] != run {
        assert more[a] == runOf[a] && more[sha] == run;
      }
    }
  }

  /** The last report's run repeats an earlier one exactly when both its names are taken. */
  lemma LastRun(fmt: Formats, files: Files, artifacts: map<string, Entry>, list: seq<string>)
    requires list != [] && ReportsSound(fmt, files, artifacts, list) && Distinct(list)
    requires ReportsSound(fmt, files, artifacts, list[..|list| - 1])
    ensures OneRunEach(RunsFor(fmt, files, artifacts, list)) <==>
              OneRunEach(RunsFor(fmt, files, artifacts, list[..|list| - 1]))
              && !BothTaken(fmt, files, artifacts, list, |list| - 1)
  {
    hide ReportOf, ReportSound, Disambiguated, OneRunEach;
    var n := |list| - 1;
    assert list[n] !in list[..n];
    var prior := RunsFor(fmt, files, artifacts, list[..n]);
    OneRunMore(prior, list[n], RunName(ReportOf(fmt, files, artifacts, list[n]).run, prior.Values, list[n]));
  }

  /** No report, in digest order, finds both of its names taken by the reports before it. */
  ghost predicate NamesSuffice(fmt: Formats, files: Files, artifacts: map<string, Entry>, list: seq<string>)
    requires ReportsSound(fmt, files, artifacts, list)
  {
    forall i | 0 <= i < |list| :: !BothTaken(fmt, files, artifacts, list, i)
  }

  lemma LastSuffices(fmt: Formats, files: Files, artifacts: map<string, Entry>, list: seq<string>)
    requires list != [] && ReportsSound(fmt, files, artifacts, list)
    requires ReportsSound(fmt, files, artifacts, list[..|list| - 1])
    ensures NamesSuffice(fmt, files, artifacts, list) <==>
              NamesSuffice(fmt, files, artifacts, list[..|list| - 1])
              && !BothTaken(fmt, files, artifacts, list, |list| - 1)
  {
    hide BothTaken, ReportsSound;
    var n := |list| - 1;
    forall i | 0 <= i < n
      ensures BothTaken(fmt, files, artifacts, list, i) == BothTaken(fmt, files, artifacts, list[..n], i)
    {
      SameTaken(fmt, files, artifacts, list, n, i);
    }
  }

  /** Planning gives every report a run of its own exactly when the names suffice. */
  lemma {:induction false} RunsCollideExactly(fmt: Formats, files: Files, artifacts: map<string, Entry>,
                                              list: seq<string>)
    requires ReportsSound(fmt, files, artifacts, list) && Distinct(list)
    ensures OneRunEach(RunsFor(fmt, files, artifacts, list)) <==> NamesSuffice(fmt, files, artifacts, list)
  {
    if list == [] {
      NoRuns();
    } else {
      var init := list[..|list| - 1];
      assert forall sha | sha in init :: sha in list;
      assert ReportsSound(fmt, files, artifacts, init);
      hide BothTaken, RunsFor, ReportsSound, OneRunEach, NamesSuffice;
      RunsCollideExactly(fmt, files, artifacts, init);
      LastRun(fmt, files, artifacts, list);
      LastSuffices(fmt, files, artifacts, list);
    }
  }

  lemma SameTaken(fmt: Formats, files: Files, artifacts: map<string, Entry>, list: seq<string>, n: nat, i: nat)
    requires ReportsSound(fmt, files, artifacts, list) && i < n <= |list|
    requires ReportsSound(fmt, files, artifacts, list[..n])
    ensures BothTaken(fmt, files, artifacts, list, i) == BothTaken(fmt, files, artifacts, list[..n], i)
  {
    assert list[..n][..i] == list[..i];
  }

  lemma NoRuns()
    ensures OneRunEach(map[])
  {
  }

  // --- a collision ----------------------------------------------------------

  /** Three one-byte reports under their digests; the first one's name is the
      name the third falls back to. */
  function CollidingFormats(): Formats {
    Formats(b => if b == [0] then "0" else if b == [1] then "1" else "abcdef0",
            b => Some(Report(if b == [0] then ["a-abcdef"] else ["a"], "kind")),
            _ => None, _ => None, _ => [])
  }

  const COLLIDING_FILES: Files := map[["reports", "0"] := [0], ["reports", "1"] := [1], ["reports", "2"] := [2]]
  const COLLIDING_ARTIFACTS: map<string, Entry> :=
    map["0" := Entry(["reports", "0"], 1), "1" := Entry(["reports", "1"], 1), "abcdef0" := Entry(["reports", "2"], 1)]
  const COLLIDING_LIST := ["0", "1", "abcdef0"]

  lemma FallbackName()
    ensures Disambiguated(["a"], "abcdef0") == ["a-abcdef"]
  {
    var run: Run := ["a"];
    assert Short("abcdef0", 6) == "abcdef";
    var tail := "-" + Short("abcdef0", 6);
    assert "" + run[0] == "a" && "a" + tail == "a-abcdef";
  }

  lemma CollidingReportsSound()
    ensures ReportsSound(CollidingFormats(), COLLIDING_FILES, COLLIDING_ARTIFACTS, COLLIDING_LIST)
    ensures ReportsSound(CollidingFormats(), COLLIDING_FILES, COLLIDING_ARTIFACTS, ["0", "1"])
    ensures ReportsSound(CollidingFormats(), COLLIDING_FILES, COLLIDING_ARTIFACTS, ["0"])
    ensures ReportsSound(CollidingFormats(), COLLIDING_FILES, COLLIDING_ARTIFACTS, [])
  {
    var fmt := CollidingFormats();
    forall sha | sha in COLLIDING_LIST
      ensures sha in COLLIDING_ARTIFACTS && ReportSound(fmt, COLLIDING_FILES, COLLIDING_ARTIFACTS, sha)
    {
      var zero: Bytes, one: Bytes, two: Bytes := [0], [1], [2];
      assert zero[0] != one[0] && one[0] != two[0] && zero[0] != two[0];
      assert sha == "0" || sha == "1" || sha == "abcdef0";
    }
  }

  /** An archive of three readable reports in which two get one run. */
  lemma FallbackCollides()
    ensures ReportsSound(CollidingFormats(), COLLIDING_FILES, COLLIDING_ARTIFACTS, COLLIDING_LIST)
    ensures COLLIDING_LIST == SortedList(COLLIDING_ARTIFACTS.Keys)
    ensures var runOf := RunsFor(CollidingFormats(), COLLIDING_FILES, COLLIDING_ARTIFACTS, COLLIDING_LIST);
            runOf["0"] == runOf["abcdef0"] == ["a-abcdef"]
  {
    CollidingReportsSound();
    CollidingOrder();
    CollidingNames();
    FallbackName();
    hide ReportOf, ReportSound, ReportsSound, Disambiguated, SortedList, CollidingFormats, RunsFor;
    ThirdRun(CollidingFormats(), COLLIDING_FILES, COLLIDING_ARTIFACTS, "0", "1", "abcdef0");
  }

  /** If the third name falls back to the first run, the two share it. */
  lemma ThirdRun(fmt: Formats, files: Files, artifacts: map<string, Entry>, a: string, b: string, c: string)
    requires a != b && b != c && a != c
    requires ReportsSound(fmt, files, artifacts, []) && ReportsSound(fmt, files, artifacts, [a])
    requires ReportsSound(fmt, files, artifacts, [a, b]) && ReportsSound(fmt, files, artifacts, [a, b, c])
    requires a in artifacts && ReportSound(fmt, files, artifacts, a)
    requires b in artifacts && ReportSound(fmt, files, artifacts, b)
    requires c in artifacts && ReportSound(fmt, files, artifacts, c)
    requires var x, y := ReportOf(fmt, files, artifacts, a).run, ReportOf(fmt, files, artifacts, b).run;
             x != y && ReportOf(fmt, files, artifacts, c).run == y && Disambiguated(y, c) == x
    ensures var runOf := RunsFor(fmt, files, artifacts, [a, b, c]);
            runOf[a] == runOf[c] == ReportOf(fmt, files, artifacts, a).run
  {
    hide ReportOf, ReportSound, ReportsSound, Disambiguated, RunsFor;
    assert [] + [a] == [a] && [a] + [b] == [a, b] && [a, b] + [c] == [a, b, c];
    RunsSnoc(fmt, files, artifacts, [], a);
    RunsSnoc(fmt, files, artifacts, [a], b);
    RunsSnoc(fmt, files, artifacts, [a, b], c);
    var two := RunsFor(fmt, files, artifacts, [a, b]);
    assert two[b] in two.Values;
  }

  lemma RunsSnoc(fmt: Formats, files: Files, artifacts: map<string, Entry>, list: seq<string>, sha: string)
    requires ReportsSound(fmt, files, artifacts, list + [sha]) && ReportsSound(fmt, files, artifacts, list)
    ensures sha in artifacts && ReportSound(fmt, files, artifacts, sha)
    ensures var prior := RunsFor(fmt, files, artifacts, list);
            RunsFor(fmt, files, artifacts, list + [sha])
            == prior[sha := RunName(ReportOf(fmt, files, artifacts, sha).run, prior.Values, sha)]
    ensures list == [] ==> RunsFor(fmt, files, artifacts, list) == map[]
  {
    hide ReportOf, ReportSound;
    assert sha in list + [sha];
    assert (list + [sha])[..|list|] == list;
  }

  lemma CollidingNames()
    requires ReportsSound(CollidingFormats(), COLLIDING_FILES, COLLIDING_ARTIFACTS, COLLIDING_LIST)
    ensures "0" in COLLIDING_ARTIFACTS && "1" in COLLIDING_ARTIFACTS && "abcdef0" in COLLIDING_ARTIFACTS
    ensures forall sha | sha in COLLIDING_LIST ::
              ReportSound(CollidingFormats(), COLLIDING_FILES, COLLIDING_ARTIFACTS, sha)
    ensures ReportOf(CollidingFormats(), COLLIDING_FILES, COLLIDING_ARTIFACTS, "0").run == ["a-abcdef"]
    ensures ReportOf(CollidingFormats(), COLLIDING_FILES, COLLIDING_ARTIFACTS, "1").run == ["a"]
    ensures ReportOf(CollidingFormats(), COLLIDING_FILES, COLLIDING_ARTIFACTS, "abcdef0").run == ["a"]
  {
    assert "0" in COLLIDING_LIST && "1" in COLLIDING_LIST && "abcdef0" in COLLIDING_LIST;
    var zero: Bytes, one: Bytes, two: Bytes := [0], [1], [2];
    assert zero[0] != one[0] && zero[0] != two[0];
  }

  lemma CollidingOrder()
    ensures COLLIDING_LIST == SortedList(COLLIDING_ARTIFACTS.Keys)
  {
    assert Before("0", "1") && Before("1", "abcdef0") && Before("0", "abcdef0");
    assert Ascending(COLLIDING_LIST) && COLLIDING_ARTIFACTS.Keys == {"0", "1", "abcdef0"};
    hide Before, Ascending;
    AscendingUnique(COLLIDING_LIST, SortedList(COLLIDING_ARTIFACTS.Keys));
  }

  predicate PlannedReport(artifacts: map<string, Entry>, runOf: map<string, Run>, out: map<string, NewEntry>,
                          moves: seq<Move>, sha: string)
    requires sha in artifacts
  {
    && sha in runOf && sha in out
    && out[sha] == NewEntry(ReportPath(runOf[sha]), artifacts[sha].bytes, runOf[sha], None)
    && Moves(moves, artifacts[sha].path, out[sha].path)
  }

  ghost predicate ReportsPlanned(fmt: Formats, files: Files, artifacts: map<string, Entry>, runOf: map<string, Run>,
                                 out: map<string, NewEntry>, moves: seq<Move>, list: seq<string>)
  {
    && ReportsSound(fmt, files, artifacts, list)
    && runOf == RunsFor(fmt, files, artifacts, list)
    && (forall sha :: sha in out <==> sha in list)
    && forall sha | sha in list :: PlannedReport(artifacts, runOf, out, moves, sha)
  }

  function FreshRecord(fmt: Formats, files: Files, artifacts: map<string, Entry>, run: Run, sha: string): RunRecord
    requires sha in artifacts && ReportSound(fmt, files, artifacts, sha)
  {
    RunRecord(ReportOf(fmt, files, artifacts, sha).kind, Entry(ReportPath(run), artifacts[sha].bytes), sha, [], None)
  }

  /** Each run's record is that of a report of the run. */
  ghost predicate RecordsFresh(fmt: Formats, files: Files, artifacts: map<string, Entry>, runOf: map<string, Run>,
                               runs: map<Run, RunRecord>)
  {
    && (forall sha | sha in runOf :: runOf[sha] in runs)
    && forall run | run in runs :: exists sha :: RecordFrom(fmt, files, artifacts, runOf, run, runs[run], sha)
  }

  predicate RecordFrom(fmt: Formats, files: Files, artifacts: map<string, Entry>, runOf: map<string, Run>,
                       run: Run, record: RunRecord, sha: string)
  {
    && sha in runOf && runOf[sha] == run && sha in artifacts && ReportSound(fmt, files, artifacts, sha)
    && record == FreshRecord(fmt, files, artifacts, run, sha)
  }

  predicate EntriesOffRuns(entries: map<string, Entry>) {
    forall sha | sha in entries :: OffRuns(entries[sha].path)
  }

  predicate Archived(runOf: map<string, Run>, c: Comparison) {
    c.baselineSha in runOf && c.currentSha in runOf
  }

  /** Where the compared deltas go: beside the current report of their first comparison. */
  function DeltaPaths(runOf: map<string, Run>, comparisons: seq<Comparison>): (paths: map<string, Path>)
    requires forall c | c in comparisons :: Archived(runOf, c)
    ensures forall c | c in comparisons :: c.deltaSha in paths
    ensures forall sha | sha in paths :: |paths[sha]| > 1 && paths[sha][0] == "runs"
  {
    if comparisons == [] then map[]
    else
      var n := |comparisons| - 1;
      var c := comparisons[n];
      var prior := DeltaPaths(runOf, comparisons[..n]);
      assert comparisons == comparisons[..n] + [c];
      assert c in comparisons && Archived(runOf, c);
      if c.deltaSha in prior then prior
      else prior[c.deltaSha := DeltaPath(prior.Values, runOf[c.currentSha], runOf[c.baselineSha], c.deltaSha)]
  }

  /** Three comparisons of one pair of reports. */
  function Thrice(b: string, c: string, x: string, y: string, z: string): seq<Comparison> {
    [Comparison("1", b, c, x), Comparison("2", b, c, y), Comparison("3", b, c, z)]
  }

  lemma PathsSnoc(runOf: map<string, Run>, comparisons: seq<Comparison>, c: Comparison)
    requires (forall k | k in comparisons :: Archived(runOf, k)) && Archived(runOf, c)
    ensures var prior := DeltaPaths(runOf, comparisons);
            DeltaPaths(runOf, comparisons + [c]) ==
              if c.deltaSha in prior then prior
              else prior[c.deltaSha := DeltaPath(prior.Values, runOf[c.currentSha], runOf[c.baselineSha], c.deltaSha)]
    ensures comparisons == [] ==> DeltaPaths(runOf, comparisons) == map[]
  {
    hide DeltaPath;
    assert (comparisons + [c])[..|comparisons|] == comparisons;
  }

  /** The delta's fallback name is not checked to be free: two more deltas of a
      pair whose digests start alike are given one path. */
  lemma DeltaFallbackCollides(runOf: map<string, Run>, b: string, c: string, x: string, y: string, z: string)
    requires b in runOf && c in runOf && x != y && y != z && x != z && Short(y, 6) == Short(z, 6)
    ensures forall k | k in Thrice(b, c, x, y, z) :: Archived(runOf, k)
    ensures var paths := DeltaPaths(runOf, Thrice(b, c, x, y, z)); paths[y] == paths[z]
  {
    var all := Thrice(b, c, x, y, z);
    assert [] + [all[0]] == [all[0]] && [all[0]] + [all[1]] == [all[0], all[1]] && [all[0], all[1]] + [all[2]] == all;
    var one, two := DeltaPaths(runOf, [all[0]]), DeltaPaths(runOf, [all[0], all[1]]);
    hide Affix, DeltaPaths, Short;
    PathsSnoc(runOf, [], all[0]);
    PathsSnoc(runOf, [all[0]], all[1]);
    PathsSnoc(runOf, [all[0], all[1]], all[2]);
    assert one[x] in one.Values && two[x] in two.Values && two[x] == one[x];
  }

  /** For instance, of one pair's deltas d0, abcdef1 and abcdef2. */
  lemma DeltaFallbackCollision()
    ensures var runOf: map<string, Run> := map["b" := ["b"], "c" := ["c"]];
            var paths := DeltaPaths(runOf, Thrice("b", "c", "d0", "abcdef1", "abcdef2"));
            "abcdef1" in paths && "abcdef2" in paths && paths["abcdef1"] == paths["abcdef2"]
  {
    var runOf: map<string, Run> := map["b" := ["b"], "c" := ["c"]];
    assert Short("abcdef1", 6) == "abcdef" == Short("abcdef2", 6);
    assert "abcdef1"[6] != "abcdef2"[6];
    DeltaFallbackCollides(runOf, "b", "c", "d0", "abcdef1", "abcdef2");
  }

  predicate OnePartRuns(runOf: map<string, Run>) {
    forall sha | sha in runOf :: |runOf[sha]| == 1
  }

  predicate LooksLikeDelta(p: Path) {
    |p| == 3 && p[0] == "runs" && "delta-from-" <= p[2]
  }

  lemma {:induction false} DeltaPathShape(runOf: map<string, Run>, comparisons: seq<Comparison>, sha: string)
    requires (forall c | c in comparisons :: Archived(runOf, c)) && OnePartRuns(runOf)
    requires sha in DeltaPaths(runOf, comparisons)
    ensures LooksLikeDelta(DeltaPaths(runOf, comparisons)[sha])
  {
    if comparisons != [] {
      var n := |comparisons| - 1;
      var c := comparisons[n];
      assert comparisons == comparisons[..n] + [c];
      var prior := DeltaPaths(runOf, comparisons[..n]);
      if sha in prior {
        DeltaPathShape(runOf, comparisons[..n], sha);
      } else {
        assert c in comparisons && Archived(runOf, c) && c.deltaSha == sha;
        OnePartDeltaPath(prior.Values, runOf[c.currentSha], runOf[c.baselineSha], sha);
      }
    }
  }

  lemma OnePartDeltaPath(taken: set<Path>, current: Run, baseline: Run, sha: string)
    requires |current| == 1 && |baseline| == 1
    ensures LooksLikeDelta(DeltaPath(taken, current, baseline, sha))
  {
    var before := "delta-from-" + baseline[0];
    assert before[..11] == "delta-from-";
    assert (before + ".json")[..11] == "delta-from-";
    var after := "-" + Short(sha, 6) + ".json";
    assert (before + after)[..11] == "delta-from-";
    assert Affix("delta-from-", baseline, ".json") == [before + ".json"];
    assert Affix("delta-from-", baseline, after) == [before + after];
  }

  /** The first comparison of a delta, if any. */
  function FirstOf(comparisons: seq<NewComparison>, sha: string): Option<Run> {
    if comparisons == [] then None
    else if comparisons[0].v1.deltaSha == sha then Some(comparisons[0].baselineRun)
    else FirstOf(comparisons[1..], sha)
  }

  function DeltaTarget(paths: map<string, Path>, sha: string): Path {
    if sha in paths then paths[sha] else Unattributed(sha)
  }

  predicate DeltaSound(fmt: Formats, files: Files, deltas: map<string, Entry>, sha: string)
    requires sha in deltas
  {
    deltas[sha].path in files && fmt.digest(files[deltas[sha].path]) == sha
  }

  predicate PlannedDelta(deltas: map<string, Entry>, paths: map<string, Path>, comparisons: seq<NewComparison>,
                         out: map<string, NewEntry>, moves: seq<Move>, sha: string)
    requires sha in deltas
  {
    && sha in out && out[sha].path == DeltaTarget(paths, sha) && |out[sha].path| > 1
    && out[sha] == NewEntry(out[sha].path, deltas[sha].bytes, [out[sha].path[1]], FirstOf(comparisons, sha))
    && Moves(moves, deltas[sha].path, out[sha].path)
  }

  ghost predicate DeltasPlanned(fmt: Formats, files: Files, deltas: map<string, Entry>, paths: map<string, Path>,
                                comparisons: seq<NewComparison>, out: map<string, NewEntry>,
                                moves: seq<Move>, list: seq<string>)
  {
    && (forall sha :: sha in out <==> sha in list)
    && forall sha | sha in list ::
         sha in deltas && DeltaSound(fmt, files, deltas, sha)
         && PlannedDelta(deltas, paths, comparisons, out, moves, sha)
  }

  /** A run lists exactly the deltas whose entry names it. */
  ghost predicate DeltasListed(runs: map<Run, RunRecord>, out: map<string, NewEntry>) {
    forall run, p | run in runs ::
      p in runs[run].deltas <==> exists sha :: sha in out && out[sha].run == run && out[sha].path == p
  }

  /** The records differ at most in their delta lists. */
  predicate SameButDeltas(a: map<Run, RunRecord>, b: map<Run, RunRecord>) {
    && a.Keys == b.Keys
    && forall run | run in a :: a[run] == b[run].(deltas := a[run].deltas)
  }

  // --- only evidence moves --------------------------------------------------

  /** The move takes an indexed file to its new entry's path. */
  predicate FromEntries(entries: map<string, Entry>, out: map<string, NewEntry>, m: Move) {
    exists sha :: sha in entries && sha in out && m == Move(entries[sha].path, out[sha].path)
  }

  predicate NewFromEntries(before: seq<Move>, moves: seq<Move>, entries: map<string, Entry>,
                           out: map<string, NewEntry>) {
    forall m | m in moves :: m in before || FromEntries(entries, out, m)
  }

  lemma OneMoreFromEntries(before: seq<Move>, moves: seq<Move>, entries: map<string, Entry>,
                           out: map<string, NewEntry>, sha: string, entry: NewEntry)
    requires NewFromEntries(before, moves, entries, out) && sha in entries && sha !in out
    ensures NewFromEntries(before, moves + [Move(entries[sha].path, entry.path)], entries, out[sha := entry])
  {
    var more := out[sha := entry];
    forall m | m in moves + [Move(entries[sha].path, entry.path)]
      ensures m in before || FromEntries(entries, more, m)
    {
      if m in moves && m !in before {
        var x :| x in entries && x in out && m == Move(entries[x].path, out[x].path);
        assert more[x] == out[x];
      } else if m !in before {
        assert more[sha] == entry;
      }
    }
  }

  /** The move takes a bundle's manifest, a file of its tree or its summary into the run's bundle. */
  predicate FromBundle(l: Locator, run: Run, m: Move) {
    || m == Move(ManifestAt(l), NewManifest(run))
    || m == Move(SummaryAt(l), DivergentSummary(run))
    || (InTree(l, m.from) && m.to == TreeTarget(l, run, m.from))
  }

  predicate NewFromBundle(before: seq<Move>, moves: seq<Move>, l: Locator, run: Run) {
    forall m | m in moves :: m in before || FromBundle(l, run, m)
  }

  predicate FromBundles(bundles: map<string, Locator>, runOf: map<string, Run>, m: Move) {
    exists d :: d in bundles && bundles[d].reportSha in runOf && FromBundle(bundles[d], runOf[bundles[d].reportSha], m)
  }

  predicate NewFromBundles(before: seq<Move>, moves: seq<Move>, bundles: map<string, Locator>,
                           runOf: map<string, Run>) {
    forall m | m in moves :: m in before || FromBundles(bundles, runOf, m)
  }

  lemma OneMoreFromBundle(before: seq<Move>, moves: seq<Move>, l: Locator, run: Run, m: Move)
    requires NewFromBundle(before, moves, l, run) && FromBundle(l, run, m)
    ensures NewFromBundle(before, moves + [m], l, run)
  {
  }

  lemma OneMoreFromBundles(before: seq<Move>, moves: seq<Move>, more: seq<Move>, bundles: map<string, Locator>,
                           runOf: map<string, Run>, d: string)
    requires NewFromBundles(before, moves, bundles, runOf)
    requires d in bundles && bundles[d].reportSha in runOf
    requires NewFromBundle(moves, more, bundles[d], runOf[bundles[d].reportSha])
    ensures NewFromBundles(before, more, bundles, runOf)
  {
    hide FromBundle;
    forall m | m in more ensures m in before || FromBundles(bundles, runOf, m) {
      if m !in moves {
        assert FromBundle(bundles[d], runOf[bundles[d].reportSha], m);
      }
    }
  }

  // --- planning lemmas ------------------------------------------------------

  lemma OneMoreReport(fmt: Formats, files: Files, artifacts: map<string, Entry>, runOf: map<string, Run>,
                      out: map<string, NewEntry>, moves: seq<Move>, list: seq<string>, sha: string, run: Run)
    requires ReportsPlanned(fmt, files, artifacts, runOf, out, moves, list)
    requires sha in artifacts && ReportSound(fmt, files, artifacts, sha) && sha !in list
    requires run == RunName(ReportOf(fmt, files, artifacts, sha).run, runOf.Values, sha)
    ensures ReportsPlanned(fmt, files, artifacts, runOf[sha := run],
                           out[sha := NewEntry(ReportPath(run), artifacts[sha].bytes, run, None)],
                           moves + [Move(artifacts[sha].path, ReportPath(run))], list + [sha])
  {
    assert (list + [sha])[..|list|] == list;
    forall x | x in list ensures PlannedReport(artifacts, runOf[sha := run],
                           out[sha := NewEntry(ReportPath(run), artifacts[sha].bytes, run, None)],
                           moves + [Move(artifacts[sha].path, ReportPath(run))], x)
    {
      assert PlannedReport(artifacts, runOf, out, moves, x);
    }
  }

  lemma OneMoreRecord(fmt: Formats, files: Files, artifacts: map<string, Entry>, runOf: map<string, Run>,
                      runs: map<Run, RunRecord>, sha: string, run: Run)
    requires RecordsFresh(fmt, files, artifacts, runOf, runs) && sha !in runOf
    requires sha in artifacts && ReportSound(fmt, files, artifacts, sha)
    ensures RecordsFresh(fmt, files, artifacts, runOf[sha := run],
              runs[run := RunRecord(ReportOf(fmt, files, artifacts, sha).kind,
                                    Entry(ReportPath(run), artifacts[sha].bytes), sha, [], None)])
  {
    var named, more := runOf[sha := run], runs[run := FreshRecord(fmt, files, artifacts, run, sha)];
    forall r | r in more
      ensures exists x :: RecordFrom(fmt, files, artifacts, named, r, more[r], x)
    {
      if r == run {
        assert RecordFrom(fmt, files, artifacts, named, r, more[r], sha);
      } else {
        var x :| RecordFrom(fmt, files, artifacts, runOf, r, runs[r], x);
        assert RecordFrom(fmt, files, artifacts, named, r, more[r], x);
      }
    }
  }

  lemma NothingPlanned(fmt: Formats, files: Files, artifacts: map<string, Entry>)
    ensures ReportsSoFar(fmt, files, artifacts, map[], map[], map[], [], [])
  {
  }

  lemma RunsNamed(fmt: Formats, files: Files, artifacts: map<string, Entry>, runOf: map<string, Run>,
                  runs: map<Run, RunRecord>)
    requires RecordsFresh(fmt, files, artifacts, runOf, runs)
    ensures runs.Keys == runOf.Values
  {
  }

  lemma PlannedReportsSound(fmt: Formats, files: Files, artifacts: map<string, Entry>, runOf: map<string, Run>,
                            out: map<string, NewEntry>, moves: seq<Move>, list: seq<string>)
    requires ReportsPlanned(fmt, files, artifacts, runOf, out, moves, list)
    ensures ReportsSound(fmt, files, artifacts, list)
    ensures forall sha :: (sha in runOf <==> sha in list) && (sha in out <==> sha in list)
  {
  }

  /** Everything the loop over reports has built after the reports in `list`. */
  ghost predicate ReportsSoFar(fmt: Formats, files: Files, artifacts: map<string, Entry>, runOf: map<string, Run>,
                               out: map<string, NewEntry>, runs: map<Run, RunRecord>,
                               moves: seq<Move>, list: seq<string>)
  {
    && ReportsPlanned(fmt, files, artifacts, runOf, out, moves, list)
    && RecordsFresh(fmt, files, artifacts, runOf, runs)
    && NewFromEntries([], moves, artifacts, out)
    && (EntriesOffRuns(artifacts) ==> IntoRuns(moves))
  }

  lemma NextReport(fmt: Formats, files: Files, artifacts: map<string, Entry>, runOf: map<string, Run>,
                   out: map<string, NewEntry>, runs: map<Run, RunRecord>,
                   moves: seq<Move>, list: seq<string>, i: nat, run: Run)
    requires Distinct(list) && i < |list|
    requires ReportsSoFar(fmt, files, artifacts, runOf, out, runs, moves, list[..i])
    requires list[i] in artifacts && ReportSound(fmt, files, artifacts, list[i])
    requires run == RunName(ReportOf(fmt, files, artifacts, list[i]).run, runs.Keys, list[i])
    ensures var sha := list[i]; var path, bytes := ReportPath(run), artifacts[sha].bytes;
            ReportsSoFar(fmt, files, artifacts, runOf[sha := run], out[sha := NewEntry(path, bytes, run, None)],
              runs[run := RunRecord(ReportOf(fmt, files, artifacts, sha).kind, Entry(path, bytes), sha, [], None)],
              moves + [Move(artifacts[sha].path, path)], list[..i + 1])
  {
    hide ReportsPlanned, RecordsFresh, RunName, IntoRuns, FreshRecord, ReportOf, ReportSound, ReportPath,
         EntriesOffRuns, NewFromEntries;
    var sha := list[i];
    assert list[..i + 1] == list[..i] + [sha];
    RunsNamed(fmt, files, artifacts, runOf, runs);
    PlannedReportsSound(fmt, files, artifacts, runOf, out, moves, list[..i]);
    OneMoreReport(fmt, files, artifacts, runOf, out, moves, list[..i], sha, run);
    OneMoreRecord(fmt, files, artifacts, runOf, runs, sha, run);
    assert sha !in out;
    OneMoreFromEntries([], moves, artifacts, out, sha, NewEntry(ReportPath(run), artifacts[sha].bytes, run, None));
    if EntriesOffRuns(artifacts) { OneMoreMove(moves, artifacts, sha, ReportPath(run)); }
  }

  lemma SoFarMoves(fmt: Formats, files: Files, artifacts: map<string, Entry>, runOf: map<string, Run>,
                   out: map<string, NewEntry>, runs: map<Run, RunRecord>, moves: seq<Move>, list: seq<string>)
    requires ReportsSoFar(fmt, files, artifacts, runOf, out, runs, moves, list)
    ensures ReportsPlanned(fmt, files, artifacts, runOf, out, moves, list)
    ensures RecordsFresh(fmt, files, artifacts, runOf, runs) && ReportsSound(fmt, files, artifacts, list)
    ensures NewFromEntries([], moves, artifacts, out)
    ensures EntriesOffRuns(artifacts) ==> IntoRuns(moves)
  {
  }

  lemma OneMoreMove(moves: seq<Move>, entries: map<string, Entry>, sha: string, to: Path)
    requires IntoRuns(moves) && sha in entries && EntriesOffRuns(entries) && !OffRuns(to)
    ensures IntoRuns(moves + [Move(entries[sha].path, to)])
  {
  }

  // --- deltas ---------------------------------------------------------------

  ghost predicate Compared(runOf: map<string, Run>, paths: map<string, Path>, comparisons: seq<Comparison>,
                           out: seq<NewComparison>)
  {
    && |out| == |comparisons|
    && forall i | 0 <= i < |out| ::
         var c := comparisons[i];
         && Archived(runOf, c) && c.deltaSha in paths
         && out[i] == NewComparison(c, runOf[c.baselineSha], runOf[c.currentSha], paths[c.deltaSha])
  }

  lemma NextComparison(runOf: map<string, Run>, comparisons: seq<Comparison>, out: seq<NewComparison>, i: nat)
    requires i < |comparisons| && Archived(runOf, comparisons[i])
    requires forall c | c in comparisons[..i] :: Archived(runOf, c)
    requires Compared(runOf, DeltaPaths(runOf, comparisons[..i]), comparisons[..i], out)
    ensures forall c | c in comparisons[..i + 1] :: Archived(runOf, c)
    ensures var c := comparisons[i]; var paths := DeltaPaths(runOf, comparisons[..i + 1]);
            && paths == (var prior := DeltaPaths(runOf, comparisons[..i]);
                         if c.deltaSha in prior then prior
                         else prior[c.deltaSha := DeltaPath(prior.Values, runOf[c.currentSha], runOf[c.baselineSha],
                                                            c.deltaSha)])
            && Compared(runOf, paths, comparisons[..i + 1],
                 out + [NewComparison(c, runOf[c.baselineSha], runOf[c.currentSha], paths[c.deltaSha])])
  {
    hide DeltaPath;
    var list := comparisons[..i + 1];
    assert list[..i] == comparisons[..i] && list == comparisons[..i] + [comparisons[i]];
  }

  /** Everything the loop over deltas has built after the deltas in `list`. */
  ghost predicate DeltasSoFar(fmt: Formats, files: Files, deltas: map<string, Entry>, paths: map<string, Path>,
                              comparisons: seq<NewComparison>, out: map<string, NewEntry>,
                              runs: map<Run, RunRecord>, moves: seq<Move>, list: seq<string>)
  {
    && DeltasPlanned(fmt, files, deltas, paths, comparisons, out, moves, list)
    && DeltasListed(runs, out)
  }

  predicate PathsInRuns(paths: map<string, Path>) {
    forall sha | sha in paths :: |paths[sha]| > 1 && paths[sha][0] == "runs"
  }

  function ListDelta(runs: map<Run, RunRecord>, run: Run, path: Path): map<Run, RunRecord> {
    if run in runs && path !in runs[run].deltas
    then runs[run := runs[run].(deltas := runs[run].deltas + [path])]
    else runs
  }

  lemma OneMoreDelta(fmt: Formats, files: Files, deltas: map<string, Entry>, paths: map<string, Path>,
                     comparisons: seq<NewComparison>, out: map<string, NewEntry>,
                     moves: seq<Move>, list: seq<string>, sha: string, entry: NewEntry)
    requires DeltasPlanned(fmt, files, deltas, paths, comparisons, out, moves, list)
    requires sha in deltas && DeltaSound(fmt, files, deltas, sha) && PathsInRuns(paths)
    requires entry.path == DeltaTarget(paths, sha) && |entry.path| > 1
    requires entry == NewEntry(entry.path, deltas[sha].bytes, [entry.path[1]], FirstOf(comparisons, sha))
    ensures DeltasPlanned(fmt, files, deltas, paths, comparisons, out[sha := entry],
                          moves + [Move(deltas[sha].path, entry.path)], list + [sha])
  {
    hide DeltaTarget, FirstOf, DeltaSound;
    var more, most := out[sha := entry], moves + [Move(deltas[sha].path, entry.path)];
    forall x | x in list + [sha]
      ensures x in deltas && DeltaSound(fmt, files, deltas, x)
      ensures PlannedDelta(deltas, paths, comparisons, more, most, x)
    {
      if x != sha { assert PlannedDelta(deltas, paths, comparisons, out, moves, x); }
    }
  }

  lemma OneMoreListed(runs: map<Run, RunRecord>, out: map<string, NewEntry>, sha: string, entry: NewEntry)
    requires DeltasListed(runs, out) && sha !in out
    ensures DeltasListed(ListDelta(runs, entry.run, entry.path), out[sha := entry])
    ensures SameButDeltas(runs, ListDelta(runs, entry.run, entry.path))
  {
    var after, more := ListDelta(runs, entry.run, entry.path), out[sha := entry];
    forall run, p | run in after
      ensures p in after[run].deltas <==> exists x :: x in more && more[x].run == run && more[x].path == p
    {
      if p in runs[run].deltas {
        var x :| x in out && out[x].run == run && out[x].path == p;
        assert more[x] == out[x];
      }
      if run == entry.run && p == entry.path {
        assert more[sha] == entry;
      }
      if x :| x in more && more[x].run == run && more[x].path == p {
        if x != sha { assert out[x].run == run && out[x].path == p; }
      }
    }
  }

  lemma NextDelta(fmt: Formats, files: Files, deltas: map<string, Entry>, paths: map<string, Path>,
                  comparisons: seq<NewComparison>, out: map<string, NewEntry>,
                  runs: map<Run, RunRecord>, moves: seq<Move>, list: seq<string>, i: nat, entry: NewEntry)
    requires Distinct(list) && i < |list| && PathsInRuns(paths)
    requires DeltasSoFar(fmt, files, deltas, paths, comparisons, out, runs, moves, list[..i])
    requires list[i] in deltas && DeltaSound(fmt, files, deltas, list[i])
    requires entry.path == DeltaTarget(paths, list[i]) && |entry.path| > 1
    requires entry == NewEntry(entry.path, deltas[list[i]].bytes, [entry.path[1]], FirstOf(comparisons, list[i]))
    ensures var sha := list[i];
            DeltasSoFar(fmt, files, deltas, paths, comparisons, out[sha := entry],
              ListDelta(runs, entry.run, entry.path), moves + [Move(deltas[sha].path, entry.path)], list[..i + 1])
    ensures SameButDeltas(runs, ListDelta(runs, entry.run, entry.path))
  {
    var sha := list[i];
    assert list[..i + 1] == list[..i] + [sha];
    assert sha !in out;
    hide DeltaSound, DeltaTarget, DeltasPlanned, DeltasListed, ListDelta, PathsInRuns, FirstOf, SameButDeltas;
    OneMoreDelta(fmt, files, deltas, paths, comparisons, out, moves, list[..i], sha, entry);
    OneMoreListed(runs, out, sha, entry);
  }

  lemma NoDeltas(fmt: Formats, files: Files, deltas: map<string, Entry>, paths: map<string, Path>,
                 comparisons: seq<NewComparison>, runs: map<Run, RunRecord>, moves: seq<Move>)
    requires forall run | run in runs :: runs[run].deltas == []
    ensures DeltasSoFar(fmt, files, deltas, paths, comparisons, map[], runs, moves, [])
  {
  }

  lemma SameButDeltasTransitive(a: map<Run, RunRecord>, b: map<Run, RunRecord>, c: map<Run, RunRecord>)
    requires SameButDeltas(a, b) && SameButDeltas(b, c)
    ensures SameButDeltas(a, c)
  {
  }

  /** The whole state of the loop over deltas, against what it started from. */
  ghost predicate DeltaProgress(fmt: Formats, files: Files, deltas: map<string, Entry>, paths: map<string, Path>,
                                comparisons: seq<NewComparison>, runs0: map<Run, RunRecord>, moves0: seq<Move>,
                                out: map<string, NewEntry>, runs: map<Run, RunRecord>, moves: seq<Move>,
                                list: seq<string>)
  {
    && DeltasSoFar(fmt, files, deltas, paths, comparisons, out, runs, moves, list)
    && SameButDeltas(runs0, runs) && moves0 <= moves
    && NewFromEntries(moves0, moves, deltas, out)
    && (EntriesOffRuns(deltas) && IntoRuns(moves0) ==> IntoRuns(moves))
    && forall sha | sha in list :: sha in deltas && DeltaSound(fmt, files, deltas, sha)
  }

  lemma DeltaStarts(fmt: Formats, files: Files, deltas: map<string, Entry>, paths: map<string, Path>,
                    comparisons: seq<NewComparison>, runs0: map<Run, RunRecord>, moves0: seq<Move>)
    requires forall run | run in runs0 :: runs0[run].deltas == []
    ensures DeltaProgress(fmt, files, deltas, paths, comparisons, runs0, moves0, map[], runs0, moves0, [])
  {
    NoDeltas(fmt, files, deltas, paths, comparisons, runs0, moves0);
    SameRuns(runs0);
  }

  lemma DeltaContinues(fmt: Formats, files: Files, deltas: map<string, Entry>, paths: map<string, Path>,
                       comparisons: seq<NewComparison>, runs0: map<Run, RunRecord>, moves0: seq<Move>,
                       out: map<string, NewEntry>, runs: map<Run, RunRecord>, moves: seq<Move>,
                       list: seq<string>, i: nat, entry: NewEntry)
    requires Distinct(list) && i < |list| && PathsInRuns(paths)
    requires DeltaProgress(fmt, files, deltas, paths, comparisons, runs0, moves0, out, runs, moves, list[..i])
    requires list[i] in deltas && DeltaSound(fmt, files, deltas, list[i])
    requires entry.path == DeltaTarget(paths, list[i]) && |entry.path| > 1
    requires entry == NewEntry(entry.path, deltas[list[i]].bytes, [entry.path[1]], FirstOf(comparisons, list[i]))
    ensures var sha := list[i];
            DeltaProgress(fmt, files, deltas, paths, comparisons, runs0, moves0, out[sha := entry],
              ListDelta(runs, entry.run, entry.path), moves + [Move(deltas[sha].path, entry.path)], list[..i + 1])
  {
    var sha := list[i];
    assert list[..i + 1] == list[..i] + [sha];
    assert forall x :: x in out <==> x in list[..i];
    hide DeltasSoFar, DeltaSound, DeltaTarget, ListDelta, PathsInRuns, FirstOf, SameButDeltas, NewFromEntries,
         IntoRuns, EntriesOffRuns, OffRuns;
    NextDelta(fmt, files, deltas, paths, comparisons, out, runs, moves, list, i, entry);
    SameButDeltasTransitive(runs0, runs, ListDelta(runs, entry.run, entry.path));
    OneMoreFromEntries(moves0, moves, deltas, out, sha, entry);
    TargetInRuns(paths, sha);
    if EntriesOffRuns(deltas) && IntoRuns(moves) { OneMoreMove(moves, deltas, sha, entry.path); }
  }

  lemma DeltaFinishes(fmt: Formats, files: Files, deltas: map<string, Entry>, paths: map<string, Path>,
                      comparisons: seq<NewComparison>, runs0: map<Run, RunRecord>, moves0: seq<Move>,
                      out: map<string, NewEntry>, runs: map<Run, RunRecord>, moves: seq<Move>, list: seq<string>)
    requires DeltaProgress(fmt, files, deltas, paths, comparisons, runs0, moves0, out, runs, moves, list)
    ensures DeltasSoFar(fmt, files, deltas, paths, comparisons, out, runs, moves, list)
    ensures SameButDeltas(runs0, runs) && moves0 <= moves && NewFromEntries(moves0, moves, deltas, out)
    ensures EntriesOffRuns(deltas) && IntoRuns(moves0) ==> IntoRuns(moves)
    ensures forall sha | sha in list :: sha in deltas && DeltaSound(fmt, files, deltas, sha)
  {
  }

  lemma TargetInRuns(paths: map<string, Path>, sha: string)
    requires PathsInRuns(paths)
    ensures |DeltaTarget(paths, sha)| > 1 && !OffRuns(DeltaTarget(paths, sha))
  {
  }

  lemma SameRuns(runs: map<Run, RunRecord>)
    ensures SameButDeltas(runs, runs)
  {
  }

  lemma NoComparisons(runOf: map<string, Run>)
    ensures DeltaPaths(runOf, []) == map[] && Compared(runOf, map[], [], [])
  {
  }

  // --- bundles --------------------------------------------------------------

  function ManifestAt(l: Locator): Path { l.path + ["manifest.json"] }
  function SummaryAt(l: Locator): Path { l.path + ["summary.json"] }
  function TreeAt(l: Locator): Path { l.path + ["tree"] }

  function NewManifest(run: Run): (p: Path)
    ensures !OffRuns(p)
  {
    BundlePath(run) + ["manifest.json"]
  }

  function DivergentSummary(run: Run): (p: Path)
    ensures !OffRuns(p)
  {
    BundlePath(run) + ["summary.divergent.json"]
  }

  predicate InTree(l: Locator, p: Path) {
    TreeAt(l) <= p && TreeAt(l) != p
  }

  function TreeTarget(l: Locator, run: Run, p: Path): (to: Path)
    requires InTree(l, p)
    ensures !OffRuns(to)
  {
    BundlePath(run) + ["tree"] + p[|TreeAt(l)|..]
  }

  predicate BundleSound(fmt: Formats, files: Files, runOf: map<string, Run>, digest: string, l: Locator) {
    && ManifestAt(l) in files && fmt.digest(files[ManifestAt(l)]) == digest
    && l.reportSha in runOf
    && (Exists(files, SummaryAt(l)) ==> SummaryAt(l) in files)
  }

  predicate TreePlanned(files: Files, l: Locator, run: Run, moves: seq<Move>) {
    forall p | p in files && InTree(l, p) :: Moves(moves, p, TreeTarget(l, run, p))
  }

  /** A summary that is the run's report again is dropped, any other is kept. */
  predicate SummaryPlanned(fmt: Formats, files: Files, l: Locator, run: Run, moves: seq<Move>, removals: seq<Path>) {
    SummaryAt(l) in files ==>
      if fmt.digest(files[SummaryAt(l)]) == l.reportSha then SummaryAt(l) in removals
      else Moves(moves, SummaryAt(l), DivergentSummary(run))
  }

  predicate BundlePlanned(fmt: Formats, files: Files, runOf: map<string, Run>, digest: string, l: Locator,
                          locator: NewLocator, moves: seq<Move>, removals: seq<Path>)
  {
    && BundleSound(fmt, files, runOf, digest, l)
    && var run := runOf[l.reportSha];
       && locator == NewLocator(l, BundlePath(run), run)
       && Moves(moves, ManifestAt(l), NewManifest(run))
       && TreePlanned(files, l, run, moves) && SummaryPlanned(fmt, files, l, run, moves, removals)
  }

  /** The file is a bundle's summary, with the digest of the bundle's report. */
  predicate RepeatsReport(fmt: Formats, files: Files, bundles: map<string, Locator>, d: string, p: Path) {
    && d in bundles && p == SummaryAt(bundles[d])
    && p in files && fmt.digest(files[p]) == bundles[d].reportSha
  }

  /** Every file to be removed is a bundle's summary that repeats its report. */
  ghost predicate RemovalsSound(fmt: Formats, files: Files, bundles: map<string, Locator>, removals: seq<Path>) {
    forall p | p in removals :: exists d :: RepeatsReport(fmt, files, bundles, d, p)
  }

  /** At most the bundle's own summary is added. */
  predicate AddsSummary(fmt: Formats, files: Files, l: Locator, before: seq<Path>, removals: seq<Path>) {
    removals == before
    || (removals == before + [SummaryAt(l)]
        && SummaryAt(l) in files && fmt.digest(files[SummaryAt(l)]) == l.reportSha)
  }

  lemma OneMoreRemoval(fmt: Formats, files: Files, bundles: map<string, Locator>, d: string,
                       before: seq<Path>, removals: seq<Path>)
    requires RemovalsSound(fmt, files, bundles, before) && d in bundles
    requires AddsSummary(fmt, files, bundles[d], before, removals)
    ensures RemovalsSound(fmt, files, bundles, removals)
  {
    forall p | p in removals ensures exists x :: RepeatsReport(fmt, files, bundles, x, p) {
      if p !in before {
        assert RepeatsReport(fmt, files, bundles, d, p);
      }
    }
  }

  /** Everything the loop over bundles has built after the bundles in `list`. */
  ghost predicate BundlesSoFar(fmt: Formats, files: Files, runOf: map<string, Run>, bundles: map<string, Locator>,
                               out: map<string, NewLocator>, moves: seq<Move>, removals: seq<Path>, list: seq<string>)
  {
    && (forall d :: d in out <==> d in list)
    && (forall d | d in list ::
          d in bundles && BundlePlanned(fmt, files, runOf, d, bundles[d], out[d], moves, removals))
  }

  /** A run's bundle is one of its own locators, and every run that has one has its bundle. */
  ghost predicate BundlesListed(runs: map<Run, RunRecord>, out: map<string, NewLocator>) {
    && (forall run | run in runs && runs[run].bundle.Some? ::
          exists d :: d in out && out[d] == runs[run].bundle.value && out[d].run == run)
    && (forall d | d in out :: out[d].run in runs && runs[out[d].run].bundle.Some?)
  }

  predicate SameButBundles(a: map<Run, RunRecord>, b: map<Run, RunRecord>) {
    && a.Keys == b.Keys
    && forall run | run in a :: a[run] == b[run].(bundle := a[run].bundle)
  }

  lemma BundleStaysPlanned(fmt: Formats, files: Files, runOf: map<string, Run>, digest: string, l: Locator,
                           locator: NewLocator, moves: seq<Move>, removals: seq<Path>,
                           more: seq<Move>, most: seq<Path>)
    requires BundlePlanned(fmt, files, runOf, digest, l, locator, moves, removals)
    requires moves <= more && removals <= most
    ensures BundlePlanned(fmt, files, runOf, digest, l, locator, more, most)
  {
    var run := runOf[l.reportSha];
    assert forall m | m in moves :: m in more;
    assert forall p | p in removals :: p in most;
    assert TreePlanned(files, l, run, more) by {
      forall p | p in files && InTree(l, p) ensures Moves(more, p, TreeTarget(l, run, p)) {
        assert Moves(moves, p, TreeTarget(l, run, p));
      }
    }
  }

  lemma NextBundle(fmt: Formats, files: Files, runOf: map<string, Run>, bundles: map<string, Locator>,
                   out: map<string, NewLocator>, moves: seq<Move>, removals: seq<Path>, list: seq<string>, i: nat,
                   locator: NewLocator, more: seq<Move>, most: seq<Path>)
    requires Distinct(list) && i < |list| && list[i] in bundles
    requires BundlesSoFar(fmt, files, runOf, bundles, out, moves, removals, list[..i])
    requires moves <= more && removals <= most
    requires BundlePlanned(fmt, files, runOf, list[i], bundles[list[i]], locator, more, most)
    ensures BundlesSoFar(fmt, files, runOf, bundles, out[list[i] := locator], more, most, list[..i + 1])
    ensures list[i] !in out
  {
    hide BundlePlanned;
    assert list[..i + 1] == list[..i] + [list[i]];
    forall d | d in list[..i]
      ensures BundlePlanned(fmt, files, runOf, d, bundles[d], out[d], more, most)
    {
      BundleStaysPlanned(fmt, files, runOf, d, bundles[d], out[d], moves, removals, more, most);
    }
  }

  function ListBundle(runs: map<Run, RunRecord>, locator: NewLocator): map<Run, RunRecord>
    requires locator.run in runs
  {
    runs[locator.run := runs[locator.run].(bundle := Some(locator))]
  }

  lemma OneMoreBundleListed(runs: map<Run, RunRecord>, out: map<string, NewLocator>, d: string, locator: NewLocator)
    requires BundlesListed(runs, out) && d !in out && locator.run in runs
    ensures BundlesListed(ListBundle(runs, locator), out[d := locator])
    ensures SameButBundles(runs, ListBundle(runs, locator))
  {
    var after, more := ListBundle(runs, locator), out[d := locator];
    forall run | run in after && after[run].bundle.Some?
      ensures exists x :: x in more && more[x] == after[run].bundle.value && more[x].run == run
    {
      if run == locator.run {
        assert more[d] == locator;
      } else {
        var x :| x in out && out[x] == runs[run].bundle.value && out[x].run == run;
        assert more[x] == out[x];
      }
    }
  }

  lemma SameRunNames(a: map<Run, RunRecord>, b: map<Run, RunRecord>)
    requires SameButBundles(a, b)
    ensures forall run :: run in a <==> run in b
  {
  }

  lemma SameButBundlesTransitive(a: map<Run, RunRecord>, b: map<Run, RunRecord>, c: map<Run, RunRecord>)
    requires SameButBundles(a, b) && SameButBundles(b, c)
    ensures SameButBundles(a, c)
  {
  }

  lemma NoBundles(fmt: Formats, files: Files, runOf: map<string, Run>, bundles: map<string, Locator>,
                  runs: map<Run, RunRecord>, moves: seq<Move>, removals: seq<Path>)
    requires forall run | run in runs :: runs[run].bundle.None?
    ensures BundlesSoFar(fmt, files, runOf, bundles, map[], moves, removals, [])
    ensures BundlesListed(runs, map[]) && SameButBundles(runs, runs)
  {
  }

  /** The whole state of the loop over bundles, against what it started from. */
  ghost predicate BundleProgress(fmt: Formats, files: Files, runOf: map<string, Run>, bundles: map<string, Locator>,
                                 runs0: map<Run, RunRecord>, moves0: seq<Move>, removals0: seq<Path>,
                                 out: map<string, NewLocator>, runs: map<Run, RunRecord>,
                                 moves: seq<Move>, removals: seq<Path>, list: seq<string>)
  {
    && BundlesSoFar(fmt, files, runOf, bundles, out, moves, removals, list)
    && BundlesListed(runs, out) && SameButBundles(runs0, runs)
    && (forall d | d in list :: d in bundles && BundleSound(fmt, files, runOf, d, bundles[d]))
    && BundleMoves(fmt, files, runOf, bundles, moves0, removals0, moves, removals)
  }

  /** What the loop's moves and removals are, against those it started from. */
  ghost predicate BundleMoves(fmt: Formats, files: Files, runOf: map<string, Run>, bundles: map<string, Locator>,
                              moves0: seq<Move>, removals0: seq<Path>, moves: seq<Move>, removals: seq<Path>)
  {
    StaysClean(fmt, files, bundles, moves0, removals0, moves, removals) && NewFromBundles(moves0, moves, bundles, runOf)
  }

  /** Moves and removals only grow, into the new tree and out of the old one. */
  ghost predicate StaysClean(fmt: Formats, files: Files, bundles: map<string, Locator>,
                             moves0: seq<Move>, removals0: seq<Path>, moves: seq<Move>, removals: seq<Path>)
  {
    && moves0 <= moves && removals0 <= removals
    && (BundlesOffRuns(bundles) && IntoRuns(moves0) ==> IntoRuns(moves))
    && (BundlesOffRuns(bundles) && OffRunsAll(removals0) ==> OffRunsAll(removals))
    && (RemovalsSound(fmt, files, bundles, removals0) ==> RemovalsSound(fmt, files, bundles, removals))
  }

  lemma StaysCleanLonger(fmt: Formats, files: Files, bundles: map<string, Locator>,
                         moves0: seq<Move>, removals0: seq<Path>, moves: seq<Move>, removals: seq<Path>,
                         d: string, more: seq<Move>, most: seq<Path>)
    requires StaysClean(fmt, files, bundles, moves0, removals0, moves, removals)
    requires d in bundles && moves <= more && removals <= most
    requires AddsSummary(fmt, files, bundles[d], removals, most)
    requires OffRuns(bundles[d].path) && IntoRuns(moves) ==> IntoRuns(more)
    requires OffRuns(bundles[d].path) && OffRunsAll(removals) ==> OffRunsAll(most)
    ensures StaysClean(fmt, files, bundles, moves0, removals0, more, most)
  {
    hide AddsSummary, IntoRuns, OffRunsAll, OffRuns, RemovalsSound;
    if RemovalsSound(fmt, files, bundles, removals) {
      OneMoreRemoval(fmt, files, bundles, d, removals, most);
    }
  }

  predicate BundlesOffRuns(bundles: map<string, Locator>) {
    forall d | d in bundles :: OffRuns(bundles[d].path)
  }

  lemma BundleStarts(fmt: Formats, files: Files, runOf: map<string, Run>, bundles: map<string, Locator>,
                     runs0: map<Run, RunRecord>, moves0: seq<Move>, removals0: seq<Path>)
    requires forall run | run in runs0 :: runs0[run].bundle.None?
    ensures BundleProgress(fmt, files, runOf, bundles, runs0, moves0, removals0, map[], runs0, moves0, removals0, [])
  {
    NoBundles(fmt, files, runOf, bundles, runs0, moves0, removals0);
  }

  lemma BundleMovesContinue(fmt: Formats, files: Files, runOf: map<string, Run>, bundles: map<string, Locator>,
                            moves0: seq<Move>, removals0: seq<Path>, moves: seq<Move>, removals: seq<Path>,
                            d: string, more: seq<Move>, most: seq<Path>)
    requires BundleMoves(fmt, files, runOf, bundles, moves0, removals0, moves, removals)
    requires d in bundles && bundles[d].reportSha in runOf && moves <= more && removals <= most
    requires NewFromBundle(moves, more, bundles[d], runOf[bundles[d].reportSha])
    requires AddsSummary(fmt, files, bundles[d], removals, most)
    requires OffRuns(bundles[d].path) && IntoRuns(moves) ==> IntoRuns(more)
    requires OffRuns(bundles[d].path) && OffRunsAll(removals) ==> OffRunsAll(most)
    ensures BundleMoves(fmt, files, runOf, bundles, moves0, removals0, more, most)
  {
    hide StaysClean, NewFromBundles, NewFromBundle, AddsSummary, IntoRuns, OffRunsAll, OffRuns;
    OneMoreFromBundles(moves0, moves, more, bundles, runOf, d);
    StaysCleanLonger(fmt, files, bundles, moves0, removals0, moves, removals, d, more, most);
  }

  lemma BundleContinues(fmt: Formats, files: Files, runOf: map<string, Run>, bundles: map<string, Locator>,
                        runs0: map<Run, RunRecord>, moves0: seq<Move>, removals0: seq<Path>,
                        out: map<string, NewLocator>, runs: map<Run, RunRecord>, moves: seq<Move>, removals: seq<Path>,
                        list: seq<string>, i: nat, locator: NewLocator, more: seq<Move>, most: seq<Path>)
    requires Distinct(list) && i < |list| && list[i] in bundles
    requires BundleProgress(fmt, files, runOf, bundles, runs0, moves0, removals0, out, runs, moves, removals, list[..i])
    requires forall sha | sha in runOf :: runOf[sha] in runs0
    requires BundleSound(fmt, files, runOf, list[i], bundles[list[i]])
    requires BundlePlanned(fmt, files, runOf, list[i], bundles[list[i]], locator, more, most)
    requires moves <= more && removals <= most
    requires BundleMoves(fmt, files, runOf, bundles, moves0, removals0, more, most)
    ensures locator.run in runs
    ensures BundleProgress(fmt, files, runOf, bundles, runs0, moves0, removals0, out[list[i] := locator],
              ListBundle(runs, locator), more, most, list[..i + 1])
  {
    hide BundlesSoFar, BundlesListed, BundleSound, BundlePlanned, SameButBundles, BundleMoves;
    var d := list[i];
    assert list[..i + 1] == list[..i] + [d];
    PlannedRun(fmt, files, runOf, d, bundles[d], locator, more, most);
    NextBundle(fmt, files, runOf, bundles, out, moves, removals, list, i, locator, more, most);
    SameRunNames(runs0, runs);
    OneMoreBundleListed(runs, out, d, locator);
    SameButBundlesTransitive(runs0, runs, ListBundle(runs, locator));
  }

  lemma BundleFinishes(fmt: Formats, files: Files, runOf: map<string, Run>, bundles: map<string, Locator>,
                       runs0: map<Run, RunRecord>, moves0: seq<Move>, removals0: seq<Path>,
                       out: map<string, NewLocator>, runs: map<Run, RunRecord>, moves: seq<Move>, removals: seq<Path>,
                       list: seq<string>)
    requires BundleProgress(fmt, files, runOf, bundles, runs0, moves0, removals0, out, runs, moves, removals, list)
    ensures BundlesSoFar(fmt, files, runOf, bundles, out, moves, removals, list)
    ensures BundlesListed(runs, out) && SameButBundles(runs0, runs)
    ensures forall d | d in list :: d in bundles && BundleSound(fmt, files, runOf, d, bundles[d])
    ensures BundleMoves(fmt, files, runOf, bundles, moves0, removals0, moves, removals)
  {
  }

  lemma MoveBelow(moves: seq<Move>, l: Locator, from: Path, to: Path)
    requires IntoRuns(moves) && OffRuns(l.path) && !OffRuns(to)
    requires l.path < from && from[|l.path|] != "runs"
    ensures IntoRuns(moves + [Move(from, to)])
  {
  }

  lemma PlannedRun(fmt: Formats, files: Files, runOf: map<string, Run>, digest: string, l: Locator,
                   locator: NewLocator, moves: seq<Move>, removals: seq<Path>)
    requires BundlePlanned(fmt, files, runOf, digest, l, locator, moves, removals)
    ensures l.reportSha in runOf && locator.run == runOf[l.reportSha]
  {
  }

  lemma FileExists(files: Files, p: Path)
    ensures p in files ==> Exists(files, p)
  {
  }

  lemma TreeStaysPlanned(files: Files, l: Locator, run: Run, moves: seq<Move>, more: seq<Move>)
    requires TreePlanned(files, l, run, moves) && moves <= more
    ensures TreePlanned(files, l, run, more)
  {
    assert forall m | m in moves :: m in more;
    forall p | p in files && InTree(l, p) ensures Moves(more, p, TreeTarget(l, run, p)) {
      assert Moves(moves, p, TreeTarget(l, run, p));
    }
  }

  // --- the whole plan -------------------------------------------------------

  /** The v1 bundle index; an absent one lists nothing. */
  function BundlesOf(fmt: Formats, files: Files): Option<map<string, Locator>> {
    if BUNDLE_INDEX in files then fmt.readBundles(files[BUNDLE_INDEX])
    else if Exists(files, BUNDLE_INDEX) then None
    else Some(map[])
  }

  ghost predicate Readable(fmt: Formats, files: Files) {
    && INDEX in files && fmt.readIndex(files[INDEX]).Some? && BundlesOf(fmt, files).Some?
  }

  /** Every indexed file is there under its digest, and every reference is to an archived report. */
  ghost predicate Consistent(fmt: Formats, files: Files)
    requires Readable(fmt, files)
  {
    var v1 := fmt.readIndex(files[INDEX]).value;
    && ReportsSound(fmt, files, v1.artifacts, SortedList(v1.artifacts.Keys))
    && (forall c | c in v1.comparisons :: Archived(RunNames(fmt, files, v1), c))
    && (forall sha | sha in v1.deltas :: DeltaSound(fmt, files, v1.deltas, sha))
    && var bundles := BundlesOf(fmt, files).value;
       forall d | d in bundles :: BundleSound(fmt, files, RunNames(fmt, files, v1), d, bundles[d])
  }

  ghost function RunNames(fmt: Formats, files: Files, v1: IndexV1): (runOf: map<string, Run>)
    requires ReportsSound(fmt, files, v1.artifacts, SortedList(v1.artifacts.Keys))
    ensures forall sha :: sha in runOf <==> sha in v1.artifacts
  {
    RunsFor(fmt, files, v1.artifacts, SortedList(v1.artifacts.Keys))
  }

  /** No v1 path lies in the directory the new layout uses. */
  ghost predicate Clean(v1: IndexV1, bundles: map<string, Locator>) {
    EntriesOffRuns(v1.artifacts) && EntriesOffRuns(v1.deltas) && BundlesOffRuns(bundles)
  }

  datatype Plan = Plan(
    files: Files, v1: IndexV1, bundles: map<string, Locator>,
    runOf: map<string, Run>, index: IndexV2, moves: seq<Move>, removals: seq<Path>)

  /** Every planned move is of a report, of a delta or of a bundle's file, to its own place. */
  predicate OnlyEvidenceMoves(v1: IndexV1, bundles: map<string, Locator>, runOf: map<string, Run>, index: IndexV2,
                              moves: seq<Move>)
  {
    forall m | m in moves ::
      || FromEntries(v1.artifacts, index.artifacts, m)
      || FromEntries(v1.deltas, index.deltas, m)
      || FromBundles(bundles, runOf, m)
  }

  ghost predicate Planned(fmt: Formats, plan: Plan) {
    var Plan(files, v1, bundles, runOf, index, moves, removals) := plan;
    && ReportsPlanned(fmt, files, v1.artifacts, runOf, index.artifacts, moves, SortedList(v1.artifacts.Keys))
    && (forall c | c in v1.comparisons :: Archived(runOf, c))
    && (var paths := DeltaPaths(runOf, v1.comparisons);
        && Compared(runOf, paths, v1.comparisons, index.comparisons)
        && DeltasPlanned(fmt, files, v1.deltas, paths, index.comparisons, index.deltas, moves,
                         SortedList(v1.deltas.Keys)))
    && BundlesSoFar(fmt, files, runOf, bundles, index.bundles, moves, removals, SortedList(bundles.Keys))
    && RunsRecorded(fmt, files, v1, runOf, index)
    && RemovalsSound(fmt, files, bundles, removals)
    && OnlyEvidenceMoves(v1, bundles, runOf, index, moves)
    && (Clean(v1, bundles) ==> IntoRuns(moves) && OffRunsAll(removals))
  }

  /** The runs of the new index: a report each, the deltas and the bundle that name them. */
  ghost predicate RunsRecorded(fmt: Formats, files: Files, v1: IndexV1, runOf: map<string, Run>, index: IndexV2) {
    && DeltasListed(index.runs, index.deltas) && BundlesListed(index.runs, index.bundles)
    && (forall sha | sha in runOf :: runOf[sha] in index.runs)
    && forall run | run in index.runs :: exists sha ::
         RecordFrom(fmt, files, v1.artifacts, runOf, run, index.runs[run].(deltas := [], bundle := None), sha)
  }

  lemma RecordsKept(fmt: Formats, files: Files, v1: IndexV1, runOf: map<string, Run>,
                    named: map<Run, RunRecord>, listed: map<Run, RunRecord>, index: IndexV2)
    requires RecordsFresh(fmt, files, v1.artifacts, runOf, named)
    requires SameButDeltas(named, listed) && SameButBundles(listed, index.runs)
    requires DeltasListed(listed, index.deltas) && BundlesListed(index.runs, index.bundles)
    ensures RunsRecorded(fmt, files, v1, runOf, index)
  {
    forall run | run in index.runs
      ensures exists sha ::
        RecordFrom(fmt, files, v1.artifacts, runOf, run, index.runs[run].(deltas := [], bundle := None), sha)
    {
      var sha :| RecordFrom(fmt, files, v1.artifacts, runOf, run, named[run], sha);
      assert index.runs[run].(deltas := [], bundle := None) == named[run];
    }
    forall run, p | run in index.runs
      ensures p in index.runs[run].deltas <==>
                exists sha :: sha in index.deltas && index.deltas[sha].run == run && index.deltas[sha].path == p
    {
      assert index.runs[run].deltas == listed[run].deltas;
    }
  }
}
