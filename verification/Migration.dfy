/**
  The migration itself, and what a finished or interrupted run leaves behind.
*/
module Migration {
  import opened Basics
  import opened Names
  import opened FileMoves
  import opened MigrationPlan

  // --- what a finished migration leaves -------------------------------------

  ghost predicate Injective(digest: Bytes -> string) {
    forall a, b | digest(a) == digest(b) :: a == b
  }

  /** The files once the index is replaced and the bundle index dropped. */
  function Finished(fmt: Formats, files: Files, index: IndexV2): Files {
    files[INDEX := fmt.encode(index)] - {BUNDLE_INDEX}
  }

  predicate Verified(fmt: Formats, files: Files, index: IndexV2) {
    && (forall sha | sha in index.artifacts ::
          index.artifacts[sha].path in files && fmt.digest(files[index.artifacts[sha].path]) == sha)
    && (forall sha | sha in index.deltas ::
          index.deltas[sha].path in files && fmt.digest(files[index.deltas[sha].path]) == sha)
    && (forall d | d in index.bundles ::
          var manifest := index.bundles[d].path + ["manifest.json"];
          manifest in files && fmt.digest(files[manifest]) == d)
  }

  lemma ExecutedFiles(files: Files, moves: seq<Move>, removals: seq<Path>)
    requires IntoRuns(moves) && OffRunsAll(removals) && ExecuteAll(files, moves, removals).1
    ensures OneEach(moves)
    ensures var now := ExecuteAll(files, moves, removals).0;
            && (forall m | m in moves :: m.from in files && At(now, m.to, files[m.from]))
            && (forall p | p in files :: p in Sources(moves) || p in removals || At(now, p, files[p]))
            && (forall p | p in removals :: p !in now && p !in Sources(moves))
            && (forall p | p in now :: p in Targets(moves) || At(files, p, now[p]))
  {
    MovesComplete(files, moves);
    var mid := MoveAll(files, moves).0;
    RemovalsKeepOthers(mid, removals);
    hide MoveAll, RemoveAll, OneEach;
    forall m | m in moves ensures m.from in files && At(ExecuteAll(files, moves, removals).0, m.to, files[m.from]) {
      assert Landed(files, mid, m) && !OffRuns(m.to);
    }
    assert forall m | m in moves :: Landed(files, mid, m) ==> m.from !in mid;
  }

  /** The archive after a completed migration. */
  ghost predicate Completed(fmt: Formats, plan: Plan, now: Files) {
    && Planned(fmt, plan) && Clean(plan.v1, plan.bundles)
    && ExecuteAll(plan.files, plan.moves, plan.removals).1
    && now == Finished(fmt, ExecuteAll(plan.files, plan.moves, plan.removals).0, plan.index)
  }

  lemma PlannedPaths(fmt: Formats, plan: Plan)
    requires Planned(fmt, plan)
    ensures RemovalsSound(fmt, plan.files, plan.bundles, plan.removals)
    ensures RunsRecorded(fmt, plan.files, plan.v1, plan.runOf, plan.index)
    ensures OnlyEvidenceMoves(plan.v1, plan.bundles, plan.runOf, plan.index, plan.moves)
    ensures Clean(plan.v1, plan.bundles) ==> IntoRuns(plan.moves) && OffRunsAll(plan.removals)
  {
    hide ReportsPlanned, Compared, DeltasPlanned, BundlesSoFar, RunsRecorded, RemovalsSound, Clean, DeltaPaths,
         IntoRuns, OnlyEvidenceMoves;
  }

  lemma CompletedUnfolds(fmt: Formats, plan: Plan, now: Files)
    requires Completed(fmt, plan, now)
    ensures Planned(fmt, plan) && Clean(plan.v1, plan.bundles)
    ensures ExecuteAll(plan.files, plan.moves, plan.removals).1
    ensures now == Finished(fmt, ExecuteAll(plan.files, plan.moves, plan.removals).0, plan.index)
  {
  }

  /** What the moves and removals of a completed migration did to the files. */
  lemma CompletedFiles(fmt: Formats, plan: Plan, now: Files)
    requires Completed(fmt, plan, now)
    ensures OneEach(plan.moves) && IntoRuns(plan.moves)
    ensures forall m | m in plan.moves :: m.from in plan.files && At(now, m.to, plan.files[m.from])
    ensures forall p | p in plan.files ::
              p == INDEX || p == BUNDLE_INDEX || p in Sources(plan.moves) || p in plan.removals
              || At(now, p, plan.files[p])
    ensures forall p | p in now :: p == INDEX || p in Targets(plan.moves) || At(plan.files, p, now[p])
    ensures At(now, INDEX, fmt.encode(plan.index)) && BUNDLE_INDEX !in now
  {
    hide ExecuteAll, Clean, Finished, IntoRuns, OneEach, OffRunsAll, RemovalsSound, RunsRecorded;
    CompletedUnfolds(fmt, plan, now);
    hide Completed;
    PlannedPaths(fmt, plan);
    hide Planned;
    ExecutedFiles(plan.files, plan.moves, plan.removals);
    FinishKeeps(fmt, plan.files, ExecuteAll(plan.files, plan.moves, plan.removals).0, plan.moves, plan.removals,
                plan.index);
  }

  lemma FinishKeeps(fmt: Formats, files: Files, mid: Files, moves: seq<Move>, removals: seq<Path>, index: IndexV2)
    requires IntoRuns(moves)
    requires forall m | m in moves :: m.from in files && At(mid, m.to, files[m.from])
    requires forall p | p in files :: p in Sources(moves) || p in removals || At(mid, p, files[p])
    requires forall p | p in mid :: p in Targets(moves) || At(files, p, mid[p])
    ensures var now := Finished(fmt, mid, index);
            && (forall m | m in moves :: m.from in files && At(now, m.to, files[m.from]))
            && (forall p | p in files ::
                  p == INDEX || p == BUNDLE_INDEX || p in Sources(moves) || p in removals || At(now, p, files[p]))
            && (forall p | p in now :: p == INDEX || p in Targets(moves) || At(files, p, now[p]))
            && At(now, INDEX, fmt.encode(index)) && BUNDLE_INDEX !in now
  {
    hide Sources, Targets;
    assert INDEX != BUNDLE_INDEX;
    forall m | m in moves ensures m.to != INDEX && m.to != BUNDLE_INDEX {
      assert !OffRuns(m.to);
    }
  }

  lemma PlannedReports(fmt: Formats, plan: Plan)
    requires Planned(fmt, plan)
    ensures plan.runOf.Keys == plan.index.artifacts.Keys == plan.v1.artifacts.Keys
    ensures forall sha | sha in plan.v1.artifacts ::
              && ReportSound(fmt, plan.files, plan.v1.artifacts, sha)
              && PlannedReport(plan.v1.artifacts, plan.runOf, plan.index.artifacts, plan.moves, sha)
  {
    hide Compared, DeltasPlanned, BundlesSoFar, RunsRecorded, RemovalsSound, Clean, DeltaPaths;
  }

  lemma PlannedDeltas(fmt: Formats, plan: Plan)
    requires Planned(fmt, plan)
    ensures forall c | c in plan.v1.comparisons :: Archived(plan.runOf, c)
    ensures Compared(plan.runOf, DeltaPaths(plan.runOf, plan.v1.comparisons), plan.v1.comparisons,
                     plan.index.comparisons)
    ensures plan.index.deltas.Keys == plan.v1.deltas.Keys
    ensures forall sha | sha in plan.v1.deltas ::
              && DeltaSound(fmt, plan.files, plan.v1.deltas, sha)
              && PlannedDelta(plan.v1.deltas, DeltaPaths(plan.runOf, plan.v1.comparisons), plan.index.comparisons,
                              plan.index.deltas, plan.moves, sha)
  {
    hide ReportsPlanned, Compared, BundlesSoFar, RunsRecorded, RemovalsSound, Clean, DeltaPaths;
  }

  lemma PlannedBundles(fmt: Formats, plan: Plan)
    requires Planned(fmt, plan)
    ensures plan.index.bundles.Keys == plan.bundles.Keys
    ensures forall d | d in plan.bundles ::
              BundlePlanned(fmt, plan.files, plan.runOf, d, plan.bundles[d], plan.index.bundles[d], plan.moves,
                            plan.removals)
  {
    hide ReportsPlanned, Compared, DeltasPlanned, RunsRecorded, RemovalsSound, Clean, DeltaPaths;
  }

  /** A summary that repeats its bundle's report is that report, which moves to the bundle's run. */
  lemma SummaryIsReport(fmt: Formats, plan: Plan, d: string, p: Path) returns (m: Move)
    requires Planned(fmt, plan) && Injective(fmt.digest)
    requires RepeatsReport(fmt, plan.files, plan.bundles, d, p)
    ensures d in plan.index.bundles && m in plan.moves && m.to == ReportPath(plan.index.bundles[d].run)
    ensures m.from in plan.files && plan.files[m.from] == plan.files[p]
  {
    PlannedReports(fmt, plan);
    PlannedBundles(fmt, plan);
    hide Planned, ReportPath, SummaryPlanned, TreePlanned, BundlePath, NewManifest, Exists;
    assert BundlePlanned(fmt, plan.files, plan.runOf, d, plan.bundles[d], plan.index.bundles[d], plan.moves,
                         plan.removals);
    var sha := plan.bundles[d].reportSha;
    assert ReportSound(fmt, plan.files, plan.v1.artifacts, sha);
    assert PlannedReport(plan.v1.artifacts, plan.runOf, plan.index.artifacts, plan.moves, sha);
    m := Move(plan.v1.artifacts[sha].path, ReportPath(plan.runOf[sha]));
  }

  /** The file was a bundle's summary, and its bytes are the report beside that bundle. */
  predicate DroppedSummary(plan: Plan, now: Files, d: string, p: Path)
    requires p in plan.files
  {
    && d in plan.bundles && d in plan.index.bundles && p == SummaryAt(plan.bundles[d])
    && At(now, ReportPath(plan.index.bundles[d].run), plan.files[p])
  }

  /** Every planned file has its original bytes at its new path.  Every other
      file is untouched, apart from the two indices and summaries equal to the
      report of their bundle's run, which lies beside them. */
  lemma EvidencePreserved(fmt: Formats, plan: Plan, now: Files)
    requires Completed(fmt, plan, now) && Injective(fmt.digest)
    ensures forall m | m in plan.moves :: m.from in plan.files && At(now, m.to, plan.files[m.from])
    ensures forall p | p in plan.files ::
              || p == INDEX || p == BUNDLE_INDEX || At(now, p, plan.files[p])
              || (exists m :: m in plan.moves && m.from == p && At(now, m.to, plan.files[p]))
              || (exists d :: DroppedSummary(plan, now, d, p))
  {
    CompletedUnfolds(fmt, plan, now);
    CompletedFiles(fmt, plan, now);
    PlannedPaths(fmt, plan);
    hide Completed, Planned, ReportPath, IntoRuns, OneEach, RunsRecorded, Clean, ExecuteAll;
    forall p | p in plan.files && p != INDEX && p != BUNDLE_INDEX && !At(now, p, plan.files[p])
      ensures || (exists m :: m in plan.moves && m.from == p && At(now, m.to, plan.files[p]))
              || (exists d :: DroppedSummary(plan, now, d, p))
    {
      if p in Sources(plan.moves) {
        var m :| m in plan.moves && m.from == p;
        assert At(now, m.to, plan.files[m.from]);
      } else {
        var d :| RepeatsReport(fmt, plan.files, plan.bundles, d, p);
        var m := SummaryIsReport(fmt, plan, d, p);
        assert At(now, m.to, plan.files[m.from]);
        assert DroppedSummary(plan, now, d, p);
      }
    }
  }

  /** Every digest of the new index names the bytes at its new path. */
  lemma DigestsNameTheirBytes(fmt: Formats, plan: Plan, now: Files)
    requires Completed(fmt, plan, now)
    ensures Verified(fmt, now, plan.index)
  {
    CompletedUnfolds(fmt, plan, now);
    CompletedFiles(fmt, plan, now);
    hide Completed, Planned, IntoRuns, OneEach, Clean, ExecuteAll, Finished;
    ReportDigests(fmt, plan, now);
    DeltaDigests(fmt, plan, now);
    BundleDigests(fmt, plan, now);
  }

  predicate MovesHeld(plan: Plan, now: Files) {
    forall m | m in plan.moves :: m.from in plan.files && At(now, m.to, plan.files[m.from])
  }

  lemma ReportDigests(fmt: Formats, plan: Plan, now: Files)
    requires Planned(fmt, plan) && MovesHeld(plan, now)
    ensures forall sha | sha in plan.index.artifacts ::
              var path := plan.index.artifacts[sha].path; path in now && fmt.digest(now[path]) == sha
  {
    PlannedReports(fmt, plan);
    hide Planned, ReportPath;
    forall sha | sha in plan.index.artifacts
      ensures var path := plan.index.artifacts[sha].path; path in now && fmt.digest(now[path]) == sha
    {
      assert PlannedReport(plan.v1.artifacts, plan.runOf, plan.index.artifacts, plan.moves, sha);
      assert ReportSound(fmt, plan.files, plan.v1.artifacts, sha);
    }
  }

  lemma DeltaDigests(fmt: Formats, plan: Plan, now: Files)
    requires Planned(fmt, plan) && MovesHeld(plan, now)
    ensures forall sha | sha in plan.index.deltas ::
              var path := plan.index.deltas[sha].path; path in now && fmt.digest(now[path]) == sha
  {
    PlannedDeltas(fmt, plan);
    hide Planned, DeltaPaths, Compared;
    forall sha | sha in plan.index.deltas
      ensures var path := plan.index.deltas[sha].path; path in now && fmt.digest(now[path]) == sha
    {
      assert DeltaSound(fmt, plan.files, plan.v1.deltas, sha);
    }
  }

  lemma BundleDigests(fmt: Formats, plan: Plan, now: Files)
    requires Planned(fmt, plan) && MovesHeld(plan, now)
    ensures forall d | d in plan.index.bundles ::
              var manifest := plan.index.bundles[d].path + ["manifest.json"];
              manifest in now && fmt.digest(now[manifest]) == d
  {
    PlannedBundles(fmt, plan);
    hide Planned, BundlePath, TreePlanned, SummaryPlanned, Exists;
    forall d | d in plan.index.bundles
      ensures var manifest := plan.index.bundles[d].path + ["manifest.json"];
              manifest in now && fmt.digest(now[manifest]) == d
    {
      assert BundlePlanned(fmt, plan.files, plan.runOf, d, plan.bundles[d], plan.index.bundles[d],
                           plan.moves, plan.removals);
    }
  }

  lemma OneTarget(moves: seq<Move>, a: Path, b: Path, to: Path)
    requires OneEach(moves) && Moves(moves, a, to) && Moves(moves, b, to)
    ensures a == b
  {
    var i :| 0 <= i < |moves| && moves[i] == Move(a, to);
    var j :| 0 <= j < |moves| && moves[j] == Move(b, to);
  }

  /** A completed migration gave every report and every bundle a run of its
      own, whatever names collided while planning. */
  lemma RunsAreDistinct(fmt: Formats, plan: Plan, now: Files)
    requires Completed(fmt, plan, now)
    ensures plan.runOf.Keys == plan.v1.artifacts.Keys && plan.index.bundles.Keys == plan.bundles.Keys
    ensures forall a, b | a in plan.runOf && b in plan.runOf && plan.runOf[a] == plan.runOf[b] :: a == b
    ensures forall a, b | a in plan.bundles && b in plan.bundles
              && plan.index.bundles[a].run == plan.index.bundles[b].run :: a == b
  {
    CompletedUnfolds(fmt, plan, now);
    CompletedFiles(fmt, plan, now);
    hide Completed, Planned, IntoRuns, OneEach, Clean, ExecuteAll, Finished, ReportSound, PlannedReport, BundlePlanned;
    PlannedReports(fmt, plan);
    PlannedBundles(fmt, plan);
    forall a, b | a in plan.runOf && b in plan.runOf && plan.runOf[a] == plan.runOf[b] ensures a == b {
      ReportsApart(fmt, plan, a, b);
    }
    forall a, b | a in plan.bundles && b in plan.bundles && plan.index.bundles[a].run == plan.index.bundles[b].run
      ensures a == b
    {
      BundlesApart(fmt, plan, a, b);
    }
  }

  lemma ReportsApart(fmt: Formats, plan: Plan, a: string, b: string)
    requires Planned(fmt, plan) && OneEach(plan.moves)
    requires a in plan.runOf && b in plan.runOf && plan.runOf[a] == plan.runOf[b]
    ensures a == b
  {
    PlannedReports(fmt, plan);
    hide Planned, ReportPath, OneEach;
    assert PlannedReport(plan.v1.artifacts, plan.runOf, plan.index.artifacts, plan.moves, a);
    assert PlannedReport(plan.v1.artifacts, plan.runOf, plan.index.artifacts, plan.moves, b);
    OneTarget(plan.moves, plan.v1.artifacts[a].path, plan.v1.artifacts[b].path, ReportPath(plan.runOf[a]));
    assert ReportSound(fmt, plan.files, plan.v1.artifacts, a) && ReportSound(fmt, plan.files, plan.v1.artifacts, b);
  }

  lemma BundlesApart(fmt: Formats, plan: Plan, a: string, b: string)
    requires Planned(fmt, plan) && OneEach(plan.moves)
    requires a in plan.bundles && b in plan.bundles && a in plan.index.bundles && b in plan.index.bundles
    requires plan.index.bundles[a].run == plan.index.bundles[b].run
    ensures a == b
  {
    PlannedBundles(fmt, plan);
    hide Planned, OneEach, BundlePath, TreePlanned, SummaryPlanned, NewManifest, Exists;
    assert BundlePlanned(fmt, plan.files, plan.runOf, a, plan.bundles[a], plan.index.bundles[a], plan.moves,
                         plan.removals);
    assert BundlePlanned(fmt, plan.files, plan.runOf, b, plan.bundles[b], plan.index.bundles[b], plan.moves,
                         plan.removals);
    OneTarget(plan.moves, ManifestAt(plan.bundles[a]), ManifestAt(plan.bundles[b]),
              NewManifest(plan.index.bundles[a].run));
  }

  /** The run's record holds the report's kind, path, size and digest. */
  predicate RecordIsReports(fmt: Formats, plan: Plan, sha: string)
    requires sha in plan.runOf
  {
    var run := plan.runOf[sha];
    && sha in plan.v1.artifacts && ReportSound(fmt, plan.files, plan.v1.artifacts, sha) && run in plan.index.runs
    && plan.index.runs[run].(deltas := [], bundle := None)
       == RunRecord(ReportOf(fmt, plan.files, plan.v1.artifacts, sha).kind,
                    Entry(ReportPath(run), plan.v1.artifacts[sha].bytes), sha, [], None)
  }

  /** So there is a record for each report's run and no other: the report's kind,
      path, size and digest, exactly the deltas that name the run, and its bundle. */
  lemma RecordsAgree(fmt: Formats, plan: Plan, now: Files)
    requires Completed(fmt, plan, now)
    ensures plan.index.runs.Keys == plan.runOf.Values
    ensures forall sha | sha in plan.runOf :: RecordIsReports(fmt, plan, sha)
    ensures forall run, p | run in plan.index.runs ::
              p in plan.index.runs[run].deltas <==>
                exists sha :: sha in plan.index.deltas && plan.index.deltas[sha].run == run
                              && plan.index.deltas[sha].path == p
    ensures forall run, d | run in plan.index.runs && d in plan.index.bundles ::
              plan.index.runs[run].bundle == Some(plan.index.bundles[d]) <==> plan.index.bundles[d].run == run
    ensures forall run | run in plan.index.runs && plan.index.runs[run].bundle.Some? ::
              exists d :: d in plan.index.bundles && plan.index.bundles[d].run == run
  {
    CompletedUnfolds(fmt, plan, now);
    RunsAreDistinct(fmt, plan, now);
    hide Completed, Clean, ExecuteAll, Finished, RemovalsSound, OnlyEvidenceMoves, RunsRecorded;
    PlannedReports(fmt, plan);
    PlannedPaths(fmt, plan);
    hide Planned, ReportPath, ReportSound, PlannedReport, RecordIsReports;
    RunsRecordedHere(fmt, plan);
    forall sha | sha in plan.runOf ensures RecordIsReports(fmt, plan, sha) {
      RecordOfReport(fmt, plan, sha);
    }
  }

  lemma RunsRecordedHere(fmt: Formats, plan: Plan)
    requires RunsRecorded(fmt, plan.files, plan.v1, plan.runOf, plan.index)
    requires forall a, b | a in plan.index.bundles && b in plan.index.bundles
               && plan.index.bundles[a].run == plan.index.bundles[b].run :: a == b
    ensures plan.index.runs.Keys == plan.runOf.Values
    ensures forall run, p | run in plan.index.runs ::
              p in plan.index.runs[run].deltas <==>
                exists sha :: sha in plan.index.deltas && plan.index.deltas[sha].run == run
                              && plan.index.deltas[sha].path == p
    ensures forall run, d | run in plan.index.runs && d in plan.index.bundles ::
              plan.index.runs[run].bundle == Some(plan.index.bundles[d]) <==> plan.index.bundles[d].run == run
    ensures forall run | run in plan.index.runs && plan.index.runs[run].bundle.Some? ::
              exists d :: d in plan.index.bundles && plan.index.bundles[d].run == run
  {
    hide ReportSound, ReportPath;
    forall run | run in plan.index.runs ensures run in plan.runOf.Values {
      var sha :| RecordFrom(fmt, plan.files, plan.v1.artifacts, plan.runOf, run,
                            plan.index.runs[run].(deltas := [], bundle := None), sha);
    }
  }

  lemma RecordOfReport(fmt: Formats, plan: Plan, sha: string)
    requires RunsRecorded(fmt, plan.files, plan.v1, plan.runOf, plan.index) && sha in plan.runOf
    requires sha in plan.v1.artifacts && ReportSound(fmt, plan.files, plan.v1.artifacts, sha)
    requires forall a | a in plan.runOf && plan.runOf[a] == plan.runOf[sha] :: a == sha
    ensures RecordIsReports(fmt, plan, sha)
  {
    hide DeltasListed, BundlesListed, ReportSound, ReportPath;
    var run := plan.runOf[sha];
    var other :| RecordFrom(fmt, plan.files, plan.v1.artifacts, plan.runOf, run,
                            plan.index.runs[run].(deltas := [], bundle := None), other);
    assert other == sha;
  }

  /** A comparison's delta path is where its delta went, if the delta was archived. */
  lemma ComparisonsAgree(fmt: Formats, plan: Plan, i: nat)
    requires Planned(fmt, plan) && i < |plan.v1.comparisons|
    ensures |plan.index.comparisons| == |plan.v1.comparisons| && plan.index.comparisons[i].v1 == plan.v1.comparisons[i]
    ensures var c := plan.index.comparisons[i];
            && c.v1.baselineSha in plan.runOf && c.baselineRun == plan.runOf[c.v1.baselineSha]
            && c.v1.currentSha in plan.runOf && c.currentRun == plan.runOf[c.v1.currentSha]
            && (c.v1.deltaSha in plan.v1.deltas ==>
                  c.v1.deltaSha in plan.index.deltas && plan.index.deltas[c.v1.deltaSha].path == c.deltaPath)
  {
    PlannedDeltas(fmt, plan);
    hide Planned, DeltaPaths, DeltaSound;
  }

  /** An unarchived delta whose fallback name is an archived one's: after a
      completed migration its comparison's path names the other delta's file. */
  lemma DeltaPathMisleads(fmt: Formats, plan: Plan, now: Files, b: string, c: string, x: string, y: string, z: string)
    requires Completed(fmt, plan, now) && plan.v1.comparisons == Thrice(b, c, x, y, z)
    requires x != y && y != z && x != z && Short(y, 6) == Short(z, 6)
    requires y in plan.v1.deltas && z !in plan.v1.deltas
    ensures |plan.index.comparisons| == 3
    ensures var path := plan.index.comparisons[2].deltaPath; path in now && fmt.digest(now[path]) == y
  {
    CompletedUnfolds(fmt, plan, now);
    DigestsNameTheirBytes(fmt, plan, now);
    hide Completed, Clean, ExecuteAll, Finished;
    PlannedDeltas(fmt, plan);
    hide DeltaPaths, Short, DeltaSound, PlannedDelta;
    ThriceCompared(plan.runOf, b, c, x, y, z, plan.index.comparisons);
    ComparisonsAgree(fmt, plan, 1);
  }

  lemma ThriceCompared(runOf: map<string, Run>, b: string, c: string, x: string, y: string, z: string,
                       out: seq<NewComparison>)
    requires forall k | k in Thrice(b, c, x, y, z) :: Archived(runOf, k)
    requires Compared(runOf, DeltaPaths(runOf, Thrice(b, c, x, y, z)), Thrice(b, c, x, y, z), out)
    requires x != y && y != z && x != z && Short(y, 6) == Short(z, 6)
    ensures |out| == 3 && out[1].v1.deltaSha == y && out[1].deltaPath == out[2].deltaPath
  {
    hide DeltaPaths, Short;
    assert Thrice(b, c, x, y, z)[0] in Thrice(b, c, x, y, z);
    DeltaFallbackCollides(runOf, b, c, x, y, z);
  }

  /** A file at a path shaped like a delta's is a delta's: reports and bundle
      files of one-part runs lie elsewhere. */
  lemma OnlyDeltasLookLikeDeltas(fmt: Formats, plan: Plan, m: Move)
    requires Planned(fmt, plan) && OnePartRuns(plan.runOf)
    requires m in plan.moves && LooksLikeDelta(m.to)
    ensures FromEntries(plan.v1.deltas, plan.index.deltas, m)
  {
    PlannedReports(fmt, plan);
    PlannedPaths(fmt, plan);
    hide Planned, ReportSound, RunsRecorded, RemovalsSound, Clean;
    if FromEntries(plan.v1.artifacts, plan.index.artifacts, m) {
      var sha :| sha in plan.v1.artifacts && sha in plan.index.artifacts
                 && m == Move(plan.v1.artifacts[sha].path, plan.index.artifacts[sha].path);
      assert PlannedReport(plan.v1.artifacts, plan.runOf, plan.index.artifacts, plan.moves, sha);
      ReportIsNoDelta(plan.runOf[sha]);
    } else if FromBundles(plan.bundles, plan.runOf, m) {
      var d :| d in plan.bundles && plan.bundles[d].reportSha in plan.runOf
               && FromBundle(plan.bundles[d], plan.runOf[plan.bundles[d].reportSha], m);
      BundleFilesAreDeep(plan.bundles[d], plan.runOf[plan.bundles[d].reportSha], m);
    }
  }

  lemma ReportIsNoDelta(run: Run)
    requires |run| == 1
    ensures !LooksLikeDelta(ReportPath(run))
  {
    assert ReportPath(run)[2] == "report.json";
    assert "report.json"[0] != "delta-from-"[0];
  }

  lemma BundleFilesAreDeep(l: Locator, run: Run, m: Move)
    requires |run| == 1 && FromBundle(l, run, m)
    ensures |m.to| > 3
  {
  }

  /** Into a new tree: a file at such a path has the digest of an archived delta. */
  lemma FileLikeDelta(fmt: Formats, plan: Plan, now: Files, p: Path)
    requires Completed(fmt, plan, now) && OnePartRuns(plan.runOf)
    requires p in now && LooksLikeDelta(p) && p !in plan.files
    ensures fmt.digest(now[p]) in plan.v1.deltas
  {
    CompletedUnfolds(fmt, plan, now);
    CompletedFiles(fmt, plan, now);
    hide Completed, Planned, Clean, ExecuteAll, Finished, OneEach, IntoRuns;
    assert p in Targets(plan.moves);
    var m :| m in plan.moves && m.to == p;
    OnlyDeltasLookLikeDeltas(fmt, plan, m);
    PlannedDeltas(fmt, plan);
    hide DeltaPaths, Compared;
    var sha :| sha in plan.v1.deltas && sha in plan.index.deltas
               && m == Move(plan.v1.deltas[sha].path, plan.index.deltas[sha].path);
    assert DeltaSound(fmt, plan.files, plan.v1.deltas, sha);
    assert At(now, m.to, plan.files[m.from]);
  }

  lemma ComparedShape(fmt: Formats, plan: Plan, i: nat)
    requires Planned(fmt, plan) && OnePartRuns(plan.runOf) && i < |plan.v1.comparisons|
    ensures i < |plan.index.comparisons| && LooksLikeDelta(plan.index.comparisons[i].deltaPath)
  {
    PlannedDeltas(fmt, plan);
    hide Planned, DeltaPaths, DeltaSound, PlannedDelta;
    DeltaPathShape(plan.runOf, plan.v1.comparisons, plan.v1.comparisons[i].deltaSha);
  }

  /** After a completed migration into a new tree, with one-part run names, the
      file at a comparison's delta path is that delta if and only if the delta
      was archived: otherwise there is none, or it is another delta. */
  lemma DeltaPathHonestExactly(fmt: Formats, plan: Plan, now: Files, i: nat)
    requires Completed(fmt, plan, now) && i < |plan.v1.comparisons|
    requires (forall p | p in plan.files :: OffRuns(p)) && OnePartRuns(plan.runOf)
    ensures i < |plan.index.comparisons|
    ensures var c := plan.index.comparisons[i];
            c.deltaPath in now && fmt.digest(now[c.deltaPath]) == c.v1.deltaSha <==> c.v1.deltaSha in plan.v1.deltas
  {
    CompletedUnfolds(fmt, plan, now);
    ComparisonsAgree(fmt, plan, i);
    ComparedShape(fmt, plan, i);
    DigestsNameTheirBytes(fmt, plan, now);
    hide Completed, Planned, Clean, ExecuteAll, Finished;
    var c := plan.index.comparisons[i];
    if c.deltaPath in now {
      FileLikeDelta(fmt, plan, now, c.deltaPath);
    }
  }

  /** Interrupted anywhere among the moves and removals, no file's bytes are lost. */
  lemma InterruptionKeepsEvidence(fmt: Formats, plan: Plan, k: nat, j: nat, p: Path)
    requires Planned(fmt, plan) && Clean(plan.v1, plan.bundles)
    requires Injective(fmt.digest) && p in plan.files
    requires k <= |plan.moves| && j <= |plan.removals| && (j > 0 ==> k == |plan.moves|)
    ensures exists q :: At(ExecuteAll(plan.files, plan.moves[..k], plan.removals[..j]).0, q, plan.files[p])
  {
    hide Planned, Clean, MoveAll, ExecuteAll, IntoRuns, OffRunsAll, RunsRecorded, RemovalsSound;
    PlannedPaths(fmt, plan);
    if p in plan.removals[..j] && MoveAll(plan.files, plan.moves[..k]).1 {
      assert plan.moves[..k] == plan.moves;
      RemovedStaysAsReport(fmt, plan, j, p);
    } else {
      PrefixesInto(plan.moves, plan.removals, k, j);
      UnremovedStays(plan.files, plan.moves[..k], plan.removals[..j], p);
    }
  }

  lemma PrefixesInto(moves: seq<Move>, removals: seq<Path>, k: nat, j: nat)
    requires IntoRuns(moves) && OffRunsAll(removals) && k <= |moves| && j <= |removals|
    ensures IntoRuns(moves[..k]) && OffRunsAll(removals[..j])
  {
  }

  lemma UnremovedStays(files: Files, moves: seq<Move>, removals: seq<Path>, p: Path)
    requires IntoRuns(moves) && OffRunsAll(removals) && p in files
    requires p !in removals || !MoveAll(files, moves).1
    ensures exists q :: At(ExecuteAll(files, moves, removals).0, q, files[p])
  {
    var mid := MoveAll(files, moves).0;
    MovesKeepFiles(files, moves);
    assert Somewhere(files, mid, moves, p);
    if !At(mid, p, files[p]) {
      MovedStays(files, moves, removals, p);
    } else {
      RemovalsKeepOthers(mid, removals);
      hide MoveAll, RemoveAll;
      assert At(ExecuteAll(files, moves, removals).0, p, files[p]);
    }
  }

  lemma MovedStays(files: Files, moves: seq<Move>, removals: seq<Path>, p: Path)
    requires IntoRuns(moves) && OffRunsAll(removals) && p in files
    requires Somewhere(files, MoveAll(files, moves).0, moves, p) && !At(MoveAll(files, moves).0, p, files[p])
    ensures exists q :: At(ExecuteAll(files, moves, removals).0, q, files[p])
  {
    var mid := MoveAll(files, moves).0;
    var to :| Moves(moves, p, to) && At(mid, to, files[p]);
    TargetOffRuns(moves, Move(p, to));
    RemovalsKeepOthers(mid, removals);
    hide MoveAll, RemoveAll, IntoRuns;
    assert to !in removals;
    assert At(ExecuteAll(files, moves, removals).0, to, files[p]);
  }

  lemma TargetOffRuns(moves: seq<Move>, m: Move)
    requires IntoRuns(moves) && m in moves
    ensures !OffRuns(m.to)
  {
  }

  lemma RemovedStaysAsReport(fmt: Formats, plan: Plan, j: nat, p: Path)
    requires Planned(fmt, plan) && Clean(plan.v1, plan.bundles) && Injective(fmt.digest)
    requires MoveAll(plan.files, plan.moves).1 && j <= |plan.removals| && p in plan.files && p in plan.removals
    ensures exists q :: At(ExecuteAll(plan.files, plan.moves, plan.removals[..j]).0, q, plan.files[p])
  {
    PlannedPaths(fmt, plan);
    MovesComplete(plan.files, plan.moves);
    var mid := MoveAll(plan.files, plan.moves).0;
    var d :| RepeatsReport(fmt, plan.files, plan.bundles, d, p);
    var m := SummaryIsReport(fmt, plan, d, p);
    RemovalsKeepOthers(mid, plan.removals[..j]);
    TargetOffRuns(plan.moves, m);
    hide Planned, Clean, MoveAll, RemoveAll, IntoRuns, RunsRecorded, OneEach, OthersKept, ReportPath;
    assert Landed(plan.files, mid, m);
    assert m.to !in plan.removals[..j];
    assert At(ExecuteAll(plan.files, plan.moves, plan.removals[..j]).0, m.to, plan.files[p]);
  }

  /** The plan is made exactly for an archive in the first layout that is consistent. */
  ghost predicate Ready(fmt: Formats, files: Files) {
    && Readable(fmt, files) && fmt.readIndex(files[INDEX]).value.schemaVersion == 1 && Consistent(fmt, files)
  }

  /** The plan a migration of a ready archive has made. */
  ghost function PlanFor(fmt: Formats, files: Files, index: IndexV2, moves: seq<Move>, removals: seq<Path>): Plan
    requires Ready(fmt, files)
  {
    var v1 := fmt.readIndex(files[INDEX]).value;
    Plan(files, v1, BundlesOf(fmt, files).value, RunNames(fmt, files, v1), index, moves, removals)
  }

  lemma {:induction false} MovesStop(files: Files, moves: seq<Move>, i: nat)
    requires i <= |moves| && !MoveAll(files, moves[..i]).1
    ensures MoveAll(files, moves) == MoveAll(files, moves[..i])
  {
    if i == |moves| {
      assert moves[..i] == moves;
    } else {
      assert moves[..|moves| - 1][..i] == moves[..i];
      MovesStop(files, moves[..|moves| - 1], i);
    }
  }

  lemma {:induction false} RemovalsStop(files: Files, removals: seq<Path>, i: nat)
    requires i <= |removals| && !RemoveAll(files, removals[..i]).1
    ensures RemoveAll(files, removals) == RemoveAll(files, removals[..i])
  {
    if i == |removals| {
      assert removals[..i] == removals;
    } else {
      assert removals[..|removals| - 1][..i] == removals[..i];
      RemovalsStop(files, removals[..|removals| - 1], i);
    }
  }

  /** Nothing of the first layout is left. */
  predicate NoneStale(files: Files) {
    forall p | p in files :: p == [] || p[0] !in STALE
  }

  lemma CanMoveFrom(files: Files, m: Move)
    requires CanMove(files, m)
    ensures m.from in files
  {
  }

  lemma NamesAre(fmt: Formats, files: Files, v1: IndexV1, runOf: map<string, Run>, out: map<string, NewEntry>,
                 runs: map<Run, RunRecord>, moves: seq<Move>)
    requires ReportsPlanned(fmt, files, v1.artifacts, runOf, out, moves, SortedList(v1.artifacts.Keys))
    requires RecordsFresh(fmt, files, v1.artifacts, runOf, runs)
    ensures ReportsSound(fmt, files, v1.artifacts, SortedList(v1.artifacts.Keys)) && runOf == RunNames(fmt, files, v1)
    ensures forall run | run in runs :: runs[run].deltas == [] && runs[run].bundle.None?
    ensures forall sha | sha in runOf :: runOf[sha] in runs
  {
  }

  lemma StillNoBundles(runOf: map<string, Run>, named: map<Run, RunRecord>, listed: map<Run, RunRecord>)
    requires SameButDeltas(named, listed)
    requires forall run | run in named :: named[run].bundle.None?
    requires forall sha | sha in runOf :: runOf[sha] in named
    ensures forall run | run in listed :: listed[run].bundle.None?
    ensures forall sha | sha in runOf :: runOf[sha] in listed
  {
  }

  lemma DeltaPathsInRuns(runOf: map<string, Run>, comparisons: seq<Comparison>)
    requires forall c | c in comparisons :: Archived(runOf, c)
    ensures PathsInRuns(DeltaPaths(runOf, comparisons))
  {
  }

  lemma ReportsStayPlanned(fmt: Formats, files: Files, artifacts: map<string, Entry>, runOf: map<string, Run>,
                           out: map<string, NewEntry>, moves: seq<Move>, more: seq<Move>, list: seq<string>)
    requires ReportsPlanned(fmt, files, artifacts, runOf, out, moves, list) && moves <= more
    ensures ReportsPlanned(fmt, files, artifacts, runOf, out, more, list)
  {
    hide RunsFor, ReportSound, ReportPath;
    assert forall m | m in moves :: m in more;
    forall sha | sha in list ensures PlannedReport(artifacts, runOf, out, more, sha) {
      assert PlannedReport(artifacts, runOf, out, moves, sha);
    }
  }

  lemma DeltasStayPlanned(fmt: Formats, files: Files, deltas: map<string, Entry>, paths: map<string, Path>,
                          comparisons: seq<NewComparison>, out: map<string, NewEntry>,
                          moves: seq<Move>, more: seq<Move>, list: seq<string>)
    requires DeltasPlanned(fmt, files, deltas, paths, comparisons, out, moves, list) && moves <= more
    ensures DeltasPlanned(fmt, files, deltas, paths, comparisons, out, more, list)
  {
    hide DeltaSound, DeltaTarget, FirstOf;
    assert forall m | m in moves :: m in more;
    forall sha | sha in list
      ensures sha in deltas && DeltaSound(fmt, files, deltas, sha)
      ensures PlannedDelta(deltas, paths, comparisons, out, more, sha)
    {
      assert PlannedDelta(deltas, paths, comparisons, out, moves, sha);
    }
  }

  lemma AllMovesExplained(plan: Plan, moves1: seq<Move>, moves2: seq<Move>)
    requires NewFromEntries([], moves1, plan.v1.artifacts, plan.index.artifacts)
    requires NewFromEntries(moves1, moves2, plan.v1.deltas, plan.index.deltas)
    requires NewFromBundles(moves2, plan.moves, plan.bundles, plan.runOf)
    ensures OnlyEvidenceMoves(plan.v1, plan.bundles, plan.runOf, plan.index, plan.moves)
  {
    hide FromEntries, FromBundles;
  }

  lemma WholeFromBundle(moves0: seq<Move>, moves1: seq<Move>, moves2: seq<Move>, moves3: seq<Move>, l: Locator,
                        run: Run)
    requires moves1 == moves0 + [Move(ManifestAt(l), NewManifest(run))] && NewFromBundle(moves1, moves2, l, run)
    requires moves3 == moves2 || moves3 == moves2 + [Move(SummaryAt(l), DivergentSummary(run))]
    ensures NewFromBundle(moves0, moves3, l, run)
  {
    hide NewManifest, DivergentSummary, TreeTarget;
  }

  /** The parts a planning run has made fit together. */
  lemma Assembled(fmt: Formats, plan: Plan, named: map<Run, RunRecord>, listed: map<Run, RunRecord>,
                  moves1: seq<Move>, moves2: seq<Move>)
    requires ReportsPlanned(fmt, plan.files, plan.v1.artifacts, plan.runOf, plan.index.artifacts, moves1,
                            SortedList(plan.v1.artifacts.Keys))
    requires RecordsFresh(fmt, plan.files, plan.v1.artifacts, plan.runOf, named)
    requires forall c | c in plan.v1.comparisons :: Archived(plan.runOf, c)
    requires Compared(plan.runOf, DeltaPaths(plan.runOf, plan.v1.comparisons), plan.v1.comparisons,
                      plan.index.comparisons)
    requires DeltasSoFar(fmt, plan.files, plan.v1.deltas, DeltaPaths(plan.runOf, plan.v1.comparisons),
                         plan.index.comparisons, plan.index.deltas, listed, moves2, SortedList(plan.v1.deltas.Keys))
    requires BundlesSoFar(fmt, plan.files, plan.runOf, plan.bundles, plan.index.bundles, plan.moves, plan.removals,
                          SortedList(plan.bundles.Keys))
    requires BundlesListed(plan.index.runs, plan.index.bundles)
    requires SameButDeltas(named, listed) && SameButBundles(listed, plan.index.runs)
    requires RemovalsSound(fmt, plan.files, plan.bundles, plan.removals)
    requires Clean(plan.v1, plan.bundles) ==> IntoRuns(plan.moves) && OffRunsAll(plan.removals)
    requires moves1 <= moves2 <= plan.moves
    requires NewFromEntries([], moves1, plan.v1.artifacts, plan.index.artifacts)
    requires NewFromEntries(moves1, moves2, plan.v1.deltas, plan.index.deltas)
    requires NewFromBundles(moves2, plan.moves, plan.bundles, plan.runOf)
    ensures Planned(fmt, plan)
  {
    AllMovesExplained(plan, moves1, moves2);
    hide NewFromEntries, NewFromBundles, OnlyEvidenceMoves;
    hide ReportsPlanned, DeltasPlanned, BundlesSoFar, BundlesListed, DeltasListed, RecordsFresh, RunsRecorded, Compared,
         DeltaPaths, SameButDeltas, SameButBundles, Clean, RemovalsSound, IntoRuns, OffRunsAll, SortedList;
    ReportsStayPlanned(fmt, plan.files, plan.v1.artifacts, plan.runOf, plan.index.artifacts, moves1, plan.moves,
                       SortedList(plan.v1.artifacts.Keys));
    DeltasStayPlanned(fmt, plan.files, plan.v1.deltas, DeltaPaths(plan.runOf, plan.v1.comparisons),
                      plan.index.comparisons, plan.index.deltas, moves2, plan.moves, SortedList(plan.v1.deltas.Keys));
    RecordsKept(fmt, plan.files, plan.v1, plan.runOf, named, listed, plan.index);
  }

  lemma NoRemovals(fmt: Formats, files: Files, bundles: map<string, Locator>)
    ensures RemovalsSound(fmt, files, bundles, []) && OffRunsAll([])
  {
  }

  function EntryPaths(entries: map<string, NewEntry>): map<string, Path> {
    map sha | sha in entries :: entries[sha].path
  }

  function ManifestPaths(bundles: map<string, NewLocator>): map<string, Path> {
    map d | d in bundles :: bundles[d].path + ["manifest.json"]
  }

  predicate Digested(fmt: Formats, files: Files, paths: map<string, Path>) {
    forall sha | sha in paths :: paths[sha] in files && fmt.digest(files[paths[sha]]) == sha
  }

  lemma VerifiedParts(fmt: Formats, files: Files, index: IndexV2)
    ensures Verified(fmt, files, index) <==>
              && Digested(fmt, files, EntryPaths(index.artifacts)) && Digested(fmt, files, EntryPaths(index.deltas))
              && Digested(fmt, files, ManifestPaths(index.bundles))
  {
    DigestedEntries(fmt, files, index.artifacts);
    DigestedEntries(fmt, files, index.deltas);
    hide EntryPaths;
    var paths := ManifestPaths(index.bundles);
    assert forall d | d in index.bundles :: d in paths && paths[d] == index.bundles[d].path + ["manifest.json"];
    assert Digested(fmt, files, paths) <==> forall d | d in index.bundles ::
        paths[d] in files && fmt.digest(files[paths[d]]) == d;
  }

  lemma DigestedEntries(fmt: Formats, files: Files, entries: map<string, NewEntry>)
    ensures Digested(fmt, files, EntryPaths(entries)) <==> forall sha | sha in entries ::
              entries[sha].path in files && fmt.digest(files[entries[sha].path]) == sha
  {
    var paths := EntryPaths(entries);
    assert forall sha | sha in entries :: sha in paths && paths[sha] == entries[sha].path;
  }

  /** Whatever a migration's outcome, each v1 file's bytes are still in the archive. */
  ghost predicate NothingLost(before: Files, after: Files) {
    forall p | p in before && p != INDEX && p != BUNDLE_INDEX :: exists q :: At(after, q, before[p])
  }

  lemma StoppedLosesNothing(fmt: Formats, plan: Plan)
    requires Planned(fmt, plan) && Clean(plan.v1, plan.bundles) && Injective(fmt.digest)
    ensures NothingLost(plan.files, ExecuteAll(plan.files, plan.moves, plan.removals).0)
  {
    hide Planned, Clean, Injective, ExecuteAll;
    assert plan.moves[..|plan.moves|] == plan.moves && plan.removals[..|plan.removals|] == plan.removals;
    forall p | p in plan.files
      ensures exists q :: At(ExecuteAll(plan.files, plan.moves, plan.removals).0, q, plan.files[p])
    {
      InterruptionKeepsEvidence(fmt, plan, |plan.moves|, |plan.removals|, p);
    }
  }

  lemma CompletedLosesNothing(fmt: Formats, plan: Plan, now: Files)
    requires Completed(fmt, plan, now) && Injective(fmt.digest)
    ensures NothingLost(plan.files, now)
  {
    EvidencePreserved(fmt, plan, now);
    hide Completed, Injective, ReportPath;
  }

  ghost predicate PlanClean(fmt: Formats, files: Files)
    requires Ready(fmt, files)
  {
    Clean(fmt.readIndex(files[INDEX]).value, BundlesOf(fmt, files).value)
  }

  lemma UntouchedLosesNothing(files: Files)
    ensures NothingLost(files, files)
  {
    forall p | p in files ensures exists q :: At(files, q, files[p]) {
      assert At(files, p, files[p]);
    }
  }

  datatype Failure =
    | Unreadable(path: Path)
    | BadSchema
    | DigestMismatch(sha: string)
    | UnarchivedReport(id: string)
    | MoveFailed
    | Leftover(path: Path)
    | VerificationFailed

  datatype Outcome =
    | AlreadyMigrated
    | Previewed(index: IndexV2)
    | Migrated(index: IndexV2)
    | Failed(failure: Failure)

  /** No file is left below the three directories of the first layout. */
  predicate NothingLeft(files: Files) {
    forall p | p in files && |p| > 0 :: p[0] != "reports" && p[0] != "deltas" && p[0] != "matrix_bundles"
  }

  lemma NothingLeftExactly(files: Files)
    ensures NothingLeft(files) <==> NoneStale(files)
  {
  }

  /**
    What a real run of a plan leaves and returns.  If a move or a removal fails,
    the files stay as it left them.  Otherwise the index is replaced and the
    bundle index dropped, and the run completes exactly if nothing of the first
    layout is left and every digest holds.
  */
  ghost predicate RanPlan(fmt: Formats, plan: Plan, after: Files, r: Outcome) {
    && Planned(fmt, plan)
    && var (mid, ok) := ExecuteAll(plan.files, plan.moves, plan.removals);
       if !ok then after == mid && r == Failed(MoveFailed)
       else
         && after == mid[["index.json"] := fmt.encode(plan.index)] - {["matrix_bundles", "index.json"]}
         && (r == Migrated(plan.index) <==> NothingLeft(after) && Verified(fmt, after, plan.index))
         && (r.Migrated? ==> r.index == plan.index) && (r.Migrated? || r.Failed?)
  }

  lemma StoppedPlan(fmt: Formats, plan: Plan, after: Files)
    requires Planned(fmt, plan) && !ExecuteAll(plan.files, plan.moves, plan.removals).1
    requires after == ExecuteAll(plan.files, plan.moves, plan.removals).0
    ensures RanPlan(fmt, plan, after, Failed(MoveFailed))
  {
    hide Planned, ExecuteAll;
  }

  lemma FinishedPlan(fmt: Formats, plan: Plan, after: Files, r: Outcome)
    requires Planned(fmt, plan) && ExecuteAll(plan.files, plan.moves, plan.removals).1
    requires after == Finished(fmt, ExecuteAll(plan.files, plan.moves, plan.removals).0, plan.index)
    requires r == Migrated(plan.index) <==> NothingLeft(after) && Verified(fmt, after, plan.index)
    requires r.Failed? || r == Migrated(plan.index)
    ensures RanPlan(fmt, plan, after, r)
  {
    hide Planned, ExecuteAll, Verified, NothingLeft;
  }

  /** However the moves of a clean plan end, and the finish after them. */
  lemma Conclude(fmt: Formats, plan: Plan)
    requires Planned(fmt, plan) && Clean(plan.v1, plan.bundles)
    ensures var (mid, ok) := ExecuteAll(plan.files, plan.moves, plan.removals);
            && (ok ==> Completed(fmt, plan, Finished(fmt, mid, plan.index))
                       && Verified(fmt, Finished(fmt, mid, plan.index), plan.index))
            && (Injective(fmt.digest) ==>
                  NothingLost(plan.files, if ok then Finished(fmt, mid, plan.index) else mid))
  {
    hide Planned, Clean, Injective, NothingLost, Finished, Verified, ExecuteAll;
    var (mid, ok) := ExecuteAll(plan.files, plan.moves, plan.removals);
    if ok {
      DigestsNameTheirBytes(fmt, plan, Finished(fmt, mid, plan.index));
    }
    if Injective(fmt.digest) {
      StoppedLosesNothing(fmt, plan);
      if ok { CompletedLosesNothing(fmt, plan, Finished(fmt, mid, plan.index)); }
    }
  }

  // --- the migration --------------------------------------------------------

  class Migrator {
    const formats: Formats
    const dryRun: bool
    var files: Files
    var moves: seq<Move>
    var dedupRemovals: seq<Path>

    constructor (formats: Formats, files: Files, dryRun: bool)
      ensures this.formats == formats && this.files == files && this.dryRun == dryRun
      ensures moves == [] && dedupRemovals == []
    {
      this.formats, this.files, this.dryRun := formats, files, dryRun;
      moves, dedupRemovals := [], [];
    }

    method PlanMove(source: Path, destination: Path) returns (ok: bool)
      modifies this`moves
      ensures ok <==> source in files
      ensures moves == if ok then old(moves) + [Move(source, destination)] else old(moves)
    {
      ok := source in files;
      if ok { moves := moves + [Move(source, destination)]; }
    }

    /** A report whose digest is the one it is indexed under. */
    method ReadReport(artifacts: map<string, Entry>, sha: string) returns (failure: Option<Failure>, report: Report)
      requires sha in artifacts
      ensures failure.None? <==> ReportSound(formats, files, artifacts, sha)
      ensures failure.None? ==> report == ReportOf(formats, files, artifacts, sha) && artifacts[sha].path in files
    {
      var source := artifacts[sha].path;
      report := Report([], "");
      if source !in files {
        return Some(Unreadable(source)), report;
      }
      if formats.digest(files[source]) != sha {
        return Some(DigestMismatch(sha)), report;
      }
      var read := formats.readReport(files[source]);
      if read.None? {
        return Some(Unreadable(source)), report;
      }
      return None, read.value;
    }

    /** Reports go to runs/<run>/report.json, in digest order. */
    method PlanReports(artifacts: map<string, Entry>)
      returns (failure: Option<Failure>, runOf: map<string, Run>, out: map<string, NewEntry>, runs: map<Run, RunRecord>)
      requires moves == []
      modifies this`moves
      ensures failure.None? <==> ReportsSound(formats, files, artifacts, SortedList(artifacts.Keys))
      ensures failure.None? ==>
                && ReportsPlanned(formats, files, artifacts, runOf, out, moves, SortedList(artifacts.Keys))
                && RecordsFresh(formats, files, artifacts, runOf, runs)
                && NewFromEntries([], moves, artifacts, out)
      ensures EntriesOffRuns(artifacts) ==> IntoRuns(moves)
    {
      hide NewFromEntries, ReportsSoFar, ReportSound, ReportOf, ReportPath, ReportsPlanned, RecordsFresh, SortedList,
           Disambiguated, IntoRuns, EntriesOffRuns;
      var list := Sorted(artifacts.Keys);
      failure, runOf, out, runs := None, map[], map[], map[];
      NothingPlanned(formats, files, artifacts);
      for i := 0 to |list|
        invariant failure.None?
        invariant ReportsSoFar(formats, files, artifacts, runOf, out, runs, moves, list[..i])
      {
        var sha := list[i];
        assert sha in list;
        var report;
        failure, report := ReadReport(artifacts, sha);
        if failure.Some? {
          SoFarMoves(formats, files, artifacts, runOf, out, runs, moves, list[..i]);
          return;
        }
        var rid := report.run;
        if rid in runs {
          rid := Disambiguated(rid, sha);
        }
        NextReport(formats, files, artifacts, runOf, out, runs, moves, list, i, rid);
        var _ := PlanMove(artifacts[sha].path, ReportPath(rid));
        runs := runs[rid := RunRecord(report.kind, Entry(ReportPath(rid), artifacts[sha].bytes), sha, [], None)];
        runOf := runOf[sha := rid];
        out := out[sha := NewEntry(ReportPath(rid), artifacts[sha].bytes, rid, None)];
      }
      assert list[..|list|] == list;
      SoFarMoves(formats, files, artifacts, runOf, out, runs, moves, list);
    }

    /** Each comparison names its runs and the place of its delta. */
    method PlaceDeltas(comparisons: seq<Comparison>, runOf: map<string, Run>)
      returns (failure: Option<Failure>, out: seq<NewComparison>, paths: map<string, Path>)
      ensures failure.None? <==> forall c | c in comparisons :: Archived(runOf, c)
      ensures failure.None? ==>
                paths == DeltaPaths(runOf, comparisons) && Compared(runOf, paths, comparisons, out)
    {
      hide DeltaPaths, Compared;
      failure, out, paths := None, [], map[];
      NoComparisons(runOf);
      for i := 0 to |comparisons|
        invariant forall c | c in comparisons[..i] :: Archived(runOf, c)
        invariant paths == DeltaPaths(runOf, comparisons[..i])
        invariant Compared(runOf, paths, comparisons[..i], out)
      {
        var c := comparisons[i];
        assert c in comparisons;
        if c.baselineSha !in runOf || c.currentSha !in runOf {
          return Some(UnarchivedReport(c.id)), out, paths;
        }
        NextComparison(runOf, comparisons, out, i);
        var baseline, current := runOf[c.baselineSha], runOf[c.currentSha];
        if c.deltaSha !in paths {
          paths := paths[c.deltaSha := DeltaPath(paths.Values, current, baseline, c.deltaSha)];
        }
        out := out + [NewComparison(c, baseline, current, paths[c.deltaSha])];
      }
      assert comparisons[..|comparisons|] == comparisons;
    }

    method PlanDeltas(deltas: map<string, Entry>, paths: map<string, Path>, comparisons: seq<NewComparison>,
                      runs0: map<Run, RunRecord>)
      returns (failure: Option<Failure>, out: map<string, NewEntry>, runs: map<Run, RunRecord>)
      requires PathsInRuns(paths) && forall run | run in runs0 :: runs0[run].deltas == []
      modifies this`moves
      ensures failure.None? <==> forall sha | sha in deltas :: DeltaSound(formats, files, deltas, sha)
      ensures failure.None? ==>
                && DeltasSoFar(formats, files, deltas, paths, comparisons, out, runs, moves, SortedList(deltas.Keys))
                && SameButDeltas(runs0, runs)
      ensures old(moves) <= moves && NewFromEntries(old(moves), moves, deltas, out)
      ensures EntriesOffRuns(deltas) && IntoRuns(old(moves)) ==> IntoRuns(moves)
    {
      hide DeltaProgress, DeltasSoFar, NewFromEntries, SortedList, IntoRuns, EntriesOffRuns, SameButDeltas, FirstOf,
           PathsInRuns, DeltaTarget, OffRuns;
      var list := Sorted(deltas.Keys);
      failure, out, runs := None, map[], runs0;
      DeltaStarts(formats, files, deltas, paths, comparisons, runs0, moves);
      for i := 0 to |list|
        invariant failure.None?
        invariant DeltaProgress(formats, files, deltas, paths, comparisons, runs0, old(moves), out, runs, moves,
                                list[..i])
      {
        DeltaFinishes(formats, files, deltas, paths, comparisons, runs0, old(moves), out, runs, moves, list[..i]);
        var sha := list[i];
        assert sha in list;
        var source := deltas[sha].path;
        if source !in files {
          return Some(Unreadable(source)), out, runs;
        }
        if formats.digest(files[source]) != sha {
          return Some(DigestMismatch(sha)), out, runs;
        }
        var path := DeltaTarget(paths, sha);
        TargetInRuns(paths, sha);
        var baseline := FirstOf(comparisons, sha);
        var entry := NewEntry(path, deltas[sha].bytes, [path[1]], baseline);
        DeltaContinues(formats, files, deltas, paths, comparisons, runs0, old(moves), out, runs, moves, list, i, entry);
        var _ := PlanMove(source, path);
        out := out[sha := entry];
        if entry.run in runs && path !in runs[entry.run].deltas {
          runs := runs[entry.run := runs[entry.run].(deltas := runs[entry.run].deltas + [path])];
        }
      }
      assert list[..|list|] == list;
      DeltaFinishes(formats, files, deltas, paths, comparisons, runs0, old(moves), out, runs, moves, list);
    }

    /** Every file below the bundle's tree, in any order. */
    method PlanTree(l: Locator, run: Run)
      modifies this`moves
      ensures old(moves) <= moves && TreePlanned(files, l, run, moves)
      ensures NewFromBundle(old(moves), moves, l, run)
      ensures OffRuns(l.path) && IntoRuns(old(moves)) ==> IntoRuns(moves)
    {
      assert NewFromBundle(moves, moves, l, run);
      hide IntoRuns, OffRuns, TreeTarget, NewFromBundle, DivergentSummary, NewManifest;
      var rest := set p | p in files && InTree(l, p);
      while rest != {}
        invariant forall p | p in rest :: p in files && InTree(l, p)
        invariant forall p | p in files && InTree(l, p) && p !in rest :: Moves(moves, p, TreeTarget(l, run, p))
        invariant old(moves) <= moves && NewFromBundle(old(moves), moves, l, run)
        invariant OffRuns(l.path) && IntoRuns(old(moves)) ==> IntoRuns(moves)
        decreases rest
      {
        var source :| source in rest;
        var destination := TreeTarget(l, run, source);
        if OffRuns(l.path) && IntoRuns(moves) { MoveBelow(moves, l, source, destination); }
        assert forall p | p in files && InTree(l, p) && p !in rest :: Move(p, TreeTarget(l, run, p)) in moves;
        OneMoreFromBundle(old(moves), moves, l, run, Move(source, destination));
        var _ := PlanMove(source, destination);
        rest := rest - {source};
      }
    }

    /** A summary equal to the report is dropped; any other moves with the bundle. */
    method PlanSummary(l: Locator, run: Run) returns (ok: bool)
      modifies this`moves, this`dedupRemovals
      ensures ok <==> (Exists(files, SummaryAt(l)) ==> SummaryAt(l) in files)
      ensures ok ==> SummaryPlanned(formats, files, l, run, moves, dedupRemovals)
      ensures old(moves) <= moves && old(dedupRemovals) <= dedupRemovals
      ensures AddsSummary(formats, files, l, old(dedupRemovals), dedupRemovals)
      ensures moves == old(moves) || moves == old(moves) + [Move(SummaryAt(l), DivergentSummary(run))]
      ensures OffRuns(l.path) && IntoRuns(old(moves)) ==> IntoRuns(moves)
    {
      hide IntoRuns, OffRuns, DivergentSummary, Exists;
      var summary := SummaryAt(l);
      ok := true;
      FileExists(files, summary);
      if Exists(files, summary) {
        if summary !in files {
          return false;
        }
        if formats.digest(files[summary]) == l.reportSha {
          dedupRemovals := dedupRemovals + [summary];
        } else {
          if OffRuns(l.path) && IntoRuns(moves) { MoveBelow(moves, l, summary, DivergentSummary(run)); }
          var _ := PlanMove(summary, DivergentSummary(run));
        }
      }
    }

    method PlanBundle(digest: string, l: Locator, runOf: map<string, Run>)
      returns (failure: Option<Failure>, locator: NewLocator)
      modifies this`moves, this`dedupRemovals
      ensures failure.None? <==> BundleSound(formats, files, runOf, digest, l)
      ensures failure.None? ==>
                BundlePlanned(formats, files, runOf, digest, l, locator, moves, dedupRemovals)
      ensures old(moves) <= moves && old(dedupRemovals) <= dedupRemovals
      ensures OffRuns(l.path) && IntoRuns(old(moves)) ==> IntoRuns(moves)
      ensures OffRuns(l.path) && OffRunsAll(old(dedupRemovals)) ==> OffRunsAll(dedupRemovals)
      ensures AddsSummary(formats, files, l, old(dedupRemovals), dedupRemovals)
      ensures failure.None? ==> NewFromBundle(old(moves), moves, l, runOf[l.reportSha])
    {
      hide IntoRuns, NewManifest, DivergentSummary, TreePlanned, BundlePath, Exists, TreeTarget;
      locator := NewLocator(l, BundlePath([]), []);
      var manifest := ManifestAt(l);
      if manifest !in files {
        return Some(Unreadable(manifest)), locator;
      }
      if formats.digest(files[manifest]) != digest {
        return Some(DigestMismatch(digest)), locator;
      }
      if l.reportSha !in runOf {
        return Some(UnarchivedReport(digest)), locator;
      }
      var run := runOf[l.reportSha];
      locator := NewLocator(l, BundlePath(run), run);
      if OffRuns(l.path) && IntoRuns(moves) { MoveBelow(moves, l, manifest, NewManifest(run)); }
      var _ := PlanMove(manifest, NewManifest(run));
      ghost var moves1 := moves;
      assert Move(manifest, NewManifest(run)) in moves1;
      PlanTree(l, run);
      ghost var moves2 := moves;
      var ok := PlanSummary(l, run);
      if !ok {
        return Some(Unreadable(SummaryAt(l))), locator;
      }
      TreeStaysPlanned(files, l, run, moves2, moves);
      WholeFromBundle(old(moves), moves1, moves2, moves, l, run);
      failure := None;
    }

    method PlanBundles(bundles: map<string, Locator>, runOf: map<string, Run>, runs0: map<Run, RunRecord>)
      returns (failure: Option<Failure>, out: map<string, NewLocator>, runs: map<Run, RunRecord>)
      requires forall run | run in runs0 :: runs0[run].bundle.None?
      requires forall sha | sha in runOf :: runOf[sha] in runs0
      modifies this`moves, this`dedupRemovals
      ensures failure.None? <==> forall d | d in bundles :: BundleSound(formats, files, runOf, d, bundles[d])
      ensures failure.None? ==>
                && BundlesSoFar(formats, files, runOf, bundles, out, moves, dedupRemovals, SortedList(bundles.Keys))
                && BundlesListed(runs, out) && SameButBundles(runs0, runs)
      ensures StaysClean(formats, files, bundles, old(moves), old(dedupRemovals), moves, dedupRemovals)
      ensures failure.None? ==> NewFromBundles(old(moves), moves, bundles, runOf)
    {
      hide StaysClean, NewFromBundles, BundleProgress, BundlesSoFar, BundlesListed, BundleSound, BundlePlanned,
           SameButBundles, NewFromBundle, AddsSummary, IntoRuns, OffRunsAll, OffRuns, SortedList;
      var list := Sorted(bundles.Keys);
      failure, out, runs := None, map[], runs0;
      BundleStarts(formats, files, runOf, bundles, runs0, moves, dedupRemovals);
      for i := 0 to |list|
        invariant failure.None?
        invariant BundleProgress(formats, files, runOf, bundles, runs0, old(moves), old(dedupRemovals),
                                 out, runs, moves, dedupRemovals, list[..i])
      {
        ghost var moves1, removals1 := moves, dedupRemovals;
        BundleFinishes(formats, files, runOf, bundles, runs0, old(moves), old(dedupRemovals),
                       out, runs, moves1, removals1, list[..i]);
        var digest := list[i];
        assert digest in list;
        var locator;
        failure, locator := PlanBundle(digest, bundles[digest], runOf);
        StaysCleanLonger(formats, files, bundles, old(moves), old(dedupRemovals), moves1, removals1,
                         digest, moves, dedupRemovals);
        if failure.Some? {
          return;
        }
        PlannedRun(formats, files, runOf, digest, bundles[digest], locator, moves, dedupRemovals);
        BundleMovesContinue(formats, files, runOf, bundles, old(moves), old(dedupRemovals), moves1, removals1,
                            digest, moves, dedupRemovals);
        BundleContinues(formats, files, runOf, bundles, runs0, old(moves), old(dedupRemovals),
                        out, runs, moves1, removals1, list, i, locator, moves, dedupRemovals);
        out := out[digest := locator];
        runs := runs[locator.run := runs[locator.run].(bundle := Some(locator))];
      }
      assert list[..|list|] == list;
      BundleFinishes(formats, files, runOf, bundles, runs0, old(moves), old(dedupRemovals),
                     out, runs, moves, dedupRemovals, list);
    }

    /** Moves first, then the duplicates; the first that fails ends it. */
    method Execute() returns (ok: bool)
      modifies this`files
      ensures dryRun ==> ok && files == old(files)
      ensures !dryRun ==> (files, ok) == ExecuteAll(old(files), moves, dedupRemovals)
    {
      hide CanMove, MoveOne;
      for i := 0 to |moves|
        invariant dryRun ==> files == old(files)
        invariant !dryRun ==> MoveAll(old(files), moves[..i]) == (files, true)
      {
        assert moves[..i + 1][..i] == moves[..i] && moves[..i + 1][i] == moves[i];
        if !dryRun {
          if !CanMove(files, moves[i]) {
            MovesStop(old(files), moves, i + 1);
            return false;
          }
          CanMoveFrom(files, moves[i]);
          files := MoveOne(files, moves[i]);
        }
      }
      assert moves[..|moves|] == moves;
      ok := ExecuteRemovals();
    }

    method ExecuteRemovals() returns (ok: bool)
      modifies this`files
      ensures dryRun ==> ok && files == old(files)
      ensures !dryRun ==> (files, ok) == RemoveAll(old(files), dedupRemovals)
    {
      for i := 0 to |dedupRemovals|
        invariant dryRun ==> files == old(files)
        invariant !dryRun ==> RemoveAll(old(files), dedupRemovals[..i]) == (files, true)
      {
        assert dedupRemovals[..i + 1][..i] == dedupRemovals[..i] && dedupRemovals[..i + 1][i] == dedupRemovals[i];
        if !dryRun {
          if dedupRemovals[i] !in files {
            RemovalsStop(old(files), dedupRemovals, i + 1);
            return false;
          }
          files := files - {dedupRemovals[i]};
        }
      }
      assert dedupRemovals[..|dedupRemovals|] == dedupRemovals;
      ok := true;
    }

    method DigestsHold(paths: map<string, Path>) returns (ok: bool)
      ensures ok <==> Digested(formats, files, paths)
    {
      ok := true;
      var rest := paths.Keys;
      while rest != {}
        invariant rest <= paths.Keys
        invariant ok <==> forall sha | sha in paths && sha !in rest ::
                            paths[sha] in files && formats.digest(files[paths[sha]]) == sha
        decreases rest
      {
        var sha :| sha in rest;
        if paths[sha] !in files || formats.digest(files[paths[sha]]) != sha {
          ok := false;
        }
        rest := rest - {sha};
      }
    }

    method Verify(index: IndexV2) returns (ok: bool)
      ensures ok <==> Verified(formats, files, index)
    {
      hide Verified;
      var reports := DigestsHold(EntryPaths(index.artifacts));
      var deltas := DigestsHold(EntryPaths(index.deltas));
      var bundles := DigestsHold(ManifestPaths(index.bundles));
      VerifiedParts(formats, files, index);
      ok := reports && deltas && bundles;
    }

    /** Writes the new index, drops the bundle index and the emptied directories, and re-verifies. */
    method Finish(index: IndexV2) returns (failure: Option<Failure>)
      modifies this`files
      ensures files == Finished(formats, old(files), index)
      ensures failure.None? <==> NoneStale(files) && Verified(formats, files, index)
      ensures failure == Some(VerificationFailed) ==> !Verified(formats, files, index)
    {
      hide Verified;
      files := files[INDEX := formats.encode(index)];
      files := files - {BUNDLE_INDEX};
      for i := 0 to |STALE|
        invariant forall p | p in files && p != [] :: p[0] !in STALE[..i]
      {
        if exists p :: p in files && p != [] && p[0] == STALE[i] {
          var p :| p in files && p != [] && p[0] == STALE[i];
          return Some(Leftover(p));
        }
        assert STALE[..i + 1] == STALE[..i] + [STALE[i]];
      }
      assert STALE[..|STALE|] == STALE;
      var verified := Verify(index);
      failure := if verified then None else Some(VerificationFailed);
    }

    method ReadBundleIndex() returns (bundles: Option<map<string, Locator>>)
      ensures bundles == BundlesOf(formats, files)
    {
      if Exists(files, BUNDLE_INDEX) {
        if BUNDLE_INDEX !in files {
          return None;
        }
        bundles := formats.readBundles(files[BUNDLE_INDEX]);
      } else {
        FileExists(files, BUNDLE_INDEX);
        bundles := Some(map[]);
      }
    }

    /** The planning half: reports, comparisons, deltas, then bundles. */
    method MakePlan(v1: IndexV1) returns (failure: Option<Failure>, index: IndexV2)
      requires moves == [] && dedupRemovals == []
      requires INDEX in files && formats.readIndex(files[INDEX]) == Some(v1)
      modifies this`moves, this`dedupRemovals
      ensures failure.None? <==> BundlesOf(formats, files).Some? && Consistent(formats, files)
      ensures failure.None? ==>
                Planned(formats, Plan(files, v1, BundlesOf(formats, files).value, RunNames(formats, files, v1),
                                      index, moves, dedupRemovals))
    {
      hide ReportsSound, ReportsPlanned, Compared, DeltaPaths, DeltasSoFar, DeltaSound, BundlesSoFar, BundleSound,
           BundlesListed, SameButDeltas, SameButBundles, RemovalsSound, SortedList, RunsFor, BundlesOf, RecordsFresh,
           IntoRuns, OffRunsAll, EntriesOffRuns, OffRuns, Archived, PathsInRuns, Planned, NewFromEntries,
           NewFromBundles;
      index := IndexV2(map[], map[], map[], map[], []);
      var runOf, artifacts, named;
      failure, runOf, artifacts, named := PlanReports(v1.artifacts);
      if failure.Some? {
        return;
      }
      NamesAre(formats, files, v1, runOf, artifacts, named, moves);
      ghost var moves1 := moves;
      var comparisons, paths;
      failure, comparisons, paths := PlaceDeltas(v1.comparisons, runOf);
      if failure.Some? {
        return;
      }
      DeltaPathsInRuns(runOf, v1.comparisons);
      var deltas, listed;
      failure, deltas, listed := PlanDeltas(v1.deltas, paths, comparisons, named);
      if failure.Some? {
        return;
      }
      StillNoBundles(runOf, named, listed);
      ghost var moves2 := moves;
      var read := ReadBundleIndex();
      if read.None? {
        failure := Some(Unreadable(BUNDLE_INDEX));
        return;
      }
      NoRemovals(formats, files, read.value);
      var bundles, runs;
      failure, bundles, runs := PlanBundles(read.value, runOf, listed);
      if failure.Some? {
        return;
      }
      index := IndexV2(runs, artifacts, deltas, bundles, comparisons);
      Assembled(formats, Plan(files, v1, read.value, runOf, index, moves, dedupRemovals), named, listed, moves1,
                moves2);
    }

    method Migrate() returns (r: Outcome)
      requires moves == [] && dedupRemovals == []
      modifies this
      ensures r.AlreadyMigrated? <==>
                INDEX in old(files) && formats.readIndex(old(files)[INDEX]).Some?
                && formats.readIndex(old(files)[INDEX]).value.schemaVersion == 2
      ensures r.AlreadyMigrated? || dryRun || !Ready(formats, old(files)) ==> files == old(files)
      ensures r.Previewed? <==> dryRun && Ready(formats, old(files))
      ensures r.Migrated? ==> !dryRun && Ready(formats, old(files))
      ensures Ready(formats, old(files)) ==>
                (r.Previewed? || r.Migrated? ==>
                   Planned(formats, PlanFor(formats, old(files), r.index, moves, dedupRemovals)))
      ensures !dryRun && Ready(formats, old(files)) ==>
                exists index :: RanPlan(formats, PlanFor(formats, old(files), index, moves, dedupRemovals), files, r)
      ensures r.Migrated? ==> NoneStale(files) && Verified(formats, files, r.index)
      ensures Ready(formats, old(files)) && PlanClean(formats, old(files)) ==>
                && (r.Migrated? ==>
                      Completed(formats, PlanFor(formats, old(files), r.index, moves, dedupRemovals), files))
                && r != Failed(VerificationFailed)
                && (Injective(formats.digest) ==> NothingLost(old(files), files))
    {
      hide Planned, Completed, Clean, Consistent, ExecuteAll, Finished, Verified, NoneStale, Injective, NothingLost,
           BundlesOf, RunNames, NothingLeft, RanPlan;
      if INDEX !in files {
        return Failed(Unreadable(INDEX));
      }
      var read := formats.readIndex(files[INDEX]);
      if read.None? {
        return Failed(Unreadable(INDEX));
      }
      var v1 := read.value;
      if v1.schemaVersion == 2 {
        return AlreadyMigrated;
      }
      if v1.schemaVersion != 1 {
        return Failed(BadSchema);
      }
      var failure, index := MakePlan(v1);
      ghost var before := files;
      if failure.Some? {
        return Failed(failure.value);
      }
      ghost var plan := PlanFor(formats, files, index, moves, dedupRemovals);
      var executed := Execute();
      if dryRun {
        UntouchedLosesNothing(files);
        return Previewed(index);
      }
      if PlanClean(formats, before) { Conclude(formats, plan); }
      if !executed {
        StoppedPlan(formats, plan, files);
        assert RanPlan(formats, PlanFor(formats, before, index, moves, dedupRemovals), files, Failed(MoveFailed));
        return Failed(MoveFailed);
      }
      failure := Finish(index);
      NothingLeftExactly(files);
      assert files == Finished(formats, ExecuteAll(before, plan.moves, plan.removals).0, plan.index);
      r := if failure.None? then Migrated(index) else Failed(failure.value);
      FinishedPlan(formats, plan, files, r);
      assert RanPlan(formats, PlanFor(formats, before, index, moves, dedupRemovals), files, r);
    }
  }
}
