/**
  The evidence archive: a file store with one index, written one atomic file at
  a time, published into by proof-matrix bundles and resumed after a crash.
*/
module Archive {
  import opened Basics
  import opened Names
  import opened MatrixManifest

  // --- the store ------------------------------------------------------------

  datatype Location =
    | Report(run: string)
    | BundleManifest(run: string)
    | BundleTree(run: string, path: Path)
    | Elsewhere(name: string)

  datatype Artifact = Artifact(path: Location, run: Option<string>)

  /** A bundle's record: its identity, its run and report, and its totals. */
  datatype Locator = Locator(
    bundleSha: Digest, run: string, reportSha: Digest, artifactFiles: nat, artifactBytes: nat)

  datatype Index = Index(
    schemaVersion: int,
    runs: map<string, Option<Locator>>,
    artifacts: map<Digest, Artifact>,
    bundles: map<Digest, Locator>)

  datatype Disk = Disk(files: map<Location, Content>, index: Option<Index>)

  /** One atomic write. */
  datatype Write = Put(at: Location, content: Content) | PutIndex(index: Index)

  function Apply(d: Disk, w: Write): Disk {
    match w
    case Put(at, content) => d.(files := d.files[at := content])
    case PutIndex(index) => d.(index := Some(index))
  }

  function ApplyAll(d: Disk, ws: seq<Write>): Disk {
    if ws == [] then d else Apply(ApplyAll(d, ws[..|ws| - 1]), ws[|ws| - 1])
  }

  // --- one publication ------------------------------------------------------

  datatype Error =
    | BadMatrix
    | NoIndex
    | OldSchema
    | NotArchived
    | ReportDiffers
    | TreeCollision
    | DifferentBundle
    | IndexConflict

  datatype Result = Published(locator: Locator) | Failed(error: Error) | Crashed

  ghost function LocatorOf(run: string, report: Content): Locator
    requires report.SummaryFile? && SummaryOk(report.summary)
  {
    var m := ManifestOf(report);
    Locator(Sha(ManifestFile(m)), run, Sha(report), m.artifactFiles, m.artifactBytes)
  }

  /** The run a report is archived under, or the reason there is none. */
  function ResolveRun(index: Index, report: Digest): Option<string> {
    if report in index.artifacts && index.artifacts[report].run.Some?
       && index.artifacts[report].run.value in index.runs
    then index.artifacts[report].run else None
  }

  /** Copies still missing from a bundle's tree, and whether an existing file collides. */
  function TreeWrites(d: Disk, run: string, files: seq<FileIdentity>, matrix: Matrix): (seq<Write>, bool)
    requires forall f | f in files :: f.path in matrix.files
  {
    if files == [] then ([], true)
    else
      var n := |files| - 1;
      var (ws, ok) := TreeWrites(d, run, files[..n], matrix);
      var at := BundleTree(run, files[n].path);
      assert files[n] in files;
      if !ok then (ws, false)
      else if at in d.files then (ws, Sha(d.files[at]) == files[n].sha)
      else (ws + [Put(at, matrix.files[files[n].path])], true)
  }

  function Record(index: Index, locator: Locator): Index {
    index.(runs := index.runs[locator.run := Some(locator)],
           bundles := index.bundles[locator.bundleSha := locator])
  }

  /** The writes one publication makes, in order, and how it ends. */
  datatype Plan = Plan(writes: seq<Write>, result: Result)

  ghost function PlanOf(d: Disk, matrix: Matrix, expectedReport: Option<Content>): Plan {
    if !MatrixOk(matrix, expectedReport) then Plan([], Failed(BadMatrix))
    else if d.index.None? then Plan([], Failed(NoIndex))
    else if d.index.value.schemaVersion != 2 then Plan([], Failed(OldSchema))
    else
      var index, report := d.index.value, matrix.summary.value;
      var run := ResolveRun(index, Sha(report));
      if run.None? then Plan([], Failed(NotArchived))
      else
        var at := index.artifacts[Sha(report)].path;
        if at !in d.files || d.files[at] != report then Plan([], Failed(ReportDiffers))
        else BundlePlan(d, matrix, run.value)
  }

  /** The copies a valid matrix's manifest asks for. */
  ghost function TreePlan(d: Disk, matrix: Matrix, run: string): (seq<Write>, bool)
    requires MatrixOk(matrix, None)
  {
    ManifestLists(matrix.summary.value);
    TreeWrites(d, run, ManifestOf(matrix.summary.value).files, matrix)
  }

  ghost function BundlePlan(d: Disk, matrix: Matrix, run: string): Plan
    requires MatrixOk(matrix, None) && d.index.Some? && run in d.index.value.runs
  {
    var index, report := d.index.value, matrix.summary.value;
    var manifest, locator := ManifestOf(report), LocatorOf(run, report);
    var (copies, ok) := TreePlan(d, matrix, run);
    if !ok then Plan(copies, Failed(TreeCollision))
    else
      var bundle := copies + [Put(BundleManifest(run), ManifestFile(manifest))];
      if index.runs[run].Some? && index.runs[run].value != locator then Plan(bundle, Failed(DifferentBundle))
      else if locator.bundleSha in index.bundles && index.bundles[locator.bundleSha] != locator then
        Plan(bundle, Failed(IndexConflict))
      else Plan(bundle + [PutIndex(Record(index, locator))], Published(locator))
  }

  /** What a run interrupted after `budget` writes leaves behind. */
  ghost function After(d: Disk, p: Plan, budget: nat): Disk {
    ApplyAll(d, p.writes[..if budget < |p.writes| then budget else |p.writes|])
  }

  ghost function ResultAfter(p: Plan, budget: nat): Result {
    if budget < |p.writes| then Crashed else p.result
  }

  // --- the archive invariant ------------------------------------------------

  predicate Owns(index: Index, run: string, report: Digest) {
    report in index.artifacts && index.artifacts[report].run == Some(run) && run in index.runs
  }

  predicate IsBundleFile(l: Location) {
    l.BundleManifest? || l.BundleTree?
  }

  predicate Bundled(report: Digest) {
    report.content.SummaryFile? && SummaryOk(report.content.summary)
  }

  /** Every file a run's bundle consists of, determined by the run's report. */
  ghost function Bundle(run: string, report: Content): map<Location, Content>
    requires report.SummaryFile? && SummaryOk(report.summary)
  {
    var declared := Declared(report.summary);
    (map p | p in declared :: BundleTree(run, p) := declared[p].content)
      [BundleManifest(run) := ManifestFile(ManifestOf(report))]
  }

  /** Each archived report lies at its path, unchanged; each run has one report. */
  ghost predicate ReportsKept(d: Disk, index: Index) {
    && (forall run, report | Owns(index, run, report) ::
          var at := index.artifacts[report].path;
          !IsBundleFile(at) && at in d.files && Sha(d.files[at]) == report)
    && (forall run, a, b | Owns(index, run, a) && Owns(index, run, b) :: a == b)
  }

  ghost predicate BelongsTo(index: Index, l: Location, content: Content, report: Digest) {
    && IsBundleFile(l) && Owns(index, l.run, report) && Bundled(report)
    && l in Bundle(l.run, report.content) && content == Bundle(l.run, report.content)[l]
  }

  /** Each bundle file, recorded or left by an interrupted run, is the one its run's report declares. */
  ghost predicate BundlesClean(d: Disk, index: Index) {
    forall l | l in d.files && IsBundleFile(l) :: exists report :: BelongsTo(index, l, d.files[l], report)
  }

  ghost predicate RecordedBy(d: Disk, index: Index, run: string, locator: Locator, report: Digest) {
    && Owns(index, run, report) && Bundled(report) && locator == LocatorOf(run, report.content)
    && Bundle(run, report.content).Keys <= d.files.Keys
    && locator.bundleSha in index.bundles && index.bundles[locator.bundleSha] == locator
  }

  /** Each recorded bundle is complete on disk and is its run's own. */
  ghost predicate RecordsHold(d: Disk, index: Index) {
    && (forall run | run in index.runs && index.runs[run].Some? ::
          exists report :: RecordedBy(d, index, run, index.runs[run].value, report))
    && (forall sha | sha in index.bundles ::
          && index.bundles[sha].bundleSha == sha && index.bundles[sha].run in index.runs
          && index.runs[index.bundles[sha].run] == Some(index.bundles[sha]))
  }

  ghost predicate Inv(d: Disk) {
    && d.index.Some? && d.index.value.schemaVersion == 2
    && ReportsKept(d, d.index.value) && BundlesClean(d, d.index.value) && RecordsHold(d, d.index.value)
  }

  /** What the invariant says about a recorded locator: its manifest file hashes
      to the recorded digest, it lists every artifact the report's rows mention,
      and every file it lists is there with the listed digest. */
  lemma RecordedBundleIsIntact(d: Disk, run: string)
    requires Inv(d) && run in d.index.value.runs && d.index.value.runs[run].Some?
    ensures var locator := d.index.value.runs[run].value;
            && locator.run == run
            && BundleManifest(run) in d.files
            && var m := d.files[BundleManifest(run)];
            && m.ManifestFile? && Sha(m) == locator.bundleSha
            && m.manifest.reportSha == locator.reportSha && Bundled(locator.reportSha)
            && ListsMentions(m.manifest.files, locator.reportSha.content.summary.rows)
            && |m.manifest.files| == locator.artifactFiles && TotalBytes(m.manifest.files) == locator.artifactBytes
            && forall i | 0 <= i < |m.manifest.files| ::
                 var f := m.manifest.files[i];
                 BundleTree(run, f.path) in d.files && Sha(d.files[BundleTree(run, f.path)]) == f.sha
  {
    hide SummaryOk, ManifestOf, Bundle, ListsMentions;
    var index := d.index.value;
    var report :| RecordedBy(d, index, run, index.runs[run].value, report);
    assert Bundled(report);
    BundleIntact(d, run, report);
    ManifestTotals(report.content);
    ManifestListsMentions(report.content);
  }

  lemma ManifestTotals(report: Content)
    requires report.SummaryFile? && SummaryOk(report.summary)
    ensures var m := ManifestOf(report);
            m.reportSha == Sha(report) && |m.files| == m.artifactFiles && TotalBytes(m.files) == m.artifactBytes
  {
  }

  lemma BundleIntact(d: Disk, run: string, report: Digest)
    requires Inv(d) && Owns(d.index.value, run, report) && Bundled(report)
    requires Bundle(run, report.content).Keys <= d.files.Keys
    ensures BundleManifest(run) in d.files && d.files[BundleManifest(run)] == ManifestFile(ManifestOf(report.content))
    ensures forall i | 0 <= i < |ManifestOf(report.content).files| ::
              var f := ManifestOf(report.content).files[i];
              BundleTree(run, f.path) in d.files && Sha(d.files[BundleTree(run, f.path)]) == f.sha
  {
    hide SummaryOk, Declared, ManifestOf, Inv;
    BundleAgrees(d, run, report);
    ManifestLists(report.content);
    var b, files := Bundle(run, report.content), ManifestOf(report.content).files;
    assert BundleManifest(run) in b;
    forall i | 0 <= i < |files|
      ensures BundleTree(run, files[i].path) in d.files && Sha(d.files[BundleTree(run, files[i].path)]) == files[i].sha
    {
      assert BundleTree(run, files[i].path) in b;
    }
  }

  /** Whatever part of a run's bundle is on disk is right. */
  lemma BundleAgrees(d: Disk, run: string, report: Digest)
    requires Inv(d) && Owns(d.index.value, run, report) && Bundled(report)
    ensures forall l | l in Bundle(run, report.content) ::
              IsBundleFile(l) && l.run == run && (l in d.files ==> d.files[l] == Bundle(run, report.content)[l])
  {
    hide SummaryOk, Declared, ManifestOf, RecordsHold;
    var b, index := Bundle(run, report.content), d.index.value;
    forall l | l in b ensures IsBundleFile(l) && l.run == run && (l in d.files ==> d.files[l] == b[l]) {
      if l in d.files {
        var other :| BelongsTo(index, l, d.files[l], other);
        assert Owns(index, run, other) && Owns(index, run, report);
      }
    }
  }

  // --- writes of one bundle -------------------------------------------------

  /** d' is d with some files of the bundle b added. */
  predicate Between(d: Disk, d': Disk, b: map<Location, Content>) {
    && d'.index == d.index
    && (forall l | l in d.files :: l in d'.files && d'.files[l] == d.files[l])
    && forall l | l in d'.files :: l in d.files || (l in b && d'.files[l] == b[l])
  }

  predicate Agrees(d: Disk, b: map<Location, Content>) {
    forall l | l in b && l in d.files :: d.files[l] == b[l]
  }

  predicate Puts(ws: seq<Write>, b: map<Location, Content>) {
    forall w | w in ws :: w.Put? && w.at in b && w.content == b[w.at]
  }

  lemma {:induction false} PutsBetween(d: Disk, ws: seq<Write>, b: map<Location, Content>)
    requires Agrees(d, b) && Puts(ws, b)
    ensures Between(d, ApplyAll(d, ws), b)
    ensures forall w | w in ws :: w.at in ApplyAll(d, ws).files
  {
    if ws != [] {
      var n := |ws| - 1;
      assert ws[n] in ws && forall w | w in ws[..n] :: w in ws;
      PutsBetween(d, ws[..n], b);
      assert ws == ws[..n] + [ws[n]];
    }
  }

  lemma PutAtMore(ws: seq<Write>, w: Write, l: Location)
    requires w.Put?
    ensures PutAt(ws + [w], l) <==> PutAt(ws, l) || l == w.at
  {
    assert w in ws + [w];
    assert forall v | v in ws :: v in ws + [w];
  }

  /** In a clean archive nothing collides, and the copies are the missing files. */
  lemma {:induction false} TreeWritesClean(d: Disk, run: string, files: seq<FileIdentity>, matrix: Matrix,
                                           b: map<Location, Content>)
    requires forall f | f in files :: f.path in matrix.files && Sha(matrix.files[f.path]) == f.sha
    requires forall f | f in files :: BundleTree(run, f.path) in b && Sha(b[BundleTree(run, f.path)]) == f.sha
    requires Agrees(d, b)
    ensures var (ws, ok) := TreeWrites(d, run, files, matrix);
            && ok && Puts(ws, b)
            && forall f | f in files :: BundleTree(run, f.path) in d.files || PutAt(ws, BundleTree(run, f.path))
  {
    if files != [] {
      var n := |files| - 1;
      assert files[n] in files && forall f | f in files[..n] :: f in files;
      TreeWritesClean(d, run, files[..n], matrix, b);
      hide PutAt;
      var (ws, _) := TreeWrites(d, run, files[..n], matrix);
      var at := BundleTree(run, files[n].path);
      assert files == files[..n] + [files[n]];
      if at !in d.files {
        var w := Put(at, matrix.files[files[n].path]);
        forall l ensures PutAt(ws + [w], l) <==> PutAt(ws, l) || l == at { PutAtMore(ws, w, l); }
      }
    }
  }

  // --- publishing into a clean archive --------------------------------------

  /** The matrix is valid and its report is archived under `run`. */
  ghost predicate Publishable(d: Disk, matrix: Matrix, run: string) {
    && Inv(d) && MatrixOk(matrix, None)
    && Owns(d.index.value, run, Sha(matrix.summary.value))
  }

  /** The file writes of a publication: copies, then the manifest. */
  ghost function FileWrites(d: Disk, matrix: Matrix, run: string): seq<Write>
    requires MatrixOk(matrix, None)
  {
    TreePlan(d, matrix, run).0 + [Put(BundleManifest(run), ManifestFile(ManifestOf(matrix.summary.value)))]
  }

  predicate PutAt(ws: seq<Write>, l: Location) {
    exists w :: w in ws && w.Put? && w.at == l
  }

  /** The copies are bundle files, none collides, and none is left out. */
  lemma CopiesArePuts(d: Disk, matrix: Matrix, run: string, b: map<Location, Content>)
    requires Publishable(d, matrix, run) && b == Bundle(run, matrix.summary.value)
    ensures Agrees(d, b) && Puts(TreePlan(d, matrix, run).0, b) && TreePlan(d, matrix, run).1
    ensures forall p | p in Declared(matrix.summary.value.summary) ::
              BundleTree(run, p) in d.files || PutAt(TreePlan(d, matrix, run).0, BundleTree(run, p))
  {
    hide Declared, ManifestOf, Inv, TreeWrites;
    var report := matrix.summary.value;
    var files := ManifestOf(report).files;
    BundleAgrees(d, run, Sha(report));
    ManifestLists(report);
    TreeWritesClean(d, run, files, matrix, b);
    forall p | p in Declared(report.summary)
      ensures BundleTree(run, p) in d.files || PutAt(TreePlan(d, matrix, run).0, BundleTree(run, p))
    {
      var i :| 0 <= i < |files| && files[i].path == p;
      assert files[i] in files;
    }
  }

  /** So are the copies followed by the manifest. */
  lemma FileWritesArePuts(d: Disk, matrix: Matrix, run: string, b: map<Location, Content>)
    requires Publishable(d, matrix, run) && b == Bundle(run, matrix.summary.value)
    ensures Agrees(d, b) && Puts(FileWrites(d, matrix, run), b) && TreePlan(d, matrix, run).1
    ensures forall l | l in b :: l in d.files || PutAt(FileWrites(d, matrix, run), l)
  {
    hide SummaryOk, Declared, ManifestOf, Inv, TreePlan;
    CopiesArePuts(d, matrix, run, b);
    var copies, ws := TreePlan(d, matrix, run).0, FileWrites(d, matrix, run);
    assert forall w | w in copies :: w in ws;
    assert ws[|copies|] in ws;
    forall l | l in b ensures l in d.files || PutAt(ws, l) {
      if l.BundleTree? && l !in d.files {
        assert PutAt(copies, l);
      }
    }
  }

  /** After them the whole bundle is on disk, and nothing else has changed. */
  lemma FileWritesFill(d: Disk, matrix: Matrix, run: string, b: map<Location, Content>)
    requires Publishable(d, matrix, run) && b == Bundle(run, matrix.summary.value)
    ensures ApplyAll(d, FileWrites(d, matrix, run)).files == d.files + b
    ensures ApplyAll(d, FileWrites(d, matrix, run)).index == d.index
  {
    hide Publishable, Bundle, FileWrites, ApplyAll;
    PublishableReport(d, matrix, run);
    FileWritesArePuts(d, matrix, run, b);
    FillingUnites(d, FileWrites(d, matrix, run), b);
  }

  lemma FillingUnites(d: Disk, ws: seq<Write>, b: map<Location, Content>)
    requires Agrees(d, b) && Puts(ws, b) && forall l | l in b :: l in d.files || PutAt(ws, l)
    ensures ApplyAll(d, ws).files == d.files + b && ApplyAll(d, ws).index == d.index
  {
    hide ApplyAll;
    PutsBetween(d, ws, b);
    var filled := ApplyAll(d, ws).files;
    forall l | l in b ensures l in filled {
      if l !in d.files {
        var w :| w in ws && w.Put? && w.at == l;
      }
    }
    assert filled.Keys == (d.files + b).Keys;
  }

  /** The run's record, if any, is already this bundle's; so is the digest's. */
  lemma NoConflict(d: Disk, matrix: Matrix, run: string)
    requires Publishable(d, matrix, run)
    ensures var locator := LocatorOf(run, matrix.summary.value); var index := d.index.value;
            && (index.runs[run].Some? ==> index.runs[run].value == locator)
            && (locator.bundleSha in index.bundles ==> index.bundles[locator.bundleSha] == locator)
  {
    hide SummaryOk, Declared, SortedList, FilesOf, TotalBytes, Bundle;
    var report, index := matrix.summary.value, d.index.value;
    var locator := LocatorOf(run, report);
    if index.runs[run].Some? {
      var other :| RecordedBy(d, index, run, index.runs[run].value, other);
      assert Owns(index, run, other) && Owns(index, run, Sha(report));
    }
    if locator.bundleSha in index.bundles {
      var found := index.bundles[locator.bundleSha];
      var other :| RecordedBy(d, index, found.run, found, other);
      assert ManifestOf(other.content).reportSha == ManifestOf(report).reportSha;
      assert other == Sha(report);
    }
  }

  /** In a clean archive a valid, archived matrix is always published: none of
      the collision and conflict branches is taken. */
  lemma PlanOfPublishable(d: Disk, matrix: Matrix, expectedReport: Option<Content>, run: string)
    requires Publishable(d, matrix, run) && MatrixOk(matrix, expectedReport)
    ensures var locator := LocatorOf(run, matrix.summary.value);
            PlanOf(d, matrix, expectedReport) ==
            Plan(FileWrites(d, matrix, run) + [PutIndex(Record(d.index.value, locator))], Published(locator))
  {
    hide SummaryOk, ManifestOf, TreePlan, RecordsHold, BundlesClean, Bundle;
    FileWritesArePuts(d, matrix, run, Bundle(run, matrix.summary.value));
    NoConflict(d, matrix, run);
    assert Owns(d.index.value, run, Sha(matrix.summary.value));
  }

  /** The run a report is archived under: the index has an entry for the report with a run it knows. */
  predicate ArchivedUnder(index: Index, report: Digest, run: string) {
    report in index.artifacts && index.artifacts[report].run == Some(run) && run in index.runs
  }

  /** Which failure comes first, on any disk. */
  lemma FailureReasons(d: Disk, matrix: Matrix, expectedReport: Option<Content>)
    ensures var r := PlanOf(d, matrix, expectedReport).result;
            && (r == Failed(BadMatrix) <==> !MatrixOk(matrix, expectedReport))
            && (r == Failed(NoIndex) <==> MatrixOk(matrix, expectedReport) && d.index.None?)
            && (r == Failed(OldSchema) <==>
                  MatrixOk(matrix, expectedReport) && d.index.Some? && d.index.value.schemaVersion != 2)
            && (r == Failed(NotArchived) <==>
                  MatrixOk(matrix, expectedReport) && d.index.Some? && d.index.value.schemaVersion == 2
                  && forall run :: !ArchivedUnder(d.index.value, Sha(matrix.summary.value), run))
  {
    hide SummaryOk, ManifestOf, TreeWrites, TreePlan, Record, LocatorOf, Present;
    if MatrixOk(matrix, expectedReport) && d.index.Some? && d.index.value.schemaVersion == 2 {
      var report := Sha(matrix.summary.value);
      var run := ResolveRun(d.index.value, report);
      if run.Some? { assert ArchivedUnder(d.index.value, report, run.value); }
    }
  }

  /** Publication succeeds exactly for valid matrices whose report is archived. */
  lemma PublishedIff(d: Disk, matrix: Matrix, expectedReport: Option<Content>)
    requires Inv(d)
    ensures PlanOf(d, matrix, expectedReport).result.Published? <==>
            MatrixOk(matrix, expectedReport) && exists run :: Owns(d.index.value, run, Sha(matrix.summary.value))
    ensures !PlanOf(d, matrix, expectedReport).result.Published? ==> PlanOf(d, matrix, expectedReport).writes == []
    ensures var r := PlanOf(d, matrix, expectedReport).result;
            r.Failed? ==> r.error == BadMatrix || r.error == NotArchived
  {
    hide SummaryOk, ManifestOf, TreeWrites, RecordsHold, BundlesClean, Bundle, BundlePlan;
    if MatrixOk(matrix, expectedReport) {
      var report := Sha(matrix.summary.value);
      var run := ResolveRun(d.index.value, report);
      if run.Some? {
        assert Owns(d.index.value, run.value, report);
        PlanOfPublishable(d, matrix, expectedReport, run.value);
      } else {
        assert forall r :: !Owns(d.index.value, r, report);
      }
    }
  }

  // --- interruption and resumption ------------------------------------------

  /** Adding bundle files of a run keeps the invariant. */
  lemma BetweenKeepsInv(d: Disk, d': Disk, run: string, report: Digest)
    requires Inv(d) && Owns(d.index.value, run, report) && Bundled(report)
    requires Between(d, d', Bundle(run, report.content))
    ensures Inv(d')
  {
    hide SummaryOk, Declared, ManifestOf;
    var index, b := d.index.value, Bundle(run, report.content);
    BundleAgrees(d, run, report);
    forall l | l in d'.files && IsBundleFile(l)
      ensures exists r :: BelongsTo(index, l, d'.files[l], r)
    {
      if l in d.files {
        var r :| BelongsTo(index, l, d.files[l], r);
        assert BelongsTo(index, l, d'.files[l], r);
      } else {
        assert BelongsTo(index, l, d'.files[l], report);
      }
    }
    forall r | r in index.runs && index.runs[r].Some?
      ensures exists o :: RecordedBy(d', index, r, index.runs[r].value, o)
    {
      var o :| RecordedBy(d, index, r, index.runs[r].value, o);
      assert RecordedBy(d', index, r, index.runs[r].value, o);
    }
  }

  /** Recording a bundle that is complete on disk keeps the invariant. */
  lemma RecordKeepsInv(d: Disk, run: string, report: Digest)
    requires Inv(d) && Owns(d.index.value, run, report) && Bundled(report)
    requires forall l | l in Bundle(run, report.content) :: l in d.files
    requires var locator := LocatorOf(run, report.content); var index := d.index.value;
             && (index.runs[run].Some? ==> index.runs[run].value == locator)
             && (locator.bundleSha in index.bundles ==> index.bundles[locator.bundleSha] == locator)
    ensures Inv(d.(index := Some(Record(d.index.value, LocatorOf(run, report.content)))))
  {
    hide SummaryOk, ManifestOf, Bundle;
    var index, locator := d.index.value, LocatorOf(run, report.content);
    var index' := Record(index, locator);
    var d' := d.(index := Some(index'));
    forall r, o ensures Owns(index', r, o) <==> Owns(index, r, o) {
    }
    forall l | l in d'.files && IsBundleFile(l)
      ensures exists o :: BelongsTo(index', l, d'.files[l], o)
    {
      var o :| BelongsTo(index, l, d.files[l], o);
      assert BelongsTo(index', l, d'.files[l], o);
    }
    forall r | r in index'.runs && index'.runs[r].Some?
      ensures exists o :: RecordedBy(d', index', r, index'.runs[r].value, o)
    {
      if r == run {
        assert RecordedBy(d', index', r, locator, report);
      } else {
        var o :| RecordedBy(d, index, r, index.runs[r].value, o);
        assert RecordedBy(d', index', r, index'.runs[r].value, o);
      }
    }
  }

  /** Where a publication ends up: every bundle file in place, and its record. */
  ghost function Settled(d: Disk, run: string, report: Content): Disk
    requires d.index.Some? && report.SummaryFile? && SummaryOk(report.summary)
  {
    Disk(d.files + Bundle(run, report), Some(Record(d.index.value, LocatorOf(run, report))))
  }

  lemma ApplySnoc(d: Disk, ws: seq<Write>, w: Write)
    ensures ApplyAll(d, ws + [w]) == Apply(ApplyAll(d, ws), w)
  {
    assert (ws + [w])[..|ws|] == ws;
  }

  lemma PublishableReport(d: Disk, matrix: Matrix, run: string)
    requires Publishable(d, matrix, run)
    ensures matrix.summary.Some? && matrix.summary.value.SummaryFile? && SummaryOk(matrix.summary.value.summary)
    ensures Bundled(Sha(matrix.summary.value)) && Inv(d) && d.index.Some?
    ensures Owns(d.index.value, run, Sha(matrix.summary.value)) && MatrixOk(matrix, None)
  {
  }

  /** An uninterrupted publication reaches the settled archive. */
  lemma PublicationSettles(d: Disk, matrix: Matrix, expectedReport: Option<Content>, run: string)
    requires Publishable(d, matrix, run) && MatrixOk(matrix, expectedReport)
    ensures ApplyAll(d, PlanOf(d, matrix, expectedReport).writes) == Settled(d, run, matrix.summary.value)
  {
    hide Inv, MatrixOk, PlanOf, FileWrites, Bundle, LocatorOf, Record, SummaryOk, ApplyAll;
    PublishableReport(d, matrix, run);
    var report := matrix.summary.value;
    PlanOfPublishable(d, matrix, expectedReport, run);
    FileWritesFill(d, matrix, run, Bundle(run, report));
    ApplySnoc(d, FileWrites(d, matrix, run), PutIndex(Record(d.index.value, LocatorOf(run, report))));
  }

  /** The settled archive is clean, publishable as before, and settled again. */
  lemma SettledIsClean(d: Disk, matrix: Matrix, run: string)
    requires Publishable(d, matrix, run)
    ensures matrix.summary.Some? && matrix.summary.value.SummaryFile? && SummaryOk(matrix.summary.value.summary)
    ensures Publishable(Settled(d, run, matrix.summary.value), matrix, run)
    ensures Settled(Settled(d, run, matrix.summary.value), run, matrix.summary.value)
            == Settled(d, run, matrix.summary.value)
  {
    hide MatrixOk, Bundle, LocatorOf, SummaryOk, BundlesClean, RecordsHold, ReportsKept;
    PublishableReport(d, matrix, run);
    var report := matrix.summary.value;
    var b := Bundle(run, report);
    var filled := d.(files := d.files + b);
    BundleAgrees(d, run, Sha(report));
    BetweenKeepsInv(d, filled, run, Sha(report));
    NoConflict(d, matrix, run);
    RecordKeepsInv(filled, run, Sha(report));
    RecordTwice(d.index.value, LocatorOf(run, report));
    assert (d.files + b) + b == d.files + b;
  }

  /** Interrupted at any write, the archive is clean, publishable as before, and
      settles where the uninterrupted publication does. */
  lemma InterruptedSettlesAlike(d: Disk, matrix: Matrix, expectedReport: Option<Content>, run: string, budget: nat)
    requires Publishable(d, matrix, run) && MatrixOk(matrix, expectedReport)
    ensures matrix.summary.value.SummaryFile? && SummaryOk(matrix.summary.value.summary)
    ensures Publishable(After(d, PlanOf(d, matrix, expectedReport), budget), matrix, run)
    ensures Settled(After(d, PlanOf(d, matrix, expectedReport), budget), run, matrix.summary.value)
            == Settled(d, run, matrix.summary.value)
  {
    hide MatrixOk, PlanOf, FileWrites, Bundle, LocatorOf, SummaryOk, Publishable, Settled, ApplyAll;
    PublishableReport(d, matrix, run);
    var ws, p := FileWrites(d, matrix, run), PlanOf(d, matrix, expectedReport);
    PlanOfPublishable(d, matrix, expectedReport, run);
    if budget < |p.writes| {
      assert p.writes[..budget] == ws[..budget];
      PartSettlesAlike(d, matrix, run, budget);
    } else {
      assert p.writes[..|p.writes|] == p.writes;
      PublicationSettles(d, matrix, expectedReport, run);
      SettledIsClean(d, matrix, run);
    }
  }

  lemma PartSettlesAlike(d: Disk, matrix: Matrix, run: string, k: nat)
    requires Publishable(d, matrix, run) && k <= |FileWrites(d, matrix, run)|
    ensures matrix.summary.value.SummaryFile? && SummaryOk(matrix.summary.value.summary)
    ensures Publishable(ApplyAll(d, FileWrites(d, matrix, run)[..k]), matrix, run)
    ensures Settled(ApplyAll(d, FileWrites(d, matrix, run)[..k]), run, matrix.summary.value)
            == Settled(d, run, matrix.summary.value)
  {
    hide MatrixOk, FileWrites, Bundle, LocatorOf, SummaryOk, BundlesClean, RecordsHold, ReportsKept, ApplyAll,
         Agrees, PutAt, Owns;
    PublishableReport(d, matrix, run);
    var b, ws := Bundle(run, matrix.summary.value), FileWrites(d, matrix, run);
    FileWritesArePuts(d, matrix, run, b);
    assert forall w | w in ws[..k] :: w in ws;
    PutsBetween(d, ws[..k], b);
    var d' := ApplyAll(d, ws[..k]);
    BetweenKeepsInv(d, d', run, Sha(matrix.summary.value));
    BetweenFillsAlike(d, d', b);
    hide Between, Inv;
  }

  lemma BetweenFillsAlike(d: Disk, d': Disk, b: map<Location, Content>)
    requires Between(d, d', b)
    ensures d'.files + b == d.files + b
  {
  }

  lemma RecordTwice(index: Index, locator: Locator)
    ensures Record(Record(index, locator), locator) == Record(index, locator)
  {
  }

  /**
    Crash and rerun.  A publication stopped after any number of writes and then
    run to the end leaves the archive of an uninterrupted one and reports the
    same result; with nothing left to do this is idempotence.
  */
  lemma CrashThenRerun(d: Disk, matrix: Matrix, expectedReport: Option<Content>, budget: nat)
    requires Inv(d)
    ensures var p := PlanOf(d, matrix, expectedReport);
            var d' := After(d, p, budget);
            var p' := PlanOf(d', matrix, expectedReport);
            && Inv(d') && p'.result == p.result
            && ApplyAll(d', p'.writes) == ApplyAll(d, p.writes)
  {
    hide MatrixOk, PlanOf, FileWrites, Bundle, LocatorOf, SummaryOk, Inv, Settled, Publishable, ApplyAll, After;
    var p := PlanOf(d, matrix, expectedReport);
    var d' := After(d, p, budget);
    if p.result.Published? {
      var run := RunOfPublished(d, matrix, expectedReport);
      InterruptedSettlesAlike(d, matrix, expectedReport, run, budget);
      PublishableReport(d', matrix, run);
      PublicationSettles(d, matrix, expectedReport, run);
      PublicationSettles(d', matrix, expectedReport, run);
      PlanOfPublishable(d, matrix, expectedReport, run);
      PlanOfPublishable(d', matrix, expectedReport, run);
    } else {
      UnpublishedWritesNothing(d, matrix, expectedReport, budget);
    }
  }

  lemma UnpublishedWritesNothing(d: Disk, matrix: Matrix, expectedReport: Option<Content>, budget: nat)
    requires Inv(d) && !PlanOf(d, matrix, expectedReport).result.Published?
    ensures After(d, PlanOf(d, matrix, expectedReport), budget) == d
  {
    hide Inv, PlanOf;
    PublishedIff(d, matrix, expectedReport);
  }

  lemma RunOfPublished(d: Disk, matrix: Matrix, expectedReport: Option<Content>) returns (run: string)
    requires Inv(d) && PlanOf(d, matrix, expectedReport).result.Published?
    ensures Publishable(d, matrix, run) && MatrixOk(matrix, expectedReport)
  {
    hide PlanOf, ReportsKept, BundlesClean, RecordsHold;
    PublishedIff(d, matrix, expectedReport);
    run :| Owns(d.index.value, run, Sha(matrix.summary.value));
    PublishableFrom(d, matrix, expectedReport, run);
  }

  lemma PublishableFrom(d: Disk, matrix: Matrix, expectedReport: Option<Content>, run: string)
    requires Inv(d) && MatrixOk(matrix, expectedReport)
    requires d.index.Some? && Owns(d.index.value, run, Sha(matrix.summary.value))
    ensures Publishable(d, matrix, run)
  {
  }

  // --- every run of publications --------------------------------------------

  /** An attempt to publish, cut off after at most `budget` writes. */
  datatype Attempt = Attempt(matrix: Matrix, expectedReport: Option<Content>, budget: nat)

  ghost function History(d: Disk, attempts: seq<Attempt>): Disk {
    if attempts == [] then d
    else
      var before := History(d, attempts[..|attempts| - 1]);
      var a := attempts[|attempts| - 1];
      After(before, PlanOf(before, a.matrix, a.expectedReport), a.budget)
  }

  /** No file changes or disappears, and no record is replaced. */
  predicate Preserves(d: Disk, d': Disk) {
    && (forall l | l in d.files :: l in d'.files && d'.files[l] == d.files[l])
    && d.index.Some? && d'.index.Some? && d'.index.value.artifacts == d.index.value.artifacts
    && forall run | run in d.index.value.runs ::
         run in d'.index.value.runs
         && (d.index.value.runs[run].Some? ==> d'.index.value.runs[run] == d.index.value.runs[run])
  }

  lemma BetweenPreserves(d: Disk, d': Disk, b: map<Location, Content>)
    requires Between(d, d', b) && d.index.Some?
    ensures Preserves(d, d')
  {
  }

  lemma AttemptPreserves(d: Disk, matrix: Matrix, expectedReport: Option<Content>, budget: nat)
    requires Inv(d)
    ensures Preserves(d, After(d, PlanOf(d, matrix, expectedReport), budget))
  {
    hide MatrixOk, PlanOf, FileWrites, Bundle, LocatorOf, SummaryOk, RecordsHold, BundlesClean, ReportsKept, ApplyAll,
      Publishable, Preserves;
    var p := PlanOf(d, matrix, expectedReport);
    if p.result.Published? {
      var run := RunOfPublished(d, matrix, expectedReport);
      PublishableReport(d, matrix, run);
      PlanOfPublishable(d, matrix, expectedReport, run);
      var ws, b := FileWrites(d, matrix, run), Bundle(run, matrix.summary.value);
      FileWritesArePuts(d, matrix, run, b);
      if budget < |p.writes| {
        assert p.writes[..budget] == ws[..budget];
        assert forall w | w in ws[..budget] :: w in ws;
        PutsBetween(d, ws[..budget], b);
        BetweenPreserves(d, ApplyAll(d, ws[..budget]), b);
      } else {
        assert p.writes[..|p.writes|] == p.writes;
        PublicationPreserves(d, matrix, run);
      }
    } else {
      UnpublishedWritesNothing(d, matrix, expectedReport, budget);
      PreservesSelf(d);
    }
  }

  lemma PublicationPreserves(d: Disk, matrix: Matrix, run: string)
    requires Publishable(d, matrix, run)
    ensures matrix.summary.Some? && matrix.summary.value.SummaryFile? && SummaryOk(matrix.summary.value.summary)
    ensures Preserves(d, ApplyAll(d, FileWrites(d, matrix, run)
                                     + [PutIndex(Record(d.index.value, LocatorOf(run, matrix.summary.value)))]))
  {
    hide FileWrites, Bundle, ManifestOf, SummaryOk, RecordsHold, BundlesClean, ReportsKept, ApplyAll;
    PublishableReport(d, matrix, run);
    var ws, b := FileWrites(d, matrix, run), Bundle(run, matrix.summary.value);
    FileWritesArePuts(d, matrix, run, b);
    PutsBetween(d, ws, b);
    NoConflict(d, matrix, run);
    ApplySnoc(d, ws, PutIndex(Record(d.index.value, LocatorOf(run, matrix.summary.value))));
  }

  /**
    Over every history of attempts, interrupted or not, on any matrices: the
    archive stays clean, so every recorded bundle is intact; and nothing that
    was ever written or recorded is changed.
  */
  lemma {:induction false} EveryHistoryIsClean(d: Disk, attempts: seq<Attempt>)
    requires Inv(d)
    ensures Inv(History(d, attempts)) && Preserves(d, History(d, attempts))
    decreases |attempts|
  {
    hide MatrixOk, PlanOf, After, Inv;
    if attempts == [] {
      PreservesSelf(d);
    } else {
      var n := |attempts| - 1;
      var a := attempts[n];
      EveryHistoryIsClean(d, attempts[..n]);
      var before := History(d, attempts[..n]);
      CrashThenRerun(before, a.matrix, a.expectedReport, a.budget);
      AttemptPreserves(before, a.matrix, a.expectedReport, a.budget);
    }
  }

  lemma PreservesSelf(d: Disk)
    requires Inv(d)
    ensures Preserves(d, d)
  {
  }

  // --- the publisher --------------------------------------------------------

  datatype Status = Done | Collided | Stopped

  function Least(a: nat, b: nat): nat {
    if a < b then a else b
  }

  /** Copying files one by one plans the same writes, in the same order. */
  lemma {:induction false} TreeWritesPrefix(d: Disk, run: string, files: seq<FileIdentity>, matrix: Matrix, i: nat)
    requires (forall f | f in files :: f.path in matrix.files) && i <= |files|
    ensures forall f | f in files[..i] :: f in files
    ensures var (ws, ok) := TreeWrites(d, run, files[..i], matrix);
            var (all, allOk) := TreeWrites(d, run, files, matrix);
            ws <= all && (!ok ==> all == ws && !allOk)
    decreases |files| - i, |files|
  {
    if i == |files| {
      assert files[..i] == files;
    } else {
      var n := |files| - 1;
      assert forall f | f in files[..n] :: f in files;
      assert files[..n][..i] == files[..i];
      TreeWritesPrefix(d, run, files[..n], matrix, i);
    }
  }

  lemma {:induction false} CopiesOnlyListed(d: Disk, run: string, files: seq<FileIdentity>, matrix: Matrix)
    requires forall f | f in files :: f.path in matrix.files
    ensures forall w | w in TreeWrites(d, run, files, matrix).0 ::
              w.Put? && exists f :: f in files && w.at == BundleTree(run, f.path)
  {
    if files != [] {
      var n := |files| - 1;
      assert files[n] in files && forall f | f in files[..n] :: f in files;
      CopiesOnlyListed(d, run, files[..n], matrix);
    }
  }

  lemma {:induction false} PutsLeaveOthers(d: Disk, ws: seq<Write>, l: Location)
    requires forall w | w in ws :: w.Put? && w.at != l
    ensures l in ApplyAll(d, ws).files <==> l in d.files
    ensures l in d.files ==> ApplyAll(d, ws).files[l] == d.files[l]
  {
    if ws != [] {
      var n := |ws| - 1;
      assert ws[n] in ws && forall w | w in ws[..n] :: w in ws;
      PutsLeaveOthers(d, ws[..n], l);
    }
  }

  /** A file not yet copied is on the current disk exactly if it was at the start. */
  lemma NextIsUntouched(d: Disk, run: string, files: seq<FileIdentity>, matrix: Matrix, i: nat)
    requires (forall f | f in files :: f.path in matrix.files) && i < |files|
    requires forall j, k | 0 <= j < k < |files| :: files[j].path != files[k].path
    ensures forall f | f in files[..i] :: f in files
    ensures var now, at := ApplyAll(d, TreeWrites(d, run, files[..i], matrix).0), BundleTree(run, files[i].path);
            (at in now.files <==> at in d.files) && (at in d.files ==> now.files[at] == d.files[at])
  {
    hide TreeWrites, ApplyAll;
    assert forall f | f in files[..i] :: f in files;
    CopiesOnlyListed(d, run, files[..i], matrix);
    PutsLeaveOthers(d, TreeWrites(d, run, files[..i], matrix).0, BundleTree(run, files[i].path));
  }

  lemma TreeWritesNext(d: Disk, run: string, files: seq<FileIdentity>, matrix: Matrix, i: nat)
    requires (forall f | f in files :: f.path in matrix.files) && i < |files|
    ensures (forall f | f in files[..i] :: f in files) && (forall f | f in files[..i + 1] :: f in files)
    ensures files[i] in files
    ensures var (ws, ok) := TreeWrites(d, run, files[..i], matrix);
            var at := BundleTree(run, files[i].path);
            TreeWrites(d, run, files[..i + 1], matrix) ==
            if !ok then (ws, false)
            else if at in d.files then (ws, Sha(d.files[at]) == files[i].sha)
            else (ws + [Put(at, matrix.files[files[i].path])], true)
  {
    assert files[..i + 1][..i] == files[..i];
  }

  /** The archive directory, and the number of atomic writes left before a crash. */
  class Archiver {
    var disk: Disk
    var budget: nat

    constructor (disk: Disk, budget: nat)
      ensures this.disk == disk && this.budget == budget
    {
      this.disk, this.budget := disk, budget;
    }

    /** Replace one file, all at once or not at all. */
    method AtomicWrite(w: Write) returns (alive: bool)
      modifies this
      ensures alive <==> old(budget) > 0
      ensures if alive then disk == Apply(old(disk), w) && budget == old(budget) - 1
              else disk == old(disk) && budget == old(budget)
    {
      if budget == 0 {
        return false;
      }
      budget := budget - 1;
      disk := Apply(disk, w);
      return true;
    }

    /** Copy the files of a bundle that are not there yet, checking those that are. */
    method CopyTree(run: string, files: seq<FileIdentity>, matrix: Matrix) returns (s: Status)
      requires forall f | f in files :: f.path in matrix.files
      requires forall j, k | 0 <= j < k < |files| :: files[j].path != files[k].path
      modifies this
      ensures var (ws, ok) := TreeWrites(old(disk), run, files, matrix);
              && s == (if old(budget) < |ws| then Stopped else if ok then Done else Collided)
              && disk == ApplyAll(old(disk), ws[..Least(old(budget), |ws|)])
              && budget == old(budget) - Least(old(budget), |ws|)
    {
      hide TreeWrites, ApplyAll, Apply;
      ghost var d, b := disk, budget;
      ghost var ws: seq<Write> := [];
      EmptyTree(d, run, files, matrix);
      for i := 0 to |files|
        invariant forall f | f in files[..i] :: f in files
        invariant TreeWrites(d, run, files[..i], matrix) == (ws, true)
        invariant |ws| <= b && budget == b - |ws| && disk == ApplyAll(d, ws)
      {
        NextIsUntouched(d, run, files, matrix, i);
        TreeWritesNext(d, run, files, matrix, i);
        TreeWritesPrefix(d, run, files, matrix, i + 1);
        var at := BundleTree(run, files[i].path);
        if at in disk.files {
          if Sha(disk.files[at]) != files[i].sha {
            assert ws[..|ws|] == ws;
            return Collided;
          }
        } else {
          var w := Put(at, matrix.files[files[i].path]);
          ApplySnoc(d, ws, w);
          var alive := AtomicWrite(w);
          if !alive {
            PrefixCut(ws, w, TreeWrites(d, run, files, matrix).0);
            return Stopped;
          }
          ws := ws + [w];
        }
      }
      assert files[..|files|] == files && ws[..|ws|] == ws;
      return Done;
    }

    /**
      Publish one matrix.  The archive receives exactly the planned writes that
      fit before the crash, in order, and the result is the planned one unless
      the crash came first.
    */
    method Publish(matrix: Matrix, expectedReport: Option<Content>) returns (r: Result)
      modifies this
      ensures disk == After(old(disk), PlanOf(old(disk), matrix, expectedReport), old(budget))
      ensures r == ResultAfter(PlanOf(old(disk), matrix, expectedReport), old(budget))
    {
      var build := BuildManifest(matrix, expectedReport);
      if build.BuildFailed? {
        return Failed(BadMatrix);
      }
      if disk.index.None? {
        return Failed(NoIndex);
      }
      var index := disk.index.value;
      if index.schemaVersion != 2 {
        return Failed(OldSchema);
      }
      var run := ResolveRun(index, build.manifest.reportSha);
      if run.None? {
        return Failed(NotArchived);
      }
      var at := index.artifacts[build.manifest.reportSha].path;
      if at !in disk.files || disk.files[at] != build.raw {
        return Failed(ReportDiffers);
      }
      r := WriteBundle(matrix, build.manifest, index, run.value);
    }

    /** The writes of one bundle: its tree, its manifest, and last the index. */
    method WriteBundle(matrix: Matrix, manifest: Manifest, index: Index, run: string) returns (r: Result)
      requires MatrixOk(matrix, None) && manifest == ManifestOf(matrix.summary.value)
      requires disk.index == Some(index) && run in index.runs
      modifies this
      ensures disk == After(old(disk), BundlePlan(old(disk), matrix, run), old(budget))
      ensures r == ResultAfter(BundlePlan(old(disk), matrix, run), old(budget))
    {
      hide TreeWrites, ApplyAll, Apply, ManifestOf, MatrixOk;
      ghost var d, b := disk, budget;
      ListedFiles(matrix);
      ghost var (copies, ok) := TreePlan(d, matrix, run);
      var status := CopyTree(run, manifest.files, matrix);
      if status.Collided? {
        return Failed(TreeCollision);
      }
      var put := Put(BundleManifest(run), ManifestFile(manifest));
      PlanBegins(d, matrix, run);
      if status.Stopped? {
        return Crashed;
      }
      assert copies[..|copies|] == copies;
      ApplySnoc(d, copies, put);
      var alive := AtomicWrite(put);
      if !alive {
        return Crashed;
      }
      var locator := Locator(Sha(ManifestFile(manifest)), run, manifest.reportSha,
                             manifest.artifactFiles, manifest.artifactBytes);
      LocatorMatches(matrix, run);
      ghost var bundle := copies + [put];
      assert bundle[..|bundle|] == bundle;
      if index.runs[run].Some? && index.runs[run].value != locator {
        return Failed(DifferentBundle);
      }
      if locator.bundleSha in index.bundles && index.bundles[locator.bundleSha] != locator {
        return Failed(IndexConflict);
      }
      var record := PutIndex(Record(index, locator));
      ApplySnoc(d, bundle, record);
      assert (bundle + [record])[..|bundle|] == bundle;
      assert (bundle + [record])[..|bundle| + 1] == bundle + [record];
      var recorded := AtomicWrite(record);
      if !recorded {
        return Crashed;
      }
      return Published(locator);
    }
  }

  lemma EmptyTree(d: Disk, run: string, files: seq<FileIdentity>, matrix: Matrix)
    requires forall f | f in files :: f.path in matrix.files
    ensures TreeWrites(d, run, files[..0], matrix) == ([], true) && ApplyAll(d, []) == d
  {
  }

  /** A crash before the next planned write leaves exactly the writes made. */
  lemma PrefixCut(ws: seq<Write>, w: Write, all: seq<Write>)
    requires ws + [w] <= all
    ensures |ws| < |all| && all[..|ws|] == ws
  {
    assert all[..|ws|] == (ws + [w])[..|ws|];
  }

  lemma ListedFiles(matrix: Matrix)
    requires MatrixOk(matrix, None)
    ensures var files := ManifestOf(matrix.summary.value).files;
            && (forall f | f in files :: f.path in matrix.files)
            && (forall j, k | 0 <= j < k < |files| :: files[j].path != files[k].path)
  {
    hide ManifestOf, Declared;
    ManifestLists(matrix.summary.value);
  }

  /** Up to a crash during the copies, the plan is the copies. */
  lemma PlanBegins(d: Disk, matrix: Matrix, run: string)
    requires MatrixOk(matrix, None) && d.index.Some? && run in d.index.value.runs
    ensures TreePlan(d, matrix, run).0 <= BundlePlan(d, matrix, run).writes
    ensures forall k: nat | k <= |TreePlan(d, matrix, run).0| ::
              BundlePlan(d, matrix, run).writes[..k] == TreePlan(d, matrix, run).0[..k]
  {
    hide TreePlan, MatrixOk, ManifestOf;
  }

  lemma LocatorMatches(matrix: Matrix, run: string)
    requires MatrixOk(matrix, None)
    ensures var m := ManifestOf(matrix.summary.value);
            LocatorOf(run, matrix.summary.value) ==
            Locator(Sha(ManifestFile(m)), run, m.reportSha, m.artifactFiles, m.artifactBytes)
  {
  }
}
