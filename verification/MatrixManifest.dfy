/**
  The evidence a proof-matrix summary declares, and the manifest built from it.

  File contents are values and a digest is the content it names, which is
  SHA-256 taken as an injective function.  A path is its parts joined by a
  separator below every other character, so code-point order is path order.
*/
module MatrixManifest {
  import opened Basics
  import opened Names

  type Path = string

  datatype Digest = Sha(content: Content)

  datatype Content =
    | Blob(bytes: seq<int>)
    | SummaryFile(summary: Summary, text: seq<int>)
    | ManifestFile(manifest: Manifest)

  /** A declared artifact; an unsafe path or malformed digest is None. */
  datatype Identity = Identity(path: Option<Path>, sha: Option<Digest>)

  datatype Lane = Lane(stdout: Identity, stderr: Identity, proof: Option<Identity>)

  datatype Row = Row(cpu: Option<Lane>, metal: Option<Lane>) | BadRow

  datatype Configuration =
    | Configuration(provenance: Option<int>, hostEnvironment: Option<int>, hostLoad: Option<int>)
    | BadConfiguration

  datatype Summary = Summary(protocol: string, schemaVersion: int, configuration: Configuration, rows: seq<Row>)

  datatype FileIdentity = FileIdentity(path: Path, bytes: nat, sha: Digest)

  datatype Manifest = Manifest(
    protocol: string, schemaVersion: int, reportBytes: nat, reportSha: Digest,
    provenance: Configuration, files: seq<FileIdentity>,
    artifactFiles: nat, artifactBytes: nat, hostFieldsAbsent: bool)

  const MAX_FILES := 256
  const MAX_FILE_BYTES := 64 * 1024 * 1024
  const MAX_TOTAL_BYTES := 256 * 1024 * 1024

  function Size(c: Content): nat {
    match c
    case Blob(bytes) => |bytes|
    case SummaryFile(_, text) => |text|
    case ManifestFile(_) => 0
  }

  /** The matrix directory: its summary.json and its artifact files. */
  datatype Matrix = Matrix(summary: Option<Content>, files: map<Path, Content>)

  // --- declared files -------------------------------------------------------

  predicate IdentityOk(i: Identity) {
    i.path.Some? && i.sha.Some?
  }

  predicate LaneOk(lane: Option<Lane>) {
    && lane.Some?
    && IdentityOk(lane.value.stdout) && IdentityOk(lane.value.stderr)
    && lane.value.proof.Some? && IdentityOk(lane.value.proof.value)
  }

  predicate RowOk(row: Row) {
    row.Row? && LaneOk(row.cpu) && LaneOk(row.metal)
  }

  function LaneFiles(lane: Option<Lane>): seq<(Path, Digest)>
    requires LaneOk(lane)
  {
    [(lane.value.stdout.path.value, lane.value.stdout.sha.value),
     (lane.value.stderr.path.value, lane.value.stderr.sha.value),
     (lane.value.proof.value.path.value, lane.value.proof.value.sha.value)]
  }

  function RowsFiles(rows: seq<Row>): seq<(Path, Digest)>
    requires forall row | row in rows :: RowOk(row)
  {
    if rows == [] then []
    else
      var last := rows[|rows| - 1];
      assert last in rows && RowOk(last);
      RowsFiles(rows[..|rows| - 1]) + LaneFiles(last.cpu) + LaneFiles(last.metal)
  }

  /** A later declaration of a path replaces an earlier one. */
  function Dict(files: seq<(Path, Digest)>): map<Path, Digest> {
    if files == [] then map[]
    else Dict(files[..|files| - 1])[files[|files| - 1].0 := files[|files| - 1].1]
  }

  predicate RowsOk(summary: Summary) {
    summary.rows != [] && forall row | row in summary.rows :: RowOk(row)
  }

  function Declared(summary: Summary): map<Path, Digest>
    requires RowsOk(summary)
  {
    Dict(RowsFiles(summary.rows))
  }

  predicate SummaryOk(summary: Summary) {
    RowsOk(summary) && |Declared(summary)| <= MAX_FILES
  }

  method AddLane(files: map<Path, Digest>, lane: Option<Lane>, ghost list: seq<(Path, Digest)>)
    returns (r: Option<map<Path, Digest>>)
    requires files == Dict(list)
    ensures r.Some? <==> LaneOk(lane)
    ensures r.Some? ==> r.value == Dict(list + LaneFiles(lane))
  {
    if lane.None? {
      return None;
    }
    var l := lane.value;
    if !IdentityOk(l.stdout) || !IdentityOk(l.stderr) || l.proof.None? || !IdentityOk(l.proof.value) {
      return None;
    }
    var out := files[l.stdout.path.value := l.stdout.sha.value];
    out := out[l.stderr.path.value := l.stderr.sha.value];
    out := out[l.proof.value.path.value := l.proof.value.sha.value];
    DictLane(list, LaneFiles(lane));
    return Some(out);
  }

  lemma DictSnoc(list: seq<(Path, Digest)>, entry: (Path, Digest))
    ensures Dict(list + [entry]) == Dict(list)[entry.0 := entry.1]
  {
    assert (list + [entry])[..|list|] == list;
  }

  lemma DictLane(list: seq<(Path, Digest)>, three: seq<(Path, Digest)>)
    requires |three| == 3
    ensures Dict(list + three) ==
            Dict(list)[three[0].0 := three[0].1][three[1].0 := three[1].1][three[2].0 := three[2].1]
  {
    DictSnoc(list, three[0]);
    DictSnoc(list + [three[0]], three[1]);
    DictSnoc(list + [three[0]] + [three[1]], three[2]);
    assert list + [three[0]] + [three[1]] + [three[2]] == list + three;
  }

  /** expected_files: every lane of every row must declare its three artifacts. */
  method ExpectedFiles(summary: Summary) returns (r: Option<map<Path, Digest>>)
    ensures r.Some? <==> SummaryOk(summary)
    ensures r.Some? ==> r.value == Declared(summary)
    ensures r.Some? ==> forall p :: p in r.value <==> exists k :: Mentions(summary.rows, k, p)
    ensures r.Some? ==>
              forall p, k: nat | LastMention(summary.rows, k, p) ::
                p in r.value && Some(r.value[p]) == Mention(summary.rows, k).sha
  {
    hide Mention, LastMention, Mentions;
    var rows := summary.rows;
    if rows == [] {
      return None;
    }
    var files: map<Path, Digest> := map[];
    for i := 0 to |rows|
      invariant forall row | row in rows[..i] :: RowOk(row)
      invariant files == Dict(RowsFiles(rows[..i]))
    {
      assert rows[i] in rows;
      if rows[i].BadRow? {
        return None;
      }
      ghost var list := RowsFiles(rows[..i]);
      var cpu := AddLane(files, rows[i].cpu, list);
      if cpu.None? {
        return None;
      }
      var metal := AddLane(cpu.value, rows[i].metal, list + LaneFiles(rows[i].cpu));
      if metal.None? {
        return None;
      }
      assert rows[..i + 1] == rows[..i] + [rows[i]] && rows[..i + 1][..i] == rows[..i];
      files := metal.value;
    }
    assert rows[..|rows|] == rows;
    if |files| > MAX_FILES {
      return None;
    }
    DeclaredExactly(summary);
    return Some(files);
  }

  // --- the manifest ---------------------------------------------------------

  function FilesOf(paths: seq<Path>, declared: map<Path, Digest>): seq<FileIdentity>
    requires forall p | p in paths :: p in declared
  {
    if paths == [] then []
    else
      var p := paths[|paths| - 1];
      assert p in paths;
      FilesOf(paths[..|paths| - 1], declared) + [FileIdentity(p, Size(declared[p].content), declared[p])]
  }

  function TotalBytes(files: seq<FileIdentity>): nat {
    if files == [] then 0 else TotalBytes(files[..|files| - 1]) + files[|files| - 1].bytes
  }

  /** The one manifest a summary file can have. */
  ghost function ManifestOf(c: Content): Manifest
    requires c.SummaryFile? && SummaryOk(c.summary)
  {
    var declared := Declared(c.summary);
    var files := FilesOf(SortedList(declared.Keys), declared);
    Manifest(c.summary.protocol, c.summary.schemaVersion, Size(c), Sha(c),
             c.summary.configuration, files, |files|, TotalBytes(files),
             HostFieldsAbsent(c.summary.configuration))
  }

  predicate HostFieldsAbsent(c: Configuration) {
    c.Configuration? && (c.hostEnvironment.None? || c.hostLoad.None?)
  }

  /** Every declared artifact is present, small enough, and has its declared digest. */
  predicate Present(matrix: Matrix, declared: map<Path, Digest>) {
    forall p | p in declared ::
      p in matrix.files && Sha(matrix.files[p]) == declared[p] && Size(matrix.files[p]) <= MAX_FILE_BYTES
  }

  ghost predicate MatrixOk(matrix: Matrix, expectedReport: Option<Content>) {
    && matrix.summary.Some? && matrix.summary.value.SummaryFile?
    && (expectedReport.Some? ==> expectedReport == matrix.summary)
    && SummaryOk(matrix.summary.value.summary)
    && Present(matrix, Declared(matrix.summary.value.summary))
    && ManifestOf(matrix.summary.value).artifactBytes <= MAX_TOTAL_BYTES
    && matrix.summary.value.summary.configuration.Configuration?
  }

  lemma {:induction false} FilesOfAt(paths: seq<Path>, declared: map<Path, Digest>, i: nat)
    requires (forall p | p in paths :: p in declared) && i < |paths|
    ensures |FilesOf(paths, declared)| == |paths|
    ensures FilesOf(paths, declared)[i] == FileIdentity(paths[i], Size(declared[paths[i]].content), declared[paths[i]])
  {
    var n := |paths| - 1;
    assert paths[n] in paths;
    FilesOfLength(paths[..n], declared);
    if i < n {
      FilesOfAt(paths[..n], declared, i);
    }
  }

  lemma {:induction false} FilesOfLength(paths: seq<Path>, declared: map<Path, Digest>)
    requires forall p | p in paths :: p in declared
    ensures |FilesOf(paths, declared)| == |paths|
  {
    if paths != [] {
      FilesOfLength(paths[..|paths| - 1], declared);
    }
  }

  lemma {:induction false} TotalMonotone(paths: seq<Path>, declared: map<Path, Digest>, k: nat)
    requires (forall p | p in paths :: p in declared) && k <= |paths|
    ensures TotalBytes(FilesOf(paths[..k], declared)) <= TotalBytes(FilesOf(paths, declared))
    decreases |paths| - k
  {
    if k == |paths| {
      assert paths[..k] == paths;
    } else {
      TotalMonotone(paths, declared, k + 1);
      TotalStep(paths, declared, k);
    }
  }

  lemma TotalStep(paths: seq<Path>, declared: map<Path, Digest>, k: nat)
    requires (forall p | p in paths :: p in declared) && k < |paths|
    ensures paths[k] in declared
    ensures FilesOf(paths[..k + 1], declared) ==
            FilesOf(paths[..k], declared)
            + [FileIdentity(paths[k], Size(declared[paths[k]].content), declared[paths[k]])]
    ensures TotalBytes(FilesOf(paths[..k + 1], declared)) ==
            TotalBytes(FilesOf(paths[..k], declared)) + Size(declared[paths[k]].content)
  {
    assert paths[k] in paths;
    assert paths[..k + 1][..k] == paths[..k];
    var front := FilesOf(paths[..k], declared);
    var last := FileIdentity(paths[k], Size(declared[paths[k]].content), declared[paths[k]]);
    assert (front + [last])[..|front|] == front;
  }

  /** The file identities of the manifest, and their total size. */
  method CollectFiles(matrix: Matrix, declared: map<Path, Digest>)
    returns (ok: bool, files: seq<FileIdentity>, total: nat)
    ensures ok <==> Present(matrix, declared)
                    && TotalBytes(FilesOf(SortedList(declared.Keys), declared)) <= MAX_TOTAL_BYTES
    ensures ok ==> files == FilesOf(SortedList(declared.Keys), declared) && total == TotalBytes(files)
  {
    hide SortedList, FilesOf, TotalBytes, Size;
    var paths := Sorted(declared.Keys);
    files, total := [], 0;
    EmptyFiles(paths, declared);
    for i := 0 to |paths|
      invariant forall k | 0 <= k < i ::
                  paths[k] in matrix.files && Sha(matrix.files[paths[k]]) == declared[paths[k]]
                  && Size(matrix.files[paths[k]]) <= MAX_FILE_BYTES
      invariant files == FilesOf(paths[..i], declared) && total == TotalBytes(files) <= MAX_TOTAL_BYTES
    {
      var p := paths[i];
      assert p in paths;
      if p !in matrix.files {
        return false, files, total;
      }
      var content := matrix.files[p];
      if Size(content) > MAX_FILE_BYTES {
        return false, files, total;
      }
      if Sha(content) != declared[p] {
        return false, files, total;
      }
      TotalStep(paths, declared, i);
      total := total + Size(content);
      if total > MAX_TOTAL_BYTES {
        TotalMonotone(paths, declared, i + 1);
        return false, files, total;
      }
      files := files + [FileIdentity(p, Size(content), Sha(content))];
    }
    assert paths[..|paths|] == paths;
    return true, files, total;
  }

  lemma EmptyFiles(paths: seq<Path>, declared: map<Path, Digest>)
    ensures FilesOf(paths[..0], declared) == [] && TotalBytes([]) == 0
  {
  }

  datatype BuildResult = Built(manifest: Manifest, raw: Content) | BuildFailed

  /**
    build_manifest.  It succeeds exactly on complete, undamaged and bounded
    matrices, and the manifest is then the one its summary determines.
  */
  method BuildManifest(matrix: Matrix, expectedReport: Option<Content>) returns (r: BuildResult)
    ensures r.Built? <==> MatrixOk(matrix, expectedReport)
    ensures r.Built? ==> r.raw == matrix.summary.value && r.manifest == ManifestOf(r.raw)
  {
    hide SortedList, FilesOf, TotalBytes, Declared, RowsOk, Present;
    if matrix.summary.None? || !matrix.summary.value.SummaryFile? {
      return BuildFailed;
    }
    var raw := matrix.summary.value;
    if expectedReport.Some? && expectedReport.value != raw {
      return BuildFailed;
    }
    var expected := ExpectedFiles(raw.summary);
    if expected.None? {
      return BuildFailed;
    }
    var ok, files, total := CollectFiles(matrix, expected.value);
    if !ok {
      return BuildFailed;
    }
    var configuration := raw.summary.configuration;
    if configuration.BadConfiguration? {
      return BuildFailed;
    }
    var manifest := Manifest(
      raw.summary.protocol, raw.summary.schemaVersion, Size(raw), Sha(raw), configuration,
      files, |files|, total, configuration.hostEnvironment.None? || configuration.hostLoad.None?);
    return Built(manifest, raw);
  }

  lemma FilesOfPaths(paths: seq<Path>, declared: map<Path, Digest>)
    requires forall p | p in paths :: p in declared
    ensures |FilesOf(paths, declared)| == |paths|
    ensures forall i | 0 <= i < |paths| ::
              && paths[i] in declared
              && FilesOf(paths, declared)[i]
                 == FileIdentity(paths[i], Size(declared[paths[i]].content), declared[paths[i]])
  {
    FilesOfLength(paths, declared);
    forall i | 0 <= i < |paths|
      ensures paths[i] in declared
      ensures FilesOf(paths, declared)[i]
              == FileIdentity(paths[i], Size(declared[paths[i]].content), declared[paths[i]])
    {
      assert paths[i] in paths;
      FilesOfAt(paths, declared, i);
    }
  }

  /** The manifest lists every declared path once, with its declared digest. */
  lemma ManifestLists(c: Content)
    requires c.SummaryFile? && SummaryOk(c.summary)
    ensures var files := ManifestOf(c).files; var declared := Declared(c.summary);
            && (forall i | 0 <= i < |files| :: files[i].path in declared && files[i].sha == declared[files[i].path])
            && (forall p | p in declared :: exists i :: 0 <= i < |files| && files[i].path == p)
            && (forall i, j | 0 <= i < j < |files| :: files[i].path != files[j].path)
  {
    hide SortedList, FilesOf, Declared, TotalBytes, RowsOk;
    var declared := Declared(c.summary);
    var paths := SortedList(declared.Keys);
    FilesOfPaths(paths, declared);
    forall p | p in declared ensures exists i :: 0 <= i < |paths| && ManifestOf(c).files[i].path == p {
      assert p in paths;
      var i :| 0 <= i < |paths| && paths[i] == p;
      assert ManifestOf(c).files[i].path == p;
    }
  }

  // --- what the rows themselves mention -------------------------------------

  /** The k-th artifact a list of rows mentions: per row the cpu lane, then the
      metal lane; per lane the stdout, then the stderr, then the proof. */
  function Mention(rows: seq<Row>, k: nat): Identity
    requires (forall row | row in rows :: RowOk(row)) && k < 6 * |rows|
  {
    var row := rows[k / 6];
    assert row in rows && RowOk(row);
    var lane := if k % 6 < 3 then row.cpu.value else row.metal.value;
    if k % 3 == 0 then lane.stdout else if k % 3 == 1 then lane.stderr else lane.proof.value
  }

  predicate Mentions(rows: seq<Row>, k: nat, p: Path)
    requires forall row | row in rows :: RowOk(row)
  {
    k < 6 * |rows| && Mention(rows, k).path == Some(p)
  }

  /** No later mention has the path. */
  predicate LastMention(rows: seq<Row>, k: nat, p: Path)
    requires forall row | row in rows :: RowOk(row)
  {
    Mentions(rows, k, p) && forall j | k < j < 6 * |rows| :: !Mentions(rows, j, p)
  }

  lemma {:induction false} RowsFilesAt(rows: seq<Row>)
    requires forall row | row in rows :: RowOk(row)
    ensures |RowsFiles(rows)| == 6 * |rows|
    ensures forall k: nat | k < 6 * |rows| ::
              Mention(rows, k).path.Some? && Mention(rows, k).sha.Some?
              && RowsFiles(rows)[k] == (Mention(rows, k).path.value, Mention(rows, k).sha.value)
  {
    if rows != [] {
      var n := |rows| - 1;
      RowsFilesAt(rows[..n]);
      assert rows[n] in rows && RowOk(rows[n]);
      forall k: nat | k < 6 * |rows|
        ensures Mention(rows, k).path.Some? && Mention(rows, k).sha.Some?
        ensures RowsFiles(rows)[k] == (Mention(rows, k).path.value, Mention(rows, k).sha.value)
      {
        if k < 6 * n {
          assert Mention(rows, k) == Mention(rows[..n], k);
        } else {
          LastRow(rows, k);
        }
      }
    }
  }

  lemma LastRow(rows: seq<Row>, k: nat)
    requires rows != [] && (forall row | row in rows :: RowOk(row)) && 6 * (|rows| - 1) <= k < 6 * |rows|
    requires |RowsFiles(rows[..|rows| - 1])| == 6 * (|rows| - 1)
    ensures Mention(rows, k).path.Some? && Mention(rows, k).sha.Some? && k < |RowsFiles(rows)|
    ensures RowsFiles(rows)[k] == (Mention(rows, k).path.value, Mention(rows, k).sha.value)
  {
    var n := |rows| - 1;
    var d := k - 6 * n;
    assert rows[n] in rows && RowOk(rows[n]);
    assert k / 6 == n && k % 6 == d && k % 3 == d % 3;
    assert RowsFiles(rows)[k] == (LaneFiles(rows[n].cpu) + LaneFiles(rows[n].metal))[d];
  }

  lemma {:induction false} DictKeys(files: seq<(Path, Digest)>, p: Path)
    ensures p in Dict(files) <==> exists k :: 0 <= k < |files| && files[k].0 == p
  {
    if files != [] {
      var n := |files| - 1;
      DictKeys(files[..n], p);
      if k :| 0 <= k < n && files[..n][k].0 == p { assert files[k].0 == p; }
      if k :| 0 <= k < n && files[k].0 == p { assert files[..n][k].0 == p; }
    }
  }

  lemma {:induction false} DictLast(files: seq<(Path, Digest)>, k: nat)
    requires k < |files| && forall j | k < j < |files| :: files[j].0 != files[k].0
    ensures files[k].0 in Dict(files) && Dict(files)[files[k].0] == files[k].1
  {
    var n := |files| - 1;
    if k < n {
      DictLast(files[..n], k);
    }
  }

  /** What a summary declares: the paths its rows mention, each with the digest given last. */
  lemma DeclaredExactly(summary: Summary)
    requires RowsOk(summary)
    ensures forall p :: p in Declared(summary) <==> exists k :: Mentions(summary.rows, k, p)
    ensures forall p, k: nat | LastMention(summary.rows, k, p) ::
              p in Declared(summary) && Some(Declared(summary)[p]) == Mention(summary.rows, k).sha
  {
    var rows := summary.rows;
    var files := RowsFiles(rows);
    RowsFilesAt(rows);
    hide Mention, RowsFiles, Dict;
    forall p ensures p in Declared(summary) <==> exists k :: Mentions(rows, k, p) {
      DictKeys(files, p);
      if k :| 0 <= k < |files| && files[k].0 == p { assert Mentions(rows, k, p); }
      if k: nat :| Mentions(rows, k, p) { assert files[k].0 == p; }
    }
    forall p, k: nat | LastMention(rows, k, p)
      ensures p in Declared(summary) && Some(Declared(summary)[p]) == Mention(rows, k).sha
    {
      forall j | k < j < |files| ensures files[j].0 != p { assert !Mentions(rows, j, p); }
      DictLast(files, k);
    }
  }

  /** Something mentioned has a last mention. */
  lemma {:induction false} LastExists(rows: seq<Row>, k: nat, p: Path) returns (last: nat)
    requires (forall row | row in rows :: RowOk(row)) && Mentions(rows, k, p)
    ensures LastMention(rows, last, p)
    decreases 6 * |rows| - k
  {
    hide Mention;
    if j :| k < j < 6 * |rows| && Mentions(rows, j, p) {
      last := LastExists(rows, j, p);
    } else {
      last := k;
    }
  }

  /** Every declared path once, in path order, with its digest and the size of that digest's content. */
  predicate ListsFiles(files: seq<FileIdentity>, declared: map<Path, Digest>) {
    && (forall i | 0 <= i < |files| ::
          files[i].path in declared && files[i].sha == declared[files[i].path]
          && files[i].bytes == Size(files[i].sha.content))
    && (forall p | p in declared :: exists i :: 0 <= i < |files| && files[i].path == p)
    && forall i, j | 0 <= i < j < |files| :: Before(files[i].path, files[j].path)
  }

  lemma ManifestListsFiles(c: Content)
    requires c.SummaryFile? && SummaryOk(c.summary)
    ensures ListsFiles(ManifestOf(c).files, Declared(c.summary))
  {
    hide SortedList, FilesOf, Declared, TotalBytes, RowsOk, Size, Before;
    var declared := Declared(c.summary);
    ManifestLists(c);
    FilesOfPaths(SortedList(declared.Keys), declared);
  }

  predicate IsListed(files: seq<FileIdentity>, p: Option<Path>) {
    exists i :: 0 <= i < |files| && Some(files[i].path) == p
  }

  /** The digest is the one given with the path's last mention. */
  ghost predicate Lasts(rows: seq<Row>, f: FileIdentity)
    requires forall row | row in rows :: RowOk(row)
  {
    exists k: nat :: LastMention(rows, k, f.path) && Some(f.sha) == Mention(rows, k).sha
  }

  /** The files, by the rows alone: every mentioned path once, in path order, with
      the digest given at its last mention and the size of that digest's content. */
  ghost predicate ListsMentions(files: seq<FileIdentity>, rows: seq<Row>)
    requires forall row | row in rows :: RowOk(row)
  {
    && (forall k: nat | k < 6 * |rows| :: IsListed(files, Mention(rows, k).path))
    && (forall i | 0 <= i < |files| :: Lasts(rows, files[i]))
    && (forall i, j | 0 <= i < j < |files| :: Before(files[i].path, files[j].path))
    && forall i | 0 <= i < |files| :: files[i].bytes == Size(files[i].sha.content)
  }

  lemma MentionIsListed(files: seq<FileIdentity>, summary: Summary, k: nat)
    requires RowsOk(summary) && ListsFiles(files, Declared(summary)) && k < 6 * |summary.rows|
    ensures IsListed(files, Mention(summary.rows, k).path)
  {
    DeclaredExactly(summary);
    RowsFilesAt(summary.rows);
    hide Declared, RowsFiles, Mention, Size, Before, LastMention, RowOk;
    var p := Mention(summary.rows, k).path.value;
    assert Mentions(summary.rows, k, p);
    assert p in Declared(summary);
  }

  lemma FileIsMentioned(files: seq<FileIdentity>, summary: Summary, i: nat)
    requires RowsOk(summary) && ListsFiles(files, Declared(summary)) && i < |files|
    ensures Lasts(summary.rows, files[i])
  {
    DeclaredExactly(summary);
    hide Declared, RowsFiles, Mention, Size, Before, LastMention, RowOk;
    var k: nat :| Mentions(summary.rows, k, files[i].path);
    var last := LastExists(summary.rows, k, files[i].path);
  }

  lemma MentionsListed(files: seq<FileIdentity>, summary: Summary)
    requires RowsOk(summary) && ListsFiles(files, Declared(summary))
    ensures ListsMentions(files, summary.rows)
  {
    hide Declared, Mention, Lasts, Size, Before, IsListed;
    forall k: nat | k < 6 * |summary.rows| ensures IsListed(files, Mention(summary.rows, k).path) {
      MentionIsListed(files, summary, k);
    }
    forall i | 0 <= i < |files| ensures Lasts(summary.rows, files[i]) {
      FileIsMentioned(files, summary, i);
    }
  }

  /** The manifest lists what the rows mention, and counts it. */
  lemma ManifestListsMentions(c: Content)
    requires c.SummaryFile? && SummaryOk(c.summary)
    ensures var m := ManifestOf(c);
            && ListsMentions(m.files, c.summary.rows)
            && m.artifactFiles == |m.files|
            && m.artifactBytes == TotalBytes(m.files)
  {
    hide ListsFiles, ListsMentions, Declared, RowsOk, FilesOf, TotalBytes;
    ManifestListsFiles(c);
    MentionsListed(ManifestOf(c).files, c.summary);
  }

  /** Beside the files the manifest holds the report's size and digest and the summary's own fields, and
      says whether host fields are absent. */
  lemma ManifestSays(c: Content)
    requires c.SummaryFile? && SummaryOk(c.summary)
    ensures var m := ManifestOf(c);
            && m.reportSha == Sha(c) && m.reportBytes == Size(c)
            && m.protocol == c.summary.protocol && m.schemaVersion == c.summary.schemaVersion
            && m.provenance == c.summary.configuration
            && (c.summary.configuration.Configuration? ==>
                  (m.hostFieldsAbsent <==> c.summary.configuration.hostEnvironment == None
                                           || c.summary.configuration.hostLoad == None))
  {
  }

  /** Some path's file is missing, too large, or not of the digest given at the path's last mention. */
  ghost predicate Damaged(matrix: Matrix, rows: seq<Row>)
    requires forall row | row in rows :: RowOk(row)
  {
    exists k: nat, p :: LastMention(rows, k, p)
      && !(p in matrix.files && Some(Sha(matrix.files[p])) == Mention(rows, k).sha
           && Size(matrix.files[p]) <= 67108864)
  }

  lemma PresentExactly(matrix: Matrix, summary: Summary)
    requires RowsOk(summary)
    ensures Present(matrix, Declared(summary)) <==> !Damaged(matrix, summary.rows)
  {
    DeclaredExactly(summary);
    hide Declared, Mention, LastMention, Size;
    if !Present(matrix, Declared(summary)) {
      var p :| p in Declared(summary)
               && !(p in matrix.files && Sha(matrix.files[p]) == Declared(summary)[p]
                    && Size(matrix.files[p]) <= MAX_FILE_BYTES);
      var k: nat :| Mentions(summary.rows, k, p);
      var last := LastExists(summary.rows, k, p);
      assert LastMention(summary.rows, last, p);
    }
  }

  /** A matrix is valid exactly if its summary is there and the expected report, its rows are complete
      and mention at most 256 paths, no file is damaged, all are within bounds, and the configuration is one. */
  lemma MatrixOkExactly(matrix: Matrix, expectedReport: Option<Content>)
    ensures MatrixOk(matrix, expectedReport) <==>
              && matrix.summary.Some? && matrix.summary.value.SummaryFile?
              && (expectedReport.Some? ==> expectedReport == matrix.summary)
              && var summary := matrix.summary.value.summary;
              && RowsOk(summary) && |Declared(summary)| <= 256 && !Damaged(matrix, summary.rows)
              && TotalBytes(ManifestOf(matrix.summary.value).files) <= 268435456
              && summary.configuration.Configuration?
  {
    hide Declared, Present, Damaged, FilesOf, TotalBytes, SortedList;
    if matrix.summary.Some? && matrix.summary.value.SummaryFile? && RowsOk(matrix.summary.value.summary) {
      PresentExactly(matrix, matrix.summary.value.summary);
    }
  }
}
