/**
  Moving and removing files in an archive, one at a time: the first that cannot
  be done stops the rest.  A path is its parts below the archive directory.
*/
module FileMoves {

  type Bytes = seq<bv8>
  type Path = seq<string>
  type Files = map<Path, Bytes>

  predicate OffRuns(p: Path) {
    p == [] || p[0] != "runs"
  }

  datatype Move = Move(from: Path, to: Path)

  /** A file or a directory is there. */
  predicate Exists(files: Files, p: Path) {
    exists q | q in files :: p <= q
  }

  /** A file stands where a parent directory is needed. */
  predicate Blocked(files: Files, p: Path) {
    exists k | 0 <= k < |p| :: p[..k] in files
  }

  predicate CanMove(files: Files, m: Move) {
    !Blocked(files, m.to) && !Exists(files, m.to) && m.from in files
  }

  function MoveOne(files: Files, m: Move): Files
    requires m.from in files
  {
    (files - {m.from})[m.to := files[m.from]]
  }

  /** The files after the moves, and whether they all went through; the first that cannot stops the rest. */
  function MoveAll(files: Files, moves: seq<Move>): (Files, bool) {
    if moves == [] then (files, true)
    else
      var n := |moves| - 1;
      var (now, ok) := MoveAll(files, moves[..n]);
      if ok && CanMove(now, moves[n]) then (MoveOne(now, moves[n]), true) else (now, false)
  }

  function RemoveAll(files: Files, removals: seq<Path>): (Files, bool) {
    if removals == [] then (files, true)
    else
      var n := |removals| - 1;
      var (now, ok) := RemoveAll(files, removals[..n]);
      if ok && removals[n] in now then (now - {removals[n]}, true) else (now, false)
  }

  function ExecuteAll(files: Files, moves: seq<Move>, removals: seq<Path>): (Files, bool) {
    var (now, ok) := MoveAll(files, moves);
    if ok then RemoveAll(now, removals) else (now, false)
  }

  /** Files come from outside the new tree and go into it. */
  predicate IntoRuns(moves: seq<Move>) {
    forall m | m in moves :: OffRuns(m.from) && !OffRuns(m.to)
  }

  predicate OffRunsAll(removals: seq<Path>) {
    forall p | p in removals :: OffRuns(p)
  }

  predicate At(files: Files, p: Path, content: Bytes) {
    p in files && files[p] == content
  }

  predicate Moves(moves: seq<Move>, from: Path, to: Path) {
    Move(from, to) in moves
  }

  /** Each file is where it was or where a move was to put it. */
  ghost predicate Somewhere(before: Files, after: Files, moves: seq<Move>, p: Path)
    requires p in before
  {
    At(after, p, before[p]) || exists to :: Moves(moves, p, to) && At(after, to, before[p])
  }

  lemma {:induction false} MovesKeepFiles(files: Files, moves: seq<Move>)
    requires IntoRuns(moves)
    ensures var now := MoveAll(files, moves).0;
            && (forall p | p in files :: Somewhere(files, now, moves, p))
            && (forall p | p in now && OffRuns(p) :: At(files, p, now[p]))
  {
    if moves != [] {
      var n := |moves| - 1;
      var m := moves[n];
      assert m in moves && forall x | x in moves[..n] :: x in moves;
      MovesKeepFiles(files, moves[..n]);
      var (mid, ok) := MoveAll(files, moves[..n]);
      var now := MoveAll(files, moves).0;
      forall p | p in files ensures Somewhere(files, now, moves, p) {
        assert Somewhere(files, mid, moves[..n], p);
        if !At(mid, p, files[p]) {
          var to :| Moves(moves[..n], p, to) && At(mid, to, files[p]);
          assert Moves(moves, p, to);
        } else if ok && CanMove(mid, m) && p == m.from {
          assert Moves(moves, p, m.to);
        }
      }
    }
  }

  function Sources(moves: seq<Move>): set<Path> {
    set m | m in moves :: m.from
  }

  function Targets(moves: seq<Move>): set<Path> {
    set m | m in moves :: m.to
  }

  predicate OneEach(moves: seq<Move>) {
    forall i, j | 0 <= i < j < |moves| :: moves[i].from != moves[j].from && moves[i].to != moves[j].to
  }

  /** The file is at its destination with its bytes, and nowhere else. */
  predicate Landed(files: Files, now: Files, m: Move) {
    m.from in files && m.from !in now && m.to !in files && At(now, m.to, files[m.from])
  }

  predicate AllLanded(files: Files, now: Files, moves: seq<Move>) {
    forall m | m in moves :: Landed(files, now, m)
  }

  predicate OthersKept(files: Files, now: Files, moves: seq<Move>) {
    && (forall p | p in files :: p in Sources(moves) || At(now, p, files[p]))
    && (forall p | p in now :: p in Targets(moves) || At(files, p, now[p]))
  }

  /** When all go through, every file moved has landed, no two moves share a
      source or a destination, and the other files are untouched. */
  lemma {:induction false} MovesComplete(files: Files, moves: seq<Move>)
    requires IntoRuns(moves) && MoveAll(files, moves).1
    ensures var now := MoveAll(files, moves).0; AllLanded(files, now, moves) && OthersKept(files, now, moves)
    ensures OneEach(moves)
  {
    if moves != [] {
      var n := |moves| - 1;
      var m := moves[n];
      assert moves == moves[..n] + [m];
      assert m in moves && forall x | x in moves[..n] :: x in moves;
      MovesComplete(files, moves[..n]);
      var mid := MoveAll(files, moves[..n]).0;
      hide MoveAll, AllLanded, OthersKept, OneEach, IntoRuns, CanMove, MoveOne;
      NextCanMove(files, moves);
      OneMoreLanded(files, mid, moves[..n], m);
      OneMoreKept(files, mid, moves[..n], m);
      OneMoreEach(files, mid, moves[..n], m);
    }
  }

  lemma NextCanMove(files: Files, moves: seq<Move>)
    requires moves != [] && MoveAll(files, moves).1
    ensures var n := |moves| - 1; var (mid, ok) := MoveAll(files, moves[..n]);
            ok && CanMove(mid, moves[n]) && MoveAll(files, moves).0 == MoveOne(mid, moves[n])
  {
  }

  lemma OneMoreLanded(files: Files, mid: Files, moves: seq<Move>, m: Move)
    requires IntoRuns(moves + [m]) && CanMove(mid, m)
    requires AllLanded(files, mid, moves) && OthersKept(files, mid, moves)
    ensures AllLanded(files, MoveOne(mid, m), moves + [m])
  {
    NewMove(files, mid, moves, m);
    forall x | x in moves ensures Landed(files, MoveOne(mid, m), x) {
      assert x in moves + [m];
    }
  }

  /** The next source is an original file not moved yet, and its destination is new. */
  lemma NewMove(files: Files, mid: Files, moves: seq<Move>, m: Move)
    requires IntoRuns(moves + [m]) && CanMove(mid, m)
    requires AllLanded(files, mid, moves) && OthersKept(files, mid, moves)
    ensures At(files, m.from, mid[m.from]) && m.to !in files && m.to !in mid
    ensures OffRuns(m.from) && !OffRuns(m.to)
  {
    assert m in moves + [m];
    assert forall x | x in moves :: x in moves + [m];
  }

  lemma OneMoreKept(files: Files, mid: Files, moves: seq<Move>, m: Move)
    requires IntoRuns(moves + [m]) && CanMove(mid, m)
    requires AllLanded(files, mid, moves) && OthersKept(files, mid, moves)
    ensures OthersKept(files, MoveOne(mid, m), moves + [m])
  {
    NewMove(files, mid, moves, m);
    assert m in moves + [m] && forall x | x in moves :: x in moves + [m];
    assert m.from in Sources(moves + [m]) && m.to in Targets(moves + [m]);
    assert Sources(moves) <= Sources(moves + [m]) && Targets(moves) <= Targets(moves + [m]);
  }

  lemma OneMoreEach(files: Files, mid: Files, moves: seq<Move>, m: Move)
    requires IntoRuns(moves + [m]) && CanMove(mid, m) && OneEach(moves)
    requires AllLanded(files, mid, moves) && OthersKept(files, mid, moves)
    ensures OneEach(moves + [m])
  {
    NewMove(files, mid, moves, m);
    forall i | 0 <= i < |moves| ensures moves[i].from != m.from && moves[i].to != m.to {
      assert moves[i] in moves && Landed(files, mid, moves[i]);
    }
  }

  lemma {:induction false} RemovalsKeepOthers(files: Files, removals: seq<Path>)
    ensures var (now, ok) := RemoveAll(files, removals);
            && (forall p | p in now :: At(files, p, now[p]))
            && (forall p | p in files :: p in removals || At(now, p, files[p]))
            && (ok ==> forall p | p in removals :: p in files && p !in now)
  {
    if removals != [] {
      var n := |removals| - 1;
      RemovalsKeepOthers(files, removals[..n]);
      assert removals == removals[..n] + [removals[n]];
    }
  }
}
