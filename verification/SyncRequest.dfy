// The checks syncApply makes before it touches the vault, and what acceptance is worth:
// no operation of an accepted request can be obstructed by another one.

module SyncRequest {
  import opened Wrappers
  import opened Paths
  import opened FileStore
  import opened TreeCheck

  datatype WriteRequest = WriteRequest(path: Path, content: Hash, expected: Option<Hash>)
  datatype DeleteRequest = DeleteRequest(path: Path, expected: Hash)
  datatype Request = Request(
    writes: seq<WriteRequest>,
    deletes: seq<DeleteRequest>,
    directories: seq<Path>,
    deleteDirectories: seq<Path>,
    dryRun: bool)

  function WritePaths(req: Request): set<Path> {
    set w | w in req.writes :: w.path
  }

  function DeletePaths(req: Request): set<Path> {
    set d | d in req.deletes :: d.path
  }

  function NewDirs(req: Request): set<Path> {
    set d | d in req.directories
  }

  function OldDirs(req: Request): set<Path> {
    set d | d in req.deleteDirectories
  }

  predicate AllVaultPaths(req: Request) {
    forall p | p in WritePaths(req) + DeletePaths(req) + NewDirs(req) + OldDirs(req) :: IsVaultPath(p)
  }

  // Each of the four parts, segment by segment.
  lemma PathsOfEveryPart(req: Request)
    ensures AllVaultPaths(req) <==>
              && (forall w | w in req.writes :: HasVaultSegments(w.path))
              && (forall d | d in req.deletes :: HasVaultSegments(d.path))
              && (forall d | d in req.directories :: HasVaultSegments(d))
              && (forall d | d in req.deleteDirectories :: HasVaultSegments(d))
  {
    forall p ensures IsVaultPath(p) <==> HasVaultSegments(p) {
      VaultPathsHaveVaultSegments(p);
    }
    forall w | w in req.writes ensures w.path in WritePaths(req) {}
    forall d | d in req.deletes ensures d.path in DeletePaths(req) {}
    forall d | d in req.directories ensures d in NewDirs(req) {}
    forall d | d in req.deleteDirectories ensures d in OldDirs(req) {}
  }

  function RequestEntries(req: Request): seq<Entry> {
    seq(|req.writes|, i requires 0 <= i < |req.writes| => Entry(req.writes[i].path, true)) +
    seq(|req.deletes|, i requires 0 <= i < |req.deletes| => Entry(req.deletes[i].path, true)) +
    seq(|req.directories|, i requires 0 <= i < |req.directories| => Entry(req.directories[i], false)) +
    seq(|req.deleteDirectories|, i requires 0 <= i < |req.deleteDirectories| => Entry(req.deleteDirectories[i], false))
  }

  // Nothing is created beneath a directory the request deletes, and everything listed
  // beneath it is itself scheduled for deletion.
  ghost predicate Emptied(req: Request, files: set<Path>, dirs: set<Path>) {
    forall d | d in OldDirs(req) :: EmptiedBy(req, files, dirs, d)
  }

  ghost predicate EmptiedBy(req: Request, files: set<Path>, dirs: set<Path>, d: Path) {
    && (forall p | p in WritePaths(req) :: !Under(d, p))
    && (forall p | p in NewDirs(req) :: !Under(d, p))
    && (forall p | p in files + dirs && Under(d, p) :: p in DeletePaths(req) || p in OldDirs(req))
  }

  ghost predicate Acceptable(req: Request, files: set<Path>, dirs: set<Path>) {
    && ValidTree(RequestEntries(req))
    && ValidSets(files, dirs)
    && Emptied(req, files, dirs)
    && ValidSets(files - DeletePaths(req) + WritePaths(req), dirs - OldDirs(req) + NewDirs(req))
  }

  method CheckRequest(req: Request, current: seq<Entry>) returns (ok: bool)
    requires NoRepeats(current)
    ensures ok <==> Acceptable(req, FilesOf(current), DirsOf(current))
  {
    ok := AssertValidTree(RequestEntries(req));
    if !ok {
      return;
    }
    ok := AssertValidTree(current);
    ValidTreeIsValidSets(current);
    if !ok {
      return;
    }
    RequestSets(req);
    ok := CheckEmptied(req, current);
    if !ok {
      return;
    }
    var future := FutureEntries(req, current);
    ok := AssertValidTree(future);
    FutureValidity(req, current, future);
  }

  method CheckEmptied(req: Request, current: seq<Entry>) returns (ok: bool)
    requires ValidTree(RequestEntries(req))
    ensures ok <==> Emptied(req, FilesOf(current), DirsOf(current))
  {
    RequestSets(req);
    var fileDeletes, directoryDeletes := DeletePaths(req), OldDirs(req);
    for i := 0 to |req.deleteDirectories|
      invariant forall j | 0 <= j < i :: EmptiedBy(req, FilesOf(current), DirsOf(current), req.deleteDirectories[j])
    {
      var d := req.deleteDirectories[i];
      assert d in OldDirs(req);
      if exists w | w in req.writes :: Under(d, w.path) {
        ghost var w :| w in req.writes && Under(d, w.path);
        assert w.path in WritePaths(req);
        return false;
      }
      if exists c | c in req.directories :: c == d || Under(d, c) {
        ghost var c :| c in req.directories && (c == d || Under(d, c));
        assert c in NewDirs(req);
        return false;
      }
      if exists e | e in current :: Under(d, e.path) && e.path !in fileDeletes && e.path !in directoryDeletes {
        return false;
      }
    }
    assert req.deleteDirectories[..|req.deleteDirectories|] == req.deleteDirectories;
    ok := true;
  }

  // The listing after the request: what stays, then the new directories, then the writes.
  method FutureEntries(req: Request, current: seq<Entry>) returns (future: seq<Entry>)
    requires NoRepeats(current) && ValidTree(RequestEntries(req))
    ensures NoRepeats(future)
    ensures FilesOf(future) == FilesOf(current) - DeletePaths(req) + WritePaths(req)
    ensures DirsOf(future) == DirsOf(current) - OldDirs(req) + NewDirs(req)
  {
    RequestSets(req);
    var fileDeletes, directoryDeletes, writePaths := DeletePaths(req), OldDirs(req), WritePaths(req);
    future := [];
    for i := 0 to |current|
      invariant NoRepeats(future)
      invariant forall e :: e in future <==> e in current[..i] && Stays(req, e)
    {
      var e := current[i];
      assert e !in current[..i];
      if if e.isFile then e.path !in fileDeletes && e.path !in writePaths else e.path !in directoryDeletes {
        future := future + [e];
      }
    }
    assert current[..|current|] == current;
    ghost var stay := future;
    for i := 0 to |req.directories|
      invariant NoRepeats(future)
      invariant forall e :: e in future <==> e in stay || (!e.isFile && e.path in req.directories[..i])
    {
      var d := req.directories[i];
      assert d in NewDirs(req);
      if Entry(d, false) !in current {
        future := future + [Entry(d, false)];
      } else {
        assert Entry(d, false) in stay;
      }
    }
    assert req.directories[..|req.directories|] == req.directories;
    ghost var most := future;
    for i := 0 to |req.writes|
      invariant NoRepeats(future)
      invariant forall e :: e in future <==> e in most || (e.isFile && exists j | 0 <= j < i :: e.path == req.writes[j].path)
    {
      assert req.writes[i] in req.writes;
      future := future + [Entry(req.writes[i].path, true)];
    }
    assert forall p :: Entry(p, true) in future <==> Entry(p, true) in stay || p in WritePaths(req);
    assert forall p :: Entry(p, false) in future <==> Entry(p, false) in stay || p in NewDirs(req);
    assert forall p :: p in FilesOf(future) <==> Entry(p, true) in future;
    assert forall p :: p in DirsOf(future) <==> Entry(p, false) in future;
    assert forall p :: p in FilesOf(current) <==> Entry(p, true) in current;
    assert forall p :: p in DirsOf(current) <==> Entry(p, false) in current;
  }

  ghost predicate Stays(req: Request, e: Entry) {
    if e.isFile then e.path !in DeletePaths(req) && e.path !in WritePaths(req) else e.path !in OldDirs(req)
  }

  lemma FutureValidity(req: Request, current: seq<Entry>, future: seq<Entry>)
    requires NoRepeats(future)
    requires FilesOf(future) == FilesOf(current) - DeletePaths(req) + WritePaths(req)
    requires DirsOf(future) == DirsOf(current) - OldDirs(req) + NewDirs(req)
    ensures ValidTree(future) <==>
            ValidSets(FilesOf(current) - DeletePaths(req) + WritePaths(req), DirsOf(current) - OldDirs(req) + NewDirs(req))
  {
    ValidTreeIsValidSets(future);
  }

  // What the check of the request itself gives: all paths are different, and nothing is
  // asked for beneath a file it writes or deletes.
  lemma RequestSets(req: Request)
    requires ValidTree(RequestEntries(req))
    ensures forall i, j | 0 <= i < j < |req.writes| :: req.writes[i].path != req.writes[j].path
    ensures forall i, j | 0 <= i < j < |req.deletes| :: req.deletes[i].path != req.deletes[j].path
    ensures NoRepeats(req.directories) && NoRepeats(req.deleteDirectories)
    ensures WritePaths(req) !! DeletePaths(req) !! NewDirs(req) !! OldDirs(req)
    ensures forall f, p | f in WritePaths(req) + DeletePaths(req) &&
                          p in WritePaths(req) + DeletePaths(req) + NewDirs(req) + OldDirs(req) :: !Under(f, p)
  {
    RequestPartsHaveNoRepeats(req);
    RequestPartsDisjoint(req);
    RequestNotNested(req);
  }

  lemma RequestPartsHaveNoRepeats(req: Request)
    requires ValidTree(RequestEntries(req))
    ensures forall i, j | 0 <= i < j < |req.writes| :: req.writes[i].path != req.writes[j].path
    ensures forall i, j | 0 <= i < j < |req.deletes| :: req.deletes[i].path != req.deletes[j].path
    ensures NoRepeats(req.directories) && NoRepeats(req.deleteDirectories)
  {
    var es := RequestEntries(req);
    var w, x, c := |req.writes|, |req.deletes|, |req.directories|;
    EntriesDiffer(es);
    forall i, j | 0 <= i < j < w ensures req.writes[i].path != req.writes[j].path {
      assert es[i].path == req.writes[i].path && es[j].path == req.writes[j].path;
    }
    forall i, j | 0 <= i < j < x ensures req.deletes[i].path != req.deletes[j].path {
      assert es[w + i].path == req.deletes[i].path && es[w + j].path == req.deletes[j].path;
    }
    forall i, j | 0 <= i < j < c ensures req.directories[i] != req.directories[j] {
      assert es[w + x + i].path == req.directories[i] && es[w + x + j].path == req.directories[j];
    }
    forall i, j | 0 <= i < j < |req.deleteDirectories| ensures req.deleteDirectories[i] != req.deleteDirectories[j] {
      assert es[w + x + c + i].path == req.deleteDirectories[i] && es[w + x + c + j].path == req.deleteDirectories[j];
    }
  }

  lemma RequestPartsDisjoint(req: Request)
    requires ValidTree(RequestEntries(req))
    ensures WritePaths(req) !! DeletePaths(req) !! NewDirs(req) !! OldDirs(req)
  {
    var es := RequestEntries(req);
    var w, x, c := |req.writes|, |req.deletes|, |req.directories|;
    EntriesDiffer(es);
    RequestSlots(req, es);
    SlotsDisjoint(es, 0, w, w, w + x, WritePaths(req), DeletePaths(req));
    SlotsDisjoint(es, 0, w, w + x, w + x + c, WritePaths(req), NewDirs(req));
    SlotsDisjoint(es, 0, w, w + x + c, |es|, WritePaths(req), OldDirs(req));
    SlotsDisjoint(es, w, w + x, w + x, w + x + c, DeletePaths(req), NewDirs(req));
    SlotsDisjoint(es, w, w + x, w + x + c, |es|, DeletePaths(req), OldDirs(req));
    SlotsDisjoint(es, w + x, w + x + c, w + x + c, |es|, NewDirs(req), OldDirs(req));
  }

  lemma SlotsDisjoint(es: seq<Entry>, lo: nat, hi: nat, lo': nat, hi': nat, paths: set<Path>, paths': set<Path>)
    requires lo <= hi <= lo' <= hi' <= |es|
    requires Slot(es, lo, hi, paths) && Slot(es, lo', hi', paths')
    requires forall i, j | 0 <= i < |es| && 0 <= j < |es| && es[i].path == es[j].path :: i == j
    ensures paths !! paths'
  {
  }

  lemma RequestNotNested(req: Request)
    requires ValidTree(RequestEntries(req))
    ensures forall f, p | f in WritePaths(req) + DeletePaths(req) &&
                          p in WritePaths(req) + DeletePaths(req) + NewDirs(req) + OldDirs(req) :: !Under(f, p)
  {
    var es := RequestEntries(req);
    EntriesDiffer(es);
    RequestEntrySets(req);
    forall f, p | f in FilesOf(es) && p in FilesOf(es) + DirsOf(es) ensures !Under(f, p) {
      EntriesNotNested(es, f, p);
    }
  }

  lemma EntriesNotNested(es: seq<Entry>, f: Path, p: Path)
    requires forall i, j | 0 <= i < |es| && 0 <= j < |es| && es[i].isFile :: !Under(es[i].path, es[j].path)
    requires f in FilesOf(es) && p in FilesOf(es) + DirsOf(es)
    ensures !Under(f, p)
  {
    var i :| 0 <= i < |es| && es[i].isFile && es[i].path == f;
    var j :| 0 <= j < |es| && es[j].path == p;
  }

  // The paths of each part of the request are those of one stretch of its entries.
  ghost predicate Slot(es: seq<Entry>, lo: nat, hi: nat, paths: set<Path>)
    requires hi <= |es|
  {
    forall p | p in paths :: exists i :: lo <= i < hi && es[i].path == p
  }

  lemma RequestSlots(req: Request, es: seq<Entry>)
    requires es == RequestEntries(req)
    ensures var w, x, c := |req.writes|, |req.deletes|, |req.directories|;
            && Slot(es, 0, w, WritePaths(req))
            && Slot(es, w, w + x, DeletePaths(req))
            && Slot(es, w + x, w + x + c, NewDirs(req))
            && Slot(es, w + x + c, |es|, OldDirs(req))
  {
    var w, x, c := |req.writes|, |req.deletes|, |req.directories|;
    forall p | p in WritePaths(req) ensures exists i :: 0 <= i < w && es[i].path == p {
      var i :| 0 <= i < w && req.writes[i].path == p;
      assert es[i].path == p;
    }
    forall p | p in DeletePaths(req) ensures exists i :: w <= i < w + x && es[i].path == p {
      var i :| 0 <= i < x && req.deletes[i].path == p;
      assert es[w + i].path == p;
    }
    forall p | p in NewDirs(req) ensures exists i :: w + x <= i < w + x + c && es[i].path == p {
      var i :| 0 <= i < c && req.directories[i] == p;
      assert es[w + x + i].path == p;
    }
    forall p | p in OldDirs(req) ensures exists i :: w + x + c <= i < |es| && es[i].path == p {
      var i :| 0 <= i < |req.deleteDirectories| && req.deleteDirectories[i] == p;
      assert es[w + x + c + i].path == p;
    }
  }

  // The check of the request looks at its four parts as sets, not at their order.
  lemma RequestValidExactlyWhen(req: Request)
    requires forall i, j | 0 <= i < j < |req.writes| :: req.writes[i].path != req.writes[j].path
    requires forall i, j | 0 <= i < j < |req.deletes| :: req.deletes[i].path != req.deletes[j].path
    requires NoRepeats(req.directories) && NoRepeats(req.deleteDirectories)
    ensures ValidTree(RequestEntries(req)) <==>
            && WritePaths(req) !! DeletePaths(req) && NewDirs(req) !! OldDirs(req)
            && ValidSets(WritePaths(req) + DeletePaths(req), NewDirs(req) + OldDirs(req))
  {
    var es := RequestEntries(req);
    RequestEntrySets(req);
    if ValidTree(es) {
      RequestPartsDisjoint(req);
      ValidTreeHasNoRepeats(es);
      ValidTreeIsValidSets(es);
    } else if WritePaths(req) !! DeletePaths(req) && NewDirs(req) !! OldDirs(req) {
      RequestEntriesOnce(req);
      ValidTreeIsValidSets(es);
    }
  }

  lemma RequestEntrySets(req: Request)
    ensures FilesOf(RequestEntries(req)) == WritePaths(req) + DeletePaths(req)
    ensures DirsOf(RequestEntries(req)) == NewDirs(req) + OldDirs(req)
  {
    var es := RequestEntries(req);
    var w, x, c := |req.writes|, |req.deletes|, |req.directories|;
    RequestSlots(req, es);
    forall p | p in WritePaths(req) + DeletePaths(req) ensures Entry(p, true) in es {
      var i :| 0 <= i < w + x && es[i].path == p;
      assert es[i] == Entry(p, true);
    }
    forall p | p in NewDirs(req) + OldDirs(req) ensures Entry(p, false) in es {
      var i :| w + x <= i < |es| && es[i].path == p;
      assert es[i] == Entry(p, false);
    }
    forall i | 0 <= i < |es|
      ensures if es[i].isFile then es[i].path in WritePaths(req) + DeletePaths(req) else es[i].path in NewDirs(req) + OldDirs(req)
    {
      EntryOrigin(req, i);
    }
  }

  lemma EntryOrigin(req: Request, i: nat)
    requires i < |RequestEntries(req)|
    ensures var e, w, x, c := RequestEntries(req)[i], |req.writes|, |req.deletes|, |req.directories|;
      if i < w then e.isFile && e.path == req.writes[i].path && e.path in WritePaths(req)
      else if i < w + x then e.isFile && e.path == req.deletes[i - w].path && e.path in DeletePaths(req)
      else if i < w + x + c then !e.isFile && e.path == req.directories[i - w - x] && e.path in NewDirs(req)
      else !e.isFile && e.path == req.deleteDirectories[i - w - x - c] && e.path in OldDirs(req)
  {
    var w, x := |req.writes|, |req.deletes|;
    if i < w {
      assert req.writes[i] in req.writes;
    } else if i < w + x {
      assert req.deletes[i - w] in req.deletes;
    }
  }

  lemma RequestEntriesOnce(req: Request)
    requires forall i, j | 0 <= i < j < |req.writes| :: req.writes[i].path != req.writes[j].path
    requires forall i, j | 0 <= i < j < |req.deletes| :: req.deletes[i].path != req.deletes[j].path
    requires NoRepeats(req.directories) && NoRepeats(req.deleteDirectories)
    requires WritePaths(req) !! DeletePaths(req) && NewDirs(req) !! OldDirs(req)
    ensures NoRepeats(RequestEntries(req))
  {
    var es := RequestEntries(req);
    forall i, j | 0 <= i < j < |es| ensures es[i] != es[j] {
      EntryOrigin(req, i);
      EntryOrigin(req, j);
    }
  }

  lemma EntriesDiffer(es: seq<Entry>)
    requires ValidTree(es)
    ensures forall i, j | 0 <= i < |es| && 0 <= j < |es| && es[i].path == es[j].path :: i == j
    ensures forall i, j | 0 <= i < |es| && 0 <= j < |es| && es[i].isFile :: !Under(es[i].path, es[j].path)
  {
    forall i, j | 0 <= i < |es| && 0 <= j < |es| && es[i].path == es[j].path
      ensures i == j
    {
      assert Lower(es[i].path) == Lower(es[j].path);
    }
    forall i, j | 0 <= i < |es| && 0 <= j < |es| && es[i].isFile
      ensures !Under(es[i].path, es[j].path)
    {
      if Under(es[i].path, es[j].path) {
        LowerKeepsUnder(es[i].path, es[j].path);
      }
    }
  }
}
