// A host's directory tree as the files API of the daemon exposes it: files by content
// hash, directories, compare-and-set writes, and removals that are never recursive.
// Content is identified with its hash. Listings pass over hidden and some other names,
// but what bears such a name is in the tree all the same.

module FileStore {
  import opened Wrappers
  import opened Paths

  type Hash = string
  type Files = map<Path, Hash>

  function At(files: Files, p: Path): Option<Hash> {
    if p in files then Some(files[p]) else None
  }

  // No path is both a file and a directory, and every parent is a directory.
  predicate WellFormed(files: Files, dirs: set<Path>) {
    && (forall p | p in files :: p !in dirs)
    && (forall p | p in files :: forall k | 0 <= k < |p| && p[k] == '/' :: p[..k] in dirs)
    && (forall p | p in dirs :: forall k | 0 <= k < |p| && p[k] == '/' :: p[..k] in dirs)
  }

  ghost function ParentsOf(paths: set<Path>): set<Path> {
    set p, a | p in paths && a in Ancestors(p) :: a
  }

  // Nothing above p is a file. Where something is, a call on p fails, and not because p is
  // missing.
  predicate NoFileAbove(files: Files, p: Path) {
    forall a | a in Ancestors(p) :: a !in files
  }

  // A file may stand at p: p is not a directory and nothing above p is a file.
  predicate CanHoldFile(files: Files, dirs: set<Path>, p: Path) {
    p !in dirs && NoFileAbove(files, p)
  }

  predicate CanHoldDirectory(files: Files, p: Path) {
    p !in files && NoFileAbove(files, p)
  }

  ghost predicate IsEmptyDirectory(files: Files, dirs: set<Path>, d: Path) {
    d in dirs && (forall p | p in files :: !Under(d, p)) && (forall p | p in dirs :: !Under(d, p))
  }

  // The part of the tree that a listing shows.

  function ListedFiles(files: Files): Files {
    map p | p in files && Listed(p) :: files[p]
  }

  function ListedDirs(dirs: set<Path>): set<Path> {
    set d | d in dirs && Listed(d)
  }

  lemma WellFormedAbove(files: Files, dirs: set<Path>, d: Path, p: Path)
    requires WellFormed(files, dirs) && (p in files || p in dirs) && Under(d, p)
    ensures d in dirs
  {
    assert p[..|d|] == d;
  }

  lemma NothingAboveWhatIsThere(files: Files, dirs: set<Path>, p: Path)
    requires WellFormed(files, dirs) && (p in files || p in dirs)
    ensures NoFileAbove(files, p)
  {
    forall a | a in Ancestors(p) ensures a !in files {
      AncestorsAreAbove(a, p);
      WellFormedAbove(files, dirs, a, p);
    }
  }

  // One change this process made to a file: its hash before and after.
  datatype Change = Change(path: Path, before: Option<Hash>, after: Option<Hash>)

  datatype Entry = Entry(path: Path, isFile: bool)

  // es lists every file and every directory, once.
  ghost predicate IsListing(es: seq<Entry>, files: set<Path>, dirs: set<Path>) {
    && NoRepeats(es)
    && (forall e :: e in es <==> if e.isFile then e.path in files else e.path in dirs)
  }

  ghost predicate NoRepeats<T>(s: seq<T>) {
    forall i, j | 0 <= i < j < |s| :: s[i] != s[j]
  }

  datatype ReadResult = Found(hash: Hash) | Missing | ReadFault
  datatype WriteResult = Written | Stale(current: Option<Hash>) | WriteFault
  datatype RemoveResult = Removed | NotThere | Mismatch(current: Option<Hash>) | RemoveFault

  class Store {
    var files: Files
    var dirs: set<Path>

    // Another editor may change the tree between two of our calls.
    const shared: bool
    // A call may fail for a reason outside the tree (transport, permissions, disk), before
    // its effect or after it: then it was done, and only its answer is lost.
    const faulty: bool

    // Every change to a file made through this object, in order.
    ghost var log: seq<Change>

    ghost predicate Valid()
      reads this
    {
      WellFormed(files, dirs)
    }

    constructor (files: Files, dirs: set<Path>, shared: bool, faulty: bool)
      requires WellFormed(files, dirs)
      ensures Valid() && this.files == files && this.dirs == dirs && log == []
      ensures this.shared == shared && this.faulty == faulty
    {
      this.files, this.dirs := files, dirs;
      this.shared, this.faulty := shared, faulty;
      log := [];
    }

    // What other editors do before our next call.
    method Disturb()
      requires Valid()
      modifies `files, `dirs
      ensures Valid()
      ensures !shared ==> files == old(files) && dirs == old(dirs)
    {
      if shared {
        var files0, dirs0 := files, dirs;
        files, dirs := *, *;
        if !WellFormed(files, dirs) {
          files, dirs := files0, dirs0;
        }
      }
    }

    // Answers exactly where a file may stand.
    method Read(p: Path) returns (r: ReadResult)
      requires Valid()
      ensures r.Found? ==> p in files && r.hash == files[p]
      ensures r.Missing? ==> p !in files
      ensures r.ReadFault? ==> faulty || !CanHoldFile(files, dirs, p)
      ensures !CanHoldFile(files, dirs, p) ==> r.ReadFault?
    {
      var failed: bool := *;
      if (faulty && failed) || !CanHoldFile(files, dirs, p) {
        return ReadFault;
      }
      r := if p in files then Found(files[p]) else Missing;
    }

    method ListPaths() returns (r: Result<seq<Entry>>)
      requires Valid()
      ensures r.Ok? ==>
                && IsListing(r.value, ListedFiles(files).Keys, ListedDirs(dirs))
                && |r.value| == |ListedFiles(files)| + |ListedDirs(dirs)|
      ensures r.Err? ==> faulty
    {
      var failed: bool := *;
      if faulty && failed {
        return Err;
      }
      var es: seq<Entry> := [];
      var shown := ListedFiles(files).Keys;
      var rest := shown;
      while rest != {}
        invariant rest <= shown
        invariant NoRepeats(es) && |es| + |rest| == |shown|
        invariant forall e :: e in es <==> e.isFile && e.path in shown - rest
      {
        var p :| p in rest;
        es, rest := es + [Entry(p, true)], rest - {p};
      }
      var shownDirs := ListedDirs(dirs);
      rest := shownDirs;
      while rest != {}
        invariant rest <= shownDirs
        invariant NoRepeats(es) && |es| + |rest| == |shown| + |shownDirs|
        invariant forall e :: e in es <==> if e.isFile then e.path in shown else e.path in shownDirs - rest
      {
        var p :| p in rest;
        es, rest := es + [Entry(p, false)], rest - {p};
      }
      r := Ok(es);
    }

    // Compare-and-set write that also creates the parents. It compares, makes the parents,
    // and compares again when it puts the file in place, so a write that does not succeed
    // may leave parents behind. The log says whether the file was written.
    method Write(p: Path, content: Hash, expected: Option<Hash>) returns (r: WriteResult)
      requires Valid()
      modifies this
      ensures Valid()
      ensures log == old(log) || (log == old(log) + [Change(p, expected, Some(content))] && At(files, p) == Some(content))
      ensures (r.Written? ==> log != old(log)) && (log != old(log) && !faulty ==> r.Written?)
      ensures r.Stale? ==> log == old(log) && r.current == At(files, p) && r.current != expected
      ensures !shared && log != old(log) ==>
                && At(old(files), p) == expected
                && CanHoldFile(old(files), old(dirs), p)
                && files == old(files)[p := content]
                && dirs == old(dirs) + Ancestors(p)
      ensures !shared && log == old(log) ==>
                && files == old(files)
                && (dirs == old(dirs) || (faulty && CanHoldFile(old(files), old(dirs), p) && dirs == old(dirs) + Ancestors(p)))
      ensures !shared && r.WriteFault? ==> faulty || !CanHoldFile(old(files), old(dirs), p)
    {
      var failed: bool := *;
      if (faulty && failed) || !CanHoldFile(files, dirs, p) {
        return WriteFault;
      }
      if At(files, p) != expected {
        return Stale(At(files, p));
      }
      AddingParentsKeepsWellFormed(files, dirs, p);
      dirs := dirs + Ancestors(p);
      ParentsMade(old(files), old(dirs), p);
      Disturb();
      failed := *;
      if (faulty && failed) || !CanHoldFile(files, dirs, p) {
        return WriteFault;
      }
      if At(files, p) != expected {
        return Stale(At(files, p));
      }
      AddingKeepsWellFormed(files, dirs, p, content);
      log := log + [Change(p, At(files, p), Some(content))];
      files, dirs := files[p := content], dirs + Ancestors(p);
      failed := *;
      r := if faulty && failed then WriteFault else Written;
    }

    // mkdir with its parents.
    method Mkdir(p: Path) returns (ok: bool)
      requires Valid()
      modifies `dirs
      ensures Valid()
      ensures ok ==> dirs == old(dirs) + Ancestors(p) + {p} && CanHoldDirectory(files, p)
      ensures !ok ==> faulty || !CanHoldDirectory(files, p)
      ensures dirs == old(dirs) || (dirs == old(dirs) + Ancestors(p) + {p} && CanHoldDirectory(files, p))
    {
      var failed: bool := *;
      if (faulty && failed) || !CanHoldDirectory(files, p) {
        return false;
      }
      dirs := dirs + Ancestors(p) + {p};
      AddingKeepsWellFormed(files, old(dirs), p, "");
      failed := *;
      ok := !(faulty && failed);
    }

    // Re-reads the file and removes it, as one step. The log says whether it was removed.
    method CompareAndRemove(p: Path, expected: Hash) returns (r: RemoveResult)
      requires Valid()
      modifies this
      ensures Valid()
      ensures dirs == old(dirs) && r != NotThere
      ensures log == old(log) || log == old(log) + [Change(p, Some(expected), None)]
      ensures (r.Removed? ==> log != old(log)) && (log != old(log) && !faulty ==> r.Removed?)
      ensures if log == old(log) then files == old(files) else At(old(files), p) == Some(expected) && files == old(files) - {p}
      ensures r.Mismatch? ==> log == old(log) && r.current == At(files, p) && r.current != Some(expected)
      ensures r.RemoveFault? ==> faulty || !CanHoldFile(old(files), dirs, p)
      ensures !CanHoldFile(old(files), dirs, p) ==> r.RemoveFault?
    {
      var current := Read(p);
      if current.ReadFault? {
        return RemoveFault;
      }
      if At(files, p) != Some(expected) {
        return Mismatch(At(files, p));
      }
      var failed: bool := *;
      if faulty && failed {
        return RemoveFault;
      }
      log := log + [Change(p, At(files, p), None)];
      files := files - {p};
      failed := *;
      r := if faulty && failed then RemoveFault else Removed;
    }

    // Removes a file, or a directory that is empty. The hash is not looked at.
    method Remove(p: Path) returns (r: RemoveResult)
      requires Valid()
      modifies this
      ensures Valid()
      ensures !r.Mismatch?
      ensures r.Removed? ==> WasRemoved(p, old(files), old(dirs), old(log), files, dirs, log)
      ensures r.NotThere? ==> p !in files && p !in dirs && files == old(files) && dirs == old(dirs) && log == old(log)
      ensures r.RemoveFault? ==>
                || (files == old(files) && dirs == old(dirs) && log == old(log))
                || (faulty && WasRemoved(p, old(files), old(dirs), old(log), files, dirs, log))
      ensures r.RemoveFault? ==>
                faulty || (p in dirs && !IsEmptyDirectory(files, dirs, p)) || !NoFileAbove(files, p)
      ensures !NoFileAbove(old(files), p) ==> r.RemoveFault?
    {
      var failed: bool := *;
      if (faulty && failed) || !NoFileAbove(files, p) {
        return RemoveFault;
      }
      if p !in files && p !in dirs {
        return NotThere;
      }
      if p in files {
        log := log + [Change(p, At(files, p), None)];
        files := files - {p};
        assert p !in dirs;
      } else if exists q | q in files.Keys + dirs :: Under(p, q) {
        return RemoveFault;
      } else {
        assert forall q | q in files.Keys + dirs :: !Under(p, q);
        assert files - {p} == files;
        dirs := dirs - {p};
        RemovingKeepsWellFormed(files, old(dirs), p);
      }
      failed := *;
      r := if faulty && failed then RemoveFault else Removed;
    }
  }

  // The file or the empty directory at p is gone, and nothing else.
  ghost predicate WasRemoved(p: Path, files0: Files, dirs0: set<Path>, log0: seq<Change>, files: Files, dirs: set<Path>, log: seq<Change>) {
    && (p in files0 || IsEmptyDirectory(files0, dirs0, p))
    && files == files0 - {p} && dirs == dirs0 - {p}
    && log == log0 + if p in files0 then [Change(p, At(files0, p), None)] else []
  }

  lemma AddingKeepsWellFormed(files: Files, dirs: set<Path>, p: Path, content: Hash)
    requires WellFormed(files, dirs)
    requires forall a | a in Ancestors(p) :: a !in files
    ensures p !in dirs ==> WellFormed(files[p := content], dirs + Ancestors(p))
    ensures p !in files ==> WellFormed(files, dirs + Ancestors(p) + {p})
  {
    assert p !in Ancestors(p) by {
      AncestorsAreAbove(p, p);
    }
    forall a, k | a in Ancestors(p) && 0 <= k < |a| && a[k] == '/'
      ensures a[..k] in Ancestors(p)
    {
      assert a[..k] == p[..k];
    }
  }

  lemma AddingParentsKeepsWellFormed(files: Files, dirs: set<Path>, p: Path)
    requires WellFormed(files, dirs) && CanHoldFile(files, dirs, p)
    ensures WellFormed(files, dirs + Ancestors(p))
  {
    forall a, k | a in Ancestors(p) && 0 <= k < |a| && a[k] == '/'
      ensures a[..k] in Ancestors(p)
    {
      assert a[..k] == p[..k];
    }
  }

  // With its parents made, the file itself can still be placed.
  lemma ParentsMade(files: Files, dirs: set<Path>, p: Path)
    requires CanHoldFile(files, dirs, p)
    ensures CanHoldFile(files, dirs + Ancestors(p), p)
  {
    AncestorsAreAbove(p, p);
  }

  lemma RemovingKeepsWellFormed(files: Files, dirs: set<Path>, d: Path)
    requires WellFormed(files, dirs)
    requires forall q | q in files.Keys + dirs :: !Under(d, q)
    ensures WellFormed(files, dirs - {d})
  {
    forall q, k | q in files.Keys + dirs && 0 <= k < |q| && q[k] == '/'
      ensures q[..k] in dirs - {d}
    {
      assert Under(q[..k], q);
    }
  }
}
