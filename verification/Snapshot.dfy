// syncSnapshot: the part of the vault a scope covers, refused when its names collide on
// a case-insensitive host.

module Snapshot {
  import opened Wrappers
  import opened Paths
  import opened FileStore
  import opened SyncApply

  datatype Snapshot = Snapshot(scope: Scope, files: Files, directories: set<Path>)

  // What a snapshot of this scope can hold. A single file is read by its name; the rest
  // comes from a listing.
  predicate Covered(scope: Scope, p: Path) {
    IsVaultPath(p) && ScopeContains(scope, p) && (scope.File? || Listed(p))
  }

  // The same, from the segments of a path and the directories above it.
  ghost predicate Belongs(scope: Scope, p: Path) {
    HasVaultSegments(p) && InSubtree(scope, p) && (scope.File? || HasListedSegments(p))
  }

  lemma CoveredIsBelonging(scope: Scope, p: Path)
    ensures Covered(scope, p) <==> Belongs(scope, p)
  {
    VaultPathsHaveVaultSegments(p);
    ListedPathsHaveListedSegments(p);
  }

  // Every file and every directory of the vault that belongs to the scope, with what it
  // holds, and nothing else.
  ghost predicate IsSubtree(snapshot: Snapshot, scope: Scope, files: Files, dirs: set<Path>) {
    && (forall p :: p in snapshot.files <==> p in files && Belongs(scope, p))
    && (forall p | p in snapshot.files :: snapshot.files[p] == files[p])
    && (forall d :: d in snapshot.directories <==> d in dirs && Belongs(scope, d) && !scope.File?)
  }

  lemma ScopedIsSubtree(scope: Scope, files: Files, dirs: set<Path>)
    ensures IsSubtree(Snapshot(scope, ScopedFiles(files, scope), ScopedDirs(dirs, scope)), scope, files, dirs)
  {
    forall p ensures Covered(scope, p) <==> Belongs(scope, p) {
      CoveredIsBelonging(scope, p);
    }
  }

  function ScopedFiles(files: Files, scope: Scope): Files {
    map p | p in files && Covered(scope, p) :: files[p]
  }

  // A single-file snapshot lists no directory.
  function ScopedDirs(dirs: set<Path>, scope: Scope): set<Path> {
    if scope.File? then {} else set d | d in dirs && Covered(scope, d)
  }

  // Every path whose lower-cased form an earlier, different path already has.
  method NameClashes(paths: set<Path>) returns (clashes: set<Path>)
    ensures clashes <= paths
    ensures clashes == {} <==> NoFoldClash(paths)
  {
    clashes := {};
    var folded: map<Path, Path> := map[];
    var rest := paths;
    while rest != {}
      invariant rest <= paths && clashes <= paths - rest
      invariant forall key | key in folded :: folded[key] in paths - rest && Lower(folded[key]) == key
      invariant forall p | p in paths - rest :: Lower(p) in folded
      invariant clashes == {} ==> forall p | p in paths - rest :: folded[Lower(p)] == p
      invariant clashes != {} ==> !NoFoldClash(paths)
    {
      var p :| p in rest;
      if Lower(p) in folded && folded[Lower(p)] != p {
        clashes := clashes + {p};
      }
      folded := folded[Lower(p) := p];
      rest := rest - {p};
    }
  }

  // When a snapshot of a vault nobody else is editing succeeds on a healthy host.
  ghost predicate Snapshotable(files: Files, dirs: set<Path>, scope: Scope) {
    match scope
    case File(path) => IsVaultPath(path) && path in files
    case Folder(path) =>
      && IsVaultPath(path)
      && |ListedFiles(files)| + |ListedDirs(dirs)| <= MAX_TREE_ENTRIES
      && ScopedFiles(files, scope).Keys + ScopedDirs(dirs, scope) != {}
      && NoFoldClash(ScopedFiles(files, scope).Keys + ScopedDirs(dirs, scope))
    case All =>
      && |ListedFiles(files)| + |ListedDirs(dirs)| <= MAX_TREE_ENTRIES
      && NoFoldClash(ScopedFiles(files, scope).Keys + ScopedDirs(dirs, scope))
  }

  method SyncSnapshot(vault: Store, scope: Scope) returns (r: Result<Snapshot>)
    requires vault.Valid()
    modifies vault`files, vault`dirs
    ensures vault.Valid()
    ensures r.Ok? ==>
              && r.value.scope == scope
              && (forall p | p in r.value.files :: Covered(scope, p))
              && (forall p | p in r.value.directories :: Covered(scope, p))
              && NoFoldClash(r.value.files.Keys + r.value.directories)
    ensures !vault.shared ==> vault.files == old(vault.files) && vault.dirs == old(vault.dirs)
    ensures !vault.shared && r.Ok? ==> r.value == Snapshot(scope, ScopedFiles(vault.files, scope), ScopedDirs(vault.dirs, scope))
    ensures r.Ok? ==> forall p | p in r.value.files.Keys + r.value.directories :: Belongs(scope, p)
    ensures !vault.shared && r.Ok? ==> IsSubtree(r.value, scope, vault.files, vault.dirs)
    ensures !vault.shared && r.Ok? ==> Snapshotable(vault.files, vault.dirs, scope)
    ensures !vault.shared && !vault.faulty && Snapshotable(vault.files, vault.dirs, scope) ==> r.Ok?
  {
    if !scope.All? && !IsVaultPath(scope.path) {
      return Err;
    }
    forall p | Covered(scope, p) ensures Belongs(scope, p) {
      CoveredIsBelonging(scope, p);
    }
    vault.Disturb();
    ScopedIsSubtree(scope, vault.files, vault.dirs);
    if scope.File? {
      var read := vault.Read(scope.path);
      if !read.Found? {
        return Err;
      }
      OneFileScoped(vault.files, scope.path);
      return Ok(Snapshot(scope, map[scope.path := read.hash], {}));
    }
    var listing := vault.ListPaths();
    if listing.Err? || |listing.value| > MAX_TREE_ENTRIES {
      return Err;
    }
    var accessible := set e | e in listing.value && Covered(scope, e.path);
    ghost var files0, dirs0 := vault.files, vault.dirs;
    NothingAccessible(listing.value, files0, dirs0, scope);
    if scope.Folder? && accessible == {} {
      return Err;
    }
    r := ReadAll(vault, scope, accessible);
    if r.Err? {
      return;
    }
    var clashes := NameClashes(r.value.files.Keys + r.value.directories);
    if clashes != {} {
      return Err;
    }
  }

  lemma OneFileScoped(files: Files, path: Path)
    requires path in files && IsVaultPath(path)
    ensures ScopedFiles(files, File(path)) == map[path := files[path]]
  {
  }

  lemma NothingAccessible(es: seq<Entry>, files: Files, dirs: set<Path>, scope: Scope)
    requires IsListing(es, ListedFiles(files).Keys, ListedDirs(dirs)) && !scope.File?
    ensures (set e | e in es && Covered(scope, e.path)) == {} <==> ScopedFiles(files, scope).Keys + ScopedDirs(dirs, scope) == {}
    ensures forall e :: e in (set x | x in es && Covered(scope, x.path)) <==>
              Covered(scope, e.path) && if e.isFile then e.path in files else e.path in dirs
  {
    var accessible := set e | e in es && Covered(scope, e.path);
    forall p | p in ScopedFiles(files, scope) ensures Entry(p, true) in accessible {}
    forall p | p in ScopedDirs(dirs, scope) ensures Entry(p, false) in accessible {}
    forall e | e in accessible ensures e.path in ScopedFiles(files, scope).Keys + ScopedDirs(dirs, scope) {}
  }

  method ReadAll(vault: Store, scope: Scope, accessible: set<Entry>) returns (r: Result<Snapshot>)
    requires vault.Valid() && !scope.File?
    requires forall e | e in accessible :: Covered(scope, e.path)
    requires !vault.shared ==>
               forall e :: e in accessible <==> Covered(scope, e.path) && if e.isFile then e.path in vault.files else e.path in vault.dirs
    modifies vault`files, vault`dirs
    ensures vault.Valid()
    ensures r.Ok? ==>
              && r.value.scope == scope
              && (forall p | p in r.value.files :: Covered(scope, p))
              && (forall p | p in r.value.directories :: Covered(scope, p))
    ensures !vault.shared ==> vault.files == old(vault.files) && vault.dirs == old(vault.dirs)
    ensures !vault.shared && r.Ok? ==> r.value == Snapshot(scope, ScopedFiles(vault.files, scope), ScopedDirs(vault.dirs, scope))
    ensures !vault.shared && !vault.faulty ==> r.Ok?
  {
    var paths := set e | e in accessible && e.isFile :: e.path;
    var directories := set e | e in accessible && !e.isFile :: e.path;
    assert !vault.shared ==> paths == ScopedFiles(vault.files, scope).Keys && directories == ScopedDirs(vault.dirs, scope) by {
      assert forall p :: p in paths <==> Entry(p, true) in accessible;
      assert forall p :: p in directories <==> Entry(p, false) in accessible;
    }
    var files := ReadEvery(vault, paths);
    r := if files.Err? then Err else Ok(Snapshot(scope, files.value, directories));
  }

  // Reads these files, and fails when one of them is missing.
  method ReadEvery(vault: Store, paths: set<Path>) returns (r: Result<Files>)
    requires vault.Valid()
    modifies vault`files, vault`dirs
    ensures vault.Valid() && (r.Ok? ==> r.value.Keys == paths)
    ensures !vault.shared ==> vault.files == old(vault.files) && vault.dirs == old(vault.dirs)
    ensures !vault.shared && r.Ok? ==> forall p | p in paths :: p in vault.files && r.value[p] == vault.files[p]
    ensures !vault.shared && !vault.faulty && paths <= vault.files.Keys ==> r.Ok?
  {
    var files: Files := map[];
    var rest := paths;
    while rest != {}
      invariant vault.Valid() && rest <= paths && files.Keys == paths - rest
      invariant !vault.shared ==> vault.files == old(vault.files) && vault.dirs == old(vault.dirs)
      invariant !vault.shared ==> forall p | p in files :: p in vault.files && files[p] == vault.files[p]
    {
      var p :| p in rest;
      vault.Disturb();
      if !vault.shared && p in vault.files {
        NothingAboveWhatIsThere(vault.files, vault.dirs, p);
      }
      var read := vault.Read(p);
      if !read.Found? {
        return Err;
      }
      files, rest := files[p := read.hash], rest - {p};
    }
    r := Ok(files);
  }
}
