// runPushPlan: compares the workspace with the vault against the manifest, and applies
// the difference to the vault when nothing conflicts. `status` is the same without the
// last step.

module PushPlan {
  import opened Wrappers
  import opened Paths
  import opened FileStore
  import opened Snapshot

  datatype Reason =
    | OutsideScope
    | NewFileCollides
    | VaultFileDeleted
    | VaultFileChanged
    | BothChanged
    | LocallyDeletedVaultChanged
    | NewVaultFile
    | VaultDirectoryDeleted
    | NewVaultDirectory

  datatype Write = Write(content: Hash, expected: Option<Hash>)

  datatype FilePlan = FilePlan(
    writes: map<Path, Write>,
    deletes: map<Path, Hash>,
    conflicts: map<Path, Reason>,
    ignored: set<Path>)

  // What is wrong at a path in scope where the vault differs from both sides.
  ghost predicate ReasonFits(reason: Reason, base: Option<Hash>, local: Option<Hash>, vault: Option<Hash>) {
    match reason
    case NewFileCollides => base.None? && local.Some?
    case VaultFileDeleted => base.Some? && local.Some? && vault.None?
    case VaultFileChanged => base.Some? && local == base && vault.Some?
    case BothChanged => base.Some? && local.Some? && local != base && vault.Some?
    case LocallyDeletedVaultChanged => base.Some? && local.None?
    case NewVaultFile => base.None? && local.None?
    case _ => false
  }

  // What the plan must say about one path in scope: the vault differs from both sides,
  // or only the local side changed.
  ghost predicate PlannedAt(plan: FilePlan, p: Path, delete: bool, base: Option<Hash>, local: Option<Hash>, vault: Option<Hash>) {
    var kept := !delete && local.None? && base.Some?;
    && (p in plan.conflicts <==> !kept && vault != base && vault != local)
    && (p in plan.conflicts ==> ReasonFits(plan.conflicts[p], base, local, vault))
    && (p in plan.writes <==> local.Some? && vault == base && local != vault)
    && (p in plan.deletes <==> delete && local.None? && base.Some? && vault == base)
    && (p in plan.ignored <==> kept && vault.Some?)
    && (p in plan.writes ==> plan.writes[p] == Write(local.value, base))
    && (p in plan.deletes ==> Some(plan.deletes[p]) == base)
  }

  // A local file outside the scope.
  ghost predicate RefusedAt(plan: FilePlan, p: Path) {
    p in plan.conflicts && plan.conflicts[p] == OutsideScope && p !in plan.writes && p !in plan.deletes && p !in plan.ignored
  }

  // Nothing is planned at a path.
  ghost predicate Untouched(plan: FilePlan, p: Path) {
    p !in plan.conflicts && p !in plan.writes && p !in plan.deletes && p !in plan.ignored
  }

  function DecideLocal(plan: FilePlan, scope: Scope, p: Path, base: Option<Hash>, local: Hash, remote: Option<Hash>): FilePlan {
    if !ScopeContains(scope, p) then
      plan.(conflicts := plan.conflicts[p := OutsideScope])
    else if base.None? then
      if remote.Some? && remote.value != local then
        plan.(conflicts := plan.conflicts[p := NewFileCollides])
      else if remote.None? then
        plan.(writes := plan.writes[p := Write(local, None)])
      else
        plan
    else if remote.None? then
      plan.(conflicts := plan.conflicts[p := VaultFileDeleted])
    else if local == remote.value then
      plan
    else if local == base.value && remote.value != base.value then
      plan.(conflicts := plan.conflicts[p := VaultFileChanged])
    else if local != base.value && remote.value == base.value then
      plan.(writes := plan.writes[p := Write(local, base)])
    else
      plan.(conflicts := plan.conflicts[p := BothChanged])
  }

  function DecideDeleted(plan: FilePlan, p: Path, delete: bool, base: Hash, remote: Option<Hash>): FilePlan {
    if remote.None? then
      plan
    else if !delete then
      plan.(ignored := plan.ignored + {p})
    else if remote.value != base then
      plan.(conflicts := plan.conflicts[p := LocallyDeletedVaultChanged])
    else
      plan.(deletes := plan.deletes[p := base])
  }

  // A path a file plan speaks about, once `done` has been looked at.
  ghost predicate PlannedFor(plan: FilePlan, p: Path, done: set<Path>, scope: Scope, delete: bool, local: Files, base: Files, vault: Files) {
    if p !in done then Untouched(plan, p)
    else if !ScopeContains(scope, p) then RefusedAt(plan, p)
    else PlannedAt(plan, p, delete, At(base, p), At(local, p), At(vault, p))
  }

  ghost predicate Planned(plan: FilePlan, done: set<Path>, scope: Scope, delete: bool, local: Files, base: Files, vault: Files) {
    forall p :: PlannedFor(plan, p, done, scope, delete, local, base, vault)
  }

  // A decision about p leaves every other path as it was planned.
  lemma Step(plan: FilePlan, next: FilePlan, done: set<Path>, p: Path,
             scope: Scope, delete: bool, local: Files, base: Files, vault: Files)
    requires Planned(plan, done, scope, delete, local, base, vault)
    requires Alike(plan, next, p)
    requires PlannedFor(next, p, done + {p}, scope, delete, local, base, vault)
    ensures Planned(next, done + {p}, scope, delete, local, base, vault)
  {
    forall q ensures PlannedFor(next, q, done + {p}, scope, delete, local, base, vault) {
      assert PlannedFor(plan, q, done, scope, delete, local, base, vault);
      if q != p {
        assert q in next.writes <==> q in next.writes - {p};
        assert q in next.deletes <==> q in next.deletes - {p};
        assert q in next.conflicts <==> q in next.conflicts - {p};
        assert q in next.ignored <==> q in next.ignored - {p};
        assert q in next.writes ==> next.writes[q] == (next.writes - {p})[q] == (plan.writes - {p})[q];
        assert q in next.deletes ==> next.deletes[q] == (next.deletes - {p})[q] == (plan.deletes - {p})[q];
      }
    }
  }

  lemma LocalStep(plan: FilePlan, done: set<Path>, p: Path, scope: Scope, delete: bool, local: Files, base: Files, vault: Files)
    requires Planned(plan, done, scope, delete, local, base, vault) && p !in done && p in local
    ensures Planned(DecideLocal(plan, scope, p, At(base, p), local[p], At(vault, p)), done + {p}, scope, delete, local, base, vault)
  {
    var next := DecideLocal(plan, scope, p, At(base, p), local[p], At(vault, p));
    assert PlannedFor(plan, p, done, scope, delete, local, base, vault);
    DecidesLocal(plan, scope, p, delete, At(base, p), local[p], At(vault, p));
    Step(plan, next, done, p, scope, delete, local, base, vault);
  }

  // Only p is decided.
  ghost predicate Alike(plan: FilePlan, next: FilePlan, p: Path) {
    && next.writes - {p} == plan.writes - {p} && next.deletes - {p} == plan.deletes - {p}
    && next.conflicts - {p} == plan.conflicts - {p} && next.ignored - {p} == plan.ignored - {p}
  }

  lemma DecidesLocal(plan: FilePlan, scope: Scope, p: Path, delete: bool, base: Option<Hash>, local: Hash, remote: Option<Hash>)
    requires Untouched(plan, p)
    ensures var next := DecideLocal(plan, scope, p, base, local, remote);
            && Alike(plan, next, p)
            && if ScopeContains(scope, p) then PlannedAt(next, p, delete, base, Some(local), remote) else RefusedAt(next, p)
  {
  }

  method PlanLocalFiles(scope: Scope, delete: bool, local: Files, base: Files, vault: Files) returns (plan: FilePlan)
    ensures Planned(plan, local.Keys, scope, delete, local, base, vault)
  {
    plan := FilePlan(map[], map[], map[], {});
    var rest := local.Keys;
    ghost var done: set<Path> := {};
    while rest != {}
      invariant rest !! done && rest + done == local.Keys
      invariant Planned(plan, done, scope, delete, local, base, vault)
    {
      var p :| p in rest;
      LocalStep(plan, done, p, scope, delete, local, base, vault);
      plan := DecideLocal(plan, scope, p, At(base, p), local[p], At(vault, p));
      rest, done := rest - {p}, done + {p};
    }
  }

  lemma DeletedStep(plan: FilePlan, done: set<Path>, p: Path, scope: Scope, delete: bool, local: Files, base: Files, vault: Files)
    requires Planned(plan, done, scope, delete, local, base, vault) && p !in done && p in base && p !in local && ScopeContains(scope, p)
    ensures Planned(DecideDeleted(plan, p, delete, base[p], At(vault, p)), done + {p}, scope, delete, local, base, vault)
  {
    assert PlannedFor(plan, p, done, scope, delete, local, base, vault);
    Step(plan, DecideDeleted(plan, p, delete, base[p], At(vault, p)), done, p, scope, delete, local, base, vault);
  }

  lemma NewStep(plan: FilePlan, done: set<Path>, p: Path, scope: Scope, delete: bool, local: Files, base: Files, vault: Files)
    requires Planned(plan, done, scope, delete, local, base, vault) && p !in done && p in vault && p !in base && p !in local
    requires ScopeContains(scope, p)
    ensures Planned(plan.(conflicts := plan.conflicts[p := NewVaultFile]), done + {p}, scope, delete, local, base, vault)
  {
    assert PlannedFor(plan, p, done, scope, delete, local, base, vault);
    Step(plan, plan.(conflicts := plan.conflicts[p := NewVaultFile]), done, p, scope, delete, local, base, vault);
  }

  // A plan for every path: the comparison inside the scope, and outside it a conflict for
  // each local file.
  ghost predicate FilesPlanned(plan: FilePlan, scope: Scope, delete: bool, local: Files, base: Files, vault: Files) {
    && (forall p | ScopeContains(scope, p) :: PlannedAt(plan, p, delete, At(base, p), At(local, p), At(vault, p)))
    && (forall p | !ScopeContains(scope, p) :: if p in local then RefusedAt(plan, p) else Untouched(plan, p))
  }

  // The loops over the local files, over the manifest and over the vault.
  method PlanFiles(scope: Scope, delete: bool, local: Files, base: Files, vault: Files) returns (plan: FilePlan)
    requires forall p | p in base || p in vault :: ScopeContains(scope, p)
    ensures FilesPlanned(plan, scope, delete, local, base, vault)
  {
    plan := PlanLocalFiles(scope, delete, local, base, vault);
    var rest := base.Keys - local.Keys;
    ghost var done := local.Keys;
    while rest != {}
      invariant rest !! done && rest + done == local.Keys + base.Keys && local.Keys <= done
      invariant Planned(plan, done, scope, delete, local, base, vault)
    {
      var p :| p in rest;
      DeletedStep(plan, done, p, scope, delete, local, base, vault);
      plan := DecideDeleted(plan, p, delete, base[p], At(vault, p));
      rest, done := rest - {p}, done + {p};
    }
    rest := vault.Keys - base.Keys - local.Keys;
    while rest != {}
      invariant rest !! done && rest + done == local.Keys + base.Keys + vault.Keys && local.Keys + base.Keys <= done
      invariant Planned(plan, done, scope, delete, local, base, vault)
    {
      var p :| p in rest;
      NewStep(plan, done, p, scope, delete, local, base, vault);
      plan := plan.(conflicts := plan.conflicts[p := NewVaultFile]);
      rest, done := rest - {p}, done + {p};
    }
    forall p
      ensures ScopeContains(scope, p) ==> PlannedAt(plan, p, delete, At(base, p), At(local, p), At(vault, p))
      ensures !ScopeContains(scope, p) ==> if p in local then RefusedAt(plan, p) else Untouched(plan, p)
    {
      assert PlannedFor(plan, p, done, scope, delete, local, base, vault);
    }
  }

  datatype DirectoryPlan = DirectoryPlan(
    create: set<Path>,
    remove: set<Path>,
    conflicts: map<Path, Reason>,
    ignored: set<Path>)

  // The local directories: those outside the scope conflict, unless the scope lies in
  // them, and so do tracked ones the vault has lost.
  method PlanLocalDirectories(scope: Scope, discovered: set<Path>, local: set<Path>, tracked: set<Path>, vault: set<Path>) returns (plan: DirectoryPlan)
    requires local == set d | d in discovered && ScopeContains(scope, d)
    ensures plan.remove == {} && plan.ignored == {}
    ensures forall d :: d in plan.create <==> d in local && d !in tracked && d !in vault
    ensures forall d :: d in plan.conflicts <==>
              || (d in discovered && d !in local && (scope.All? || !Under(d, scope.path)))
              || (d in local && d in tracked && d !in vault)
    ensures forall d | d in plan.conflicts :: plan.conflicts[d] == if d in local then VaultDirectoryDeleted else OutsideScope
  {
    plan := DirectoryPlan({}, {}, map[], {});
    var rest := discovered;
    while rest != {}
      invariant rest <= discovered && plan.create == {} && plan.remove == {} && plan.ignored == {}
      invariant forall d :: d in plan.conflicts <==>
                  d in discovered - rest && !ScopeContains(scope, d) && (scope.All? || !Under(d, scope.path))
      invariant forall d | d in plan.conflicts :: plan.conflicts[d] == OutsideScope
    {
      var d :| d in rest;
      var structuralAncestor := !scope.All? && Under(d, scope.path);
      if !ScopeContains(scope, d) && !structuralAncestor {
        plan := plan.(conflicts := plan.conflicts[d := OutsideScope]);
      }
      rest := rest - {d};
    }
    rest := local;
    ghost var outside := plan.conflicts.Keys;
    while rest != {}
      invariant rest <= local && plan.remove == {} && plan.ignored == {}
      invariant plan.conflicts.Keys == outside + (set d | d in local - rest && d in tracked && d !in vault)
      invariant forall d | d in plan.conflicts :: plan.conflicts[d] == if d in local then VaultDirectoryDeleted else OutsideScope
      invariant plan.create == set d | d in local - rest && d !in tracked && d !in vault
    {
      var d :| d in rest;
      if d in tracked && d !in vault {
        plan := plan.(conflicts := plan.conflicts[d := VaultDirectoryDeleted]);
      } else if d !in vault {
        plan := plan.(create := plan.create + {d});
      }
      rest := rest - {d};
    }
  }

  // The tracked directories that are no longer in the workspace. The pulled folder itself is
  // never removed.
  method PlanGoneDirectories(plan0: DirectoryPlan, scope: Scope, delete: bool, local: set<Path>, tracked: set<Path>, vault: set<Path>)
    returns (plan: DirectoryPlan)
    requires plan0.remove == {} && plan0.ignored == {}
    ensures plan.create == plan0.create && plan.conflicts == plan0.conflicts
    ensures plan.remove == set d | d in tracked * vault - local && delete && scope != Folder(d)
    ensures plan.ignored == set d | d in tracked * vault - local && (!delete || scope == Folder(d))
  {
    plan := plan0;
    var rest := tracked;
    while rest != {}
      invariant rest <= tracked && plan.create == plan0.create && plan.conflicts == plan0.conflicts
      invariant plan.remove == set d | d in tracked - rest && d !in local && d in vault && delete && scope != Folder(d)
      invariant plan.ignored == set d | d in tracked - rest && d !in local && d in vault && (!delete || scope == Folder(d))
    {
      var d :| d in rest;
      if d !in local && d in vault {
        if scope.Folder? && d == scope.path {
          plan := plan.(ignored := plan.ignored + {d});
        } else if !delete {
          plan := plan.(ignored := plan.ignored + {d});
        } else {
          plan := plan.(remove := plan.remove + {d});
        }
      }
      rest := rest - {d};
    }
  }

  // Directories are compared by presence.
  method PlanDirectories(scope: Scope, delete: bool, discovered: set<Path>, tracked: set<Path>, vault: set<Path>) returns (plan: DirectoryPlan)
    ensures DirectoriesPlanned(plan, scope, delete, discovered, tracked, vault)
  {
    var local := set d | d in discovered && ScopeContains(scope, d);
    plan := PlanLocalDirectories(scope, discovered, local, tracked, vault);
    plan := PlanGoneDirectories(plan, scope, delete, local, tracked, vault);
    var rest := vault;
    ghost var planned := plan;
    while rest != {}
      invariant rest <= vault && plan.create == planned.create && plan.remove == planned.remove && plan.ignored == planned.ignored
      invariant plan.conflicts.Keys == planned.conflicts.Keys + (set d | d in vault - rest && d !in tracked && d !in local)
      invariant forall d | d in plan.conflicts :: plan.conflicts[d] == DirectoryReason(d, local, vault - rest - tracked)
    {
      var d :| d in rest;
      if d !in tracked && d !in local {
        plan := plan.(conflicts := plan.conflicts[d := NewVaultDirectory]);
      }
      rest := rest - {d};
    }
  }

  ghost predicate DirectoriesPlanned(plan: DirectoryPlan, scope: Scope, delete: bool, discovered: set<Path>, tracked: set<Path>, vault: set<Path>) {
    var local := set d | d in discovered && ScopeContains(scope, d);
    && plan.create == local - tracked - vault
    && plan.remove == (set d | d in tracked * vault - local && delete && scope != Folder(d))
    && plan.ignored == (set d | d in tracked * vault - local && (!delete || scope == Folder(d)))
    && (forall d :: d in plan.conflicts <==>
         || (d in discovered - local && (scope.All? || !Under(d, scope.path)))
         || (d in local * tracked - vault)
         || (d in vault - tracked - local))
    && (forall d | d in plan.conflicts :: plan.conflicts[d] == DirectoryReason(d, local, vault - tracked))
  }

  // What is wrong with a directory: the vault has lost it, it is new there, or it is no part
  // of what was pulled.
  ghost function DirectoryReason(d: Path, local: set<Path>, added: set<Path>): Reason {
    if d in local then VaultDirectoryDeleted else if d in added then NewVaultDirectory else OutsideScope
  }
}

module Push {
  import opened Wrappers
  import opened Paths
  import opened FileStore
  import opened TreeCheck
  import opened SyncRequest
  import opened SyncApply
  import opened Snapshot
  import opened Workspaces
  import opened PushPlan

  datatype PushOutcome = Planned | Pushed | PushConflict | NotApplied(applied: SyncApply.Report)
  datatype PushReport = PushReport(outcome: PushOutcome, files: FilePlan, directories: DirectoryPlan, nameClashes: set<Path>)

  // The files and directories of a workspace that a listing shows and whose paths may be
  // vault paths.
  function VisibleFiles(files: Files): Files {
    map p | p in files && IsVaultPath(p) && Listed(p) :: files[p]
  }

  function VisibleDirs(dirs: set<Path>): set<Path> {
    set d | d in dirs && IsVaultPath(d) && Listed(d)
  }

  // The listing of the workspace is not cut off.
  predicate Listable(files: Files, dirs: set<Path>) {
    |ListedFiles(files)| + |ListedDirs(dirs)| <= MAX_TREE_ENTRIES
  }

  // What push finds in the workspace.
  datatype Local = Local(files: Files, dirs: set<Path>, nameClashes: set<Path>)

  method ReadFiles(tree: Store, paths: set<Path>) returns (r: Result<Files>)
    requires tree.Valid()
    modifies tree`files, tree`dirs
    ensures tree.Valid()
    ensures !tree.shared ==> tree.files == old(tree.files) && tree.dirs == old(tree.dirs)
    ensures !tree.shared && r.Ok? ==> r.value == map p | p in paths && p in tree.files :: tree.files[p]
    ensures !tree.shared && !tree.faulty && paths <= tree.files.Keys ==> r.Ok?
  {
    var files: Files := map[];
    var rest := paths;
    while rest != {}
      invariant tree.Valid() && rest <= paths
      invariant !tree.shared ==> tree.files == old(tree.files) && tree.dirs == old(tree.dirs)
      invariant !tree.shared ==> files == map p | p in paths - rest && p in tree.files :: tree.files[p]
    {
      var p :| p in rest;
      tree.Disturb();
      if !tree.shared && p in tree.files {
        NothingAboveWhatIsThere(tree.files, tree.dirs, p);
      }
      var read := tree.Read(p);
      if read.ReadFault? {
        return Err;
      }
      if read.Found? {
        files := files[p := read.hash];
      }
      rest := rest - {p};
    }
    r := Ok(files);
  }

  method ReadLocal(tree: Store) returns (r: Result<Local>)
    requires tree.Valid()
    modifies tree`files, tree`dirs
    ensures tree.Valid()
    ensures !tree.shared ==> tree.files == old(tree.files) && tree.dirs == old(tree.dirs)
    ensures !tree.shared && r.Ok? ==>
              && r.value.files == VisibleFiles(tree.files)
              && r.value.dirs == VisibleDirs(tree.dirs)
              && (r.value.nameClashes == {} <==> NoFoldClash(r.value.files.Keys + r.value.dirs))
    ensures !tree.shared && r.Ok? ==> Listable(tree.files, tree.dirs)
    ensures !tree.shared && !tree.faulty && Listable(tree.files, tree.dirs) ==> r.Ok?
  {
    tree.Disturb();
    var listing := tree.ListPaths();
    if listing.Err? || |listing.value| > MAX_TREE_ENTRIES {
      return Err;
    }
    ListingParts(listing.value, tree.files, tree.dirs);
    var paths := set e | e in listing.value && IsVaultPath(e.path) && e.isFile :: e.path;
    var dirs := set e | e in listing.value && IsVaultPath(e.path) && !e.isFile :: e.path;
    var files := ReadFiles(tree, paths);
    if files.Err? {
      return Err;
    }
    var clashes := NameClashes(paths + dirs);
    r := Ok(Local(files.value, dirs, clashes));
  }

  lemma ListingParts(es: seq<Entry>, files: Files, dirs: set<Path>)
    requires IsListing(es, ListedFiles(files).Keys, ListedDirs(dirs))
    ensures (set e | e in es && IsVaultPath(e.path) && e.isFile :: e.path) == VisibleFiles(files).Keys
    ensures (set e | e in es && IsVaultPath(e.path) && !e.isFile :: e.path) == VisibleDirs(dirs)
  {
    assert forall p :: p in VisibleFiles(files) <==> IsVaultPath(p) && Entry(p, true) in es;
    assert forall p :: p in VisibleDirs(dirs) <==> IsVaultPath(p) && Entry(p, false) in es;
  }

  // The request syncApply receives: all of the plan, once.
  ghost predicate IsRequestFor(req: Request, files: FilePlan, directories: DirectoryPlan) {
    && (forall w :: w in req.writes <==>
          w.path in files.writes && w == WriteRequest(w.path, files.writes[w.path].content, files.writes[w.path].expected))
    && (forall d :: d in req.deletes <==> d.path in files.deletes && d.expected == files.deletes[d.path])
    && NewDirs(req) == directories.create
    && OldDirs(req) == directories.remove
    && Once(req) && !req.dryRun
  }

  ghost predicate Once(req: Request) {
    && (forall i, j | 0 <= i < j < |req.writes| :: req.writes[i].path != req.writes[j].path)
    && (forall i, j | 0 <= i < j < |req.deletes| :: req.deletes[i].path != req.deletes[j].path)
    && NoRepeats(req.directories) && NoRepeats(req.deleteDirectories)
  }

  method MakeRequest(files: FilePlan, directories: DirectoryPlan) returns (req: Request)
    ensures IsRequestFor(req, files, directories)
  {
    var writes: seq<WriteRequest> := [];
    var rest := files.writes.Keys;
    while rest != {}
      invariant rest <= files.writes.Keys
      invariant forall w :: w in writes <==>
                  w.path in files.writes.Keys - rest && w == WriteRequest(w.path, files.writes[w.path].content, files.writes[w.path].expected)
      invariant forall i, j | 0 <= i < j < |writes| :: writes[i].path != writes[j].path
    {
      var p :| p in rest;
      assert forall w | w in writes :: w.path != p;
      writes := writes + [WriteRequest(p, files.writes[p].content, files.writes[p].expected)];
      rest := rest - {p};
    }
    var deletes := ListDeletes(files.deletes);
    var create := ListOf(directories.create);
    var remove := ListOf(directories.remove);
    req := Request(writes, deletes, create, remove, false);
  }

  method ListDeletes(planned: map<Path, Hash>) returns (deletes: seq<DeleteRequest>)
    ensures forall d :: d in deletes <==> d.path in planned && d.expected == planned[d.path]
    ensures forall i, j | 0 <= i < j < |deletes| :: deletes[i].path != deletes[j].path
  {
    deletes := [];
    var rest := planned.Keys;
    while rest != {}
      invariant rest <= planned.Keys
      invariant forall d :: d in deletes <==> d.path in planned.Keys - rest && d.expected == planned[d.path]
      invariant forall i, j | 0 <= i < j < |deletes| :: deletes[i].path != deletes[j].path
    {
      var p :| p in rest;
      assert forall d | d in deletes :: d.path != p;
      deletes := deletes + [DeleteRequest(p, planned[p])];
      rest := rest - {p};
    }
  }

  // Where a push leaves one path of the vault.
  function PushedAt(delete: bool, base: Option<Hash>, local: Option<Hash>, vault: Option<Hash>): Option<Hash> {
    if !delete && local.None? && base.Some? then vault else local
  }

  ghost predicate AfterPush(scope: Scope, delete: bool, local: Files, base: Files, vault0: Files, vault: Files) {
    forall p :: At(vault, p) ==
      if Covered(scope, p) then PushedAt(delete, At(base, p), At(local, p), At(vault0, p)) else At(vault0, p)
  }

  // Whatever others do meanwhile, the plan takes every file from what the manifest has to
  // what the workspace was seen to have.
  ghost predicate Grounded(files: FilePlan, directories: DirectoryPlan, base: Files, target: Files, baseDirs: set<Path>) {
    && (forall p | p in files.writes :: files.writes[p].expected == At(base, p) && At(target, p) == Some(files.writes[p].content))
    && (forall p | p in files.deletes :: Some(files.deletes[p]) == At(base, p) && p !in target)
    && directories.remove <= baseDirs
  }

  // Nothing is planned outside the scope.
  ghost predicate PlanStaysIn(scope: Scope, files: FilePlan, directories: DirectoryPlan) {
    forall p | p in files.writes.Keys + files.deletes.Keys + directories.create + directories.remove :: InSubtree(scope, p)
  }

  lemma PlannedInScope(files: FilePlan, directories: DirectoryPlan, scope: Scope, delete: bool, local: Files, base: Files, vault: Files,
                       discovered: set<Path>, tracked: set<Path>, vaultDirs: set<Path>)
    requires FilesPlanned(files, scope, delete, local, base, vault)
    requires DirectoriesPlanned(directories, scope, delete, discovered, tracked, vaultDirs)
    requires forall d | d in vaultDirs :: Covered(scope, d)
    ensures PlanStaysIn(scope, files, directories)
  {
    forall p | p in files.writes.Keys + files.deletes.Keys ensures InSubtree(scope, p) {
      assert !ScopeContains(scope, p) ==> RefusedAt(files, p) || Untouched(files, p);
    }
  }

  lemma PlannedIsGrounded(files: FilePlan, directories: DirectoryPlan, scope: Scope, delete: bool, local: Files, base: Files, vault: Files, baseDirs: set<Path>)
    requires FilesPlanned(files, scope, delete, local, base, vault) && directories.remove <= baseDirs
    ensures Grounded(files, directories, base, local, baseDirs)
  {
    forall p | p in files.writes || p in files.deletes
      ensures p in files.writes ==> files.writes[p].expected == At(base, p) && At(local, p) == Some(files.writes[p].content)
      ensures p in files.deletes ==> Some(files.deletes[p]) == At(base, p) && p !in local
    {
      assert ScopeContains(scope, p);
      assert PlannedAt(files, p, delete, At(base, p), At(local, p), At(vault, p));
    }
  }

  // The changes a push makes to files, whoever else edits them: each takes a path from what
  // the manifest has to what the workspace was seen to have. The exception is that of pull.
  ghost predicate ChangedOnly(before: seq<Change>, after: seq<Change>, base: Files, target: Files, baseDirs: set<Path>) {
    && before <= after
    && (forall i | |before| <= i < |after| ::
          || after[i] == Change(after[i].path, At(base, after[i].path), At(target, after[i].path))
          || (after[i].path in baseDirs && after[i].before.Some? && after[i].after.None?))
  }

  lemma RequestedOnly(log0: seq<Change>, log: seq<Change>, req: Request, files: FilePlan, directories: DirectoryPlan,
                      base: Files, target: Files, baseDirs: set<Path>)
    requires LogGrows(log0, log, req) && IsRequestFor(req, files, directories) && Grounded(files, directories, base, target, baseDirs)
    ensures ChangedOnly(log0, log, base, target, baseDirs)
    ensures forall scope | PlanStaysIn(scope, files, directories) :: StaysIn(scope, log0, log)
  {
    forall i | |log0| <= i < |log|
      ensures log[i].path in files.writes.Keys + files.deletes.Keys + directories.remove
      ensures log[i] == Change(log[i].path, At(base, log[i].path), At(target, log[i].path))
           || (log[i].path in baseDirs && log[i].before.Some? && log[i].after.None?)
    {
      var c := log[i];
      assert Requested(req, c);
      if exists w | w in req.writes :: c == Change(w.path, w.expected, Some(w.content)) {
        assert c.path in files.writes;
      } else if exists d | d in req.deletes :: c == Change(d.path, Some(d.expected), None) {
        assert c.path in files.deletes;
      } else {
        assert c.path in OldDirs(req);
      }
    }
  }

  // Every write and every delete of the plan was made.
  ghost predicate PlanMade(before: seq<Change>, after: seq<Change>, files: FilePlan) {
    && (forall p | p in files.writes :: Made(before, after, Change(p, files.writes[p].expected, Some(files.writes[p].content))))
    && (forall p | p in files.deletes :: Made(before, after, Change(p, Some(files.deletes[p]), None)))
  }

  // What syncApply reports about the plan is true of the log.
  ghost predicate PlanBacked(report: PushReport, applied: SyncApply.Report, before: seq<Change>, after: seq<Change>) {
    exists req :: IsRequestFor(req, report.files, report.directories) && Backed(req, before, after, applied)
  }

  // Every request for the plan can be pushed.
  ghost predicate PlanPushable(report: PushReport, files: Files, dirs: set<Path>, scope: Scope) {
    forall req | IsRequestFor(req, report.files, report.directories) :: Pushable(req, files, dirs, scope)
  }

  lemma RequestMade(log0: seq<Change>, log: seq<Change>, req: Request, files: FilePlan, directories: DirectoryPlan)
    requires AllMade(req, log0, log) && IsRequestFor(req, files, directories)
    ensures PlanMade(log0, log, files)
  {
    forall p | p in files.writes ensures Made(log0, log, Change(p, files.writes[p].expected, Some(files.writes[p].content))) {
      assert WriteRequest(p, files.writes[p].content, files.writes[p].expected) in req.writes;
    }
    forall p | p in files.deletes ensures Made(log0, log, Change(p, Some(files.deletes[p]), None)) {
      assert DeleteRequest(p, files.deletes[p]) in req.deletes;
    }
  }

  // One path of the vault after the plan was carried out.
  lemma PushedPath(files: FilePlan, scope: Scope, delete: bool, local: Files, base: Files, files0: Files, files1: Files, removed: bool, p: Path)
    requires ScopeContains(scope, p) ==> PlannedAt(files, p, delete, At(base, p), At(local, p), At(ScopedFiles(files0, scope), p))
    requires !ScopeContains(scope, p) ==> Untouched(files, p)
    requires p !in files.conflicts && (removed ==> p !in files0 && p !in files.writes)
    requires (p in local ==> IsVaultPath(p) && Listed(p)) && (p in base ==> IsVaultPath(p))
    requires At(files1, p) == if p in files.writes then Some(files.writes[p].content) else if p in files.deletes || removed then None else At(files0, p)
    ensures At(files1, p) ==
            if Covered(scope, p) then PushedAt(delete, At(base, p), At(local, p), At(files0, p)) else At(files0, p)
  {
    assert At(ScopedFiles(files0, scope), p) == if Covered(scope, p) then At(files0, p) else None;
  }

  lemma PushedVault(req: Request, files: FilePlan, directories: DirectoryPlan, scope: Scope, delete: bool,
                    local: Files, base: Files, files0: Files, dirs0: set<Path>, files1: Files, dirs1: set<Path>)
    requires WellFormed(files0, dirs0) && ValidTree(RequestEntries(req)) && IsRequestFor(req, files, directories)
    requires FilesPlanned(files, scope, delete, local, base, ScopedFiles(files0, scope)) && files.conflicts == map[]
    requires directories.remove <= dirs0
    requires forall p | p in local :: IsVaultPath(p) && Listed(p)
    requires forall p | p in base :: IsVaultPath(p)
    requires Performed(req, files0, dirs0, files1, dirs1)
    ensures AfterPush(scope, delete, local, base, files0, files1)
  {
    RequestPartsDisjoint(req);
    WritesAndDeletes(req, files, directories);
    forall p
      ensures At(files1, p) ==
              if Covered(scope, p) then PushedAt(delete, At(base, p), At(local, p), At(files0, p)) else At(files0, p)
    {
      if p in files.writes {
        assert WriteRequest(p, files.writes[p].content, files.writes[p].expected) in req.writes;
      }
      PushedPath(files, scope, delete, local, base, files0, files1, p in OldDirs(req), p);
    }
  }

  lemma WritesAndDeletes(req: Request, files: FilePlan, directories: DirectoryPlan)
    requires IsRequestFor(req, files, directories)
    ensures WritePaths(req) == files.writes.Keys && DeletePaths(req) == files.deletes.Keys
  {
    forall p | p in files.writes ensures p in WritePaths(req) {
      assert WriteRequest(p, files.writes[p].content, files.writes[p].expected) in req.writes;
    }
    forall p | p in files.deletes ensures p in DeletePaths(req) {
      assert DeleteRequest(p, files.deletes[p]) in req.deletes;
    }
  }

  // The vault directories after a push: what was there, the new local directories and the
  // parents of what was written, less the directories removed.
  ghost predicate DirsAfterPush(plan: DirectoryPlan, written: set<Path>, dirs0: set<Path>, dirs: set<Path>) {
    dirs == dirs0 + plan.create + ParentsOf(plan.create) + ParentsOf(written) - plan.remove
  }

  // The plan is fresh: it was made for the vault as it is.
  lemma PlanIsFresh(req: Request, files: FilePlan, directories: DirectoryPlan, scope: Scope, delete: bool,
                    local: Files, base: Files, vault: Files)
    requires IsRequestFor(req, files, directories)
    requires FilesPlanned(files, scope, delete, local, base, ScopedFiles(vault, scope))
    requires forall p | p in local :: IsVaultPath(p) && Listed(p)
    ensures Fresh(req, vault)
  {
    forall p | p in files.writes || p in files.deletes
      ensures p in files.writes ==> At(vault, p) == files.writes[p].expected
      ensures p in files.deletes ==> At(vault, p) == Some(files.deletes[p])
    {
      assert PlannedAt(files, p, delete, At(base, p), At(local, p), At(ScopedFiles(vault, scope), p));
    }
  }

  // What it takes for a conflict-free plan to be pushed to this vault: the request is
  // admissible, nothing in the whole tree is in its way, and a snapshot can be taken of the
  // result.
  ghost predicate Pushable(req: Request, files0: Files, dirs0: set<Path>, scope: Scope) {
    && Admissible(req, files0, dirs0) && Unobstructed(req, files0, dirs0)
    && (forall files, dirs | Performed(req, files0, dirs0, files, dirs) :: Snapshotable(files, dirs, scope))
  }

  lemma PerformedIsUnique(req: Request, files0: Files, dirs0: set<Path>, files: Files, dirs: set<Path>, files': Files, dirs': set<Path>)
    requires Performed(req, files0, dirs0, files, dirs) && Performed(req, files0, dirs0, files', dirs')
    ensures files == files' && dirs == dirs'
  {
    forall p ensures At(files, p) == At(files', p) {
      if p in WritePaths(req) {
        var w :| w in req.writes && w.path == p;
        assert At(files, p) == Some(w.content) && At(files', p) == Some(w.content);
      }
    }
    assert forall p :: p in files <==> At(files, p).Some?;
    assert forall p :: p in files' <==> At(files', p).Some?;
    assert forall p | p in files :: files[p] == At(files, p).value == At(files', p).value == files'[p];
  }

  // Two requests with the same parts, in whatever order.
  ghost predicate SameParts(req: Request, req': Request) {
    && (forall w :: w in req.writes <==> w in req'.writes)
    && WritePaths(req) == WritePaths(req') && DeletePaths(req) == DeletePaths(req')
    && NewDirs(req) == NewDirs(req') && OldDirs(req) == OldDirs(req')
    && Once(req) && Once(req')
  }

  lemma SameForPlan(req: Request, req': Request, files: FilePlan, directories: DirectoryPlan)
    requires IsRequestFor(req, files, directories) && IsRequestFor(req', files, directories)
    ensures SameParts(req, req')
  {
    WritesAndDeletes(req, files, directories);
    WritesAndDeletes(req', files, directories);
  }

  lemma AdmissibleIsOrderless(req: Request, req': Request, files: Files, dirs: set<Path>)
    requires SameParts(req, req') && Admissible(req, files, dirs)
    ensures Admissible(req', files, dirs)
  {
    RequestValidExactlyWhen(req);
    RequestValidExactlyWhen(req');
    forall d | d in OldDirs(req') ensures EmptiedBy(req', ListedFiles(files).Keys, ListedDirs(dirs), d) {
      assert EmptiedBy(req, ListedFiles(files).Keys, ListedDirs(dirs), d);
    }
  }

  lemma UnobstructedIsOrderless(req: Request, req': Request, files: Files, dirs: set<Path>)
    requires SameParts(req, req') && Unobstructed(req, files, dirs)
    ensures Unobstructed(req', files, dirs)
  {
  }

  // The order of a request does not matter.
  lemma PushableIsOrderless(req: Request, req': Request, files0: Files, dirs0: set<Path>, scope: Scope)
    requires SameParts(req, req') && Pushable(req, files0, dirs0, scope)
    ensures Pushable(req', files0, dirs0, scope)
  {
    AdmissibleIsOrderless(req, req', files0, dirs0);
    UnobstructedIsOrderless(req, req', files0, dirs0);
    forall files, dirs | Performed(req', files0, dirs0, files, dirs) ensures Snapshotable(files, dirs, scope) {
      PerformedIsOrderless(req, req', files0, dirs0, files, dirs);
    }
  }

  lemma PerformedIsOrderless(req: Request, req': Request, files0: Files, dirs0: set<Path>, files: Files, dirs: set<Path>)
    requires SameParts(req, req') && Performed(req', files0, dirs0, files, dirs)
    ensures Performed(req, files0, dirs0, files, dirs)
  {
  }

  lemma AnyRequestWillDo(req: Request, report: PushReport, files0: Files, dirs0: set<Path>, scope: Scope)
    requires IsRequestFor(req, report.files, report.directories)
    ensures Pushable(req, files0, dirs0, scope) <==> PlanPushable(report, files0, dirs0, scope)
  {
    if Pushable(req, files0, dirs0, scope) {
      forall req' | IsRequestFor(req', report.files, report.directories) ensures Pushable(req', files0, dirs0, scope) {
        SameForPlan(req, req', report.files, report.directories);
        PushableIsOrderless(req, req', files0, dirs0, scope);
      }
    }
  }

  // What was performed is the one result there can be.
  lemma PushableMeans(req: Request, files0: Files, dirs0: set<Path>, scope: Scope, files: Files, dirs: set<Path>)
    requires Performed(req, files0, dirs0, files, dirs)
    ensures Pushable(req, files0, dirs0, scope) <==>
            Admissible(req, files0, dirs0) && Unobstructed(req, files0, dirs0) && Snapshotable(files, dirs, scope)
  {
    forall files1, dirs1 | Performed(req, files0, dirs0, files1, dirs1) ensures files1 == files && dirs1 == dirs {
      PerformedIsUnique(req, files0, dirs0, files1, dirs1, files, dirs);
    }
  }

  predicate NoConflict(report: PushReport) {
    report.files.conflicts == map[] && report.directories.conflicts == map[] && report.nameClashes == {}
  }

  // The comparison, without its consequences. seen is what it read of the workspace.
  method Compare(vault: Store, ws: Workspace, m: Manifest, delete: bool) returns (r: Result<PushReport>, ghost seen: Files)
    requires vault.Valid() && ws.tree.Valid() && vault != ws.tree && InScope(m)
    modifies vault`files, vault`dirs, ws.tree`files, ws.tree`dirs
    ensures vault.Valid() && ws.tree.Valid()
    ensures !vault.shared ==> vault.files == old(vault.files) && vault.dirs == old(vault.dirs)
    ensures !ws.tree.shared ==> ws.tree.files == old(ws.tree.files) && ws.tree.dirs == old(ws.tree.dirs)
    ensures r.Ok? ==>
              && Grounded(r.value.files, r.value.directories, m.entries, seen, m.directories)
              && PlanStaysIn(m.scope, r.value.files, r.value.directories)
              && r.value.outcome == (if NoConflict(r.value) then Planned else PushConflict)
    ensures !vault.shared && !ws.tree.shared && r.Ok? ==>
              ComparedTo(r.value, m, delete, ws.tree.files, ws.tree.dirs, vault.files, vault.dirs) && seen == VisibleFiles(ws.tree.files)
    ensures !vault.shared && !ws.tree.shared && r.Ok? ==>
              Snapshotable(vault.files, vault.dirs, m.scope) && Listable(ws.tree.files, ws.tree.dirs)
    ensures !vault.shared && !ws.tree.shared && !vault.faulty && !ws.tree.faulty ==>
              Snapshotable(vault.files, vault.dirs, m.scope) && Listable(ws.tree.files, ws.tree.dirs) ==> r.Ok?
  {
    seen := map[];
    var snapshot := SyncSnapshot(vault, m.scope);
    if snapshot.Err? {
      return Err, seen;
    }
    var local := ReadLocal(ws.tree);
    if local.Err? {
      return Err, seen;
    }
    seen := local.value.files;
    var files := PlanFiles(m.scope, delete, local.value.files, m.entries, snapshot.value.files);
    var directories := PlanDirectories(m.scope, delete, local.value.dirs, m.directories, snapshot.value.directories);
    PlannedIsGrounded(files, directories, m.scope, delete, local.value.files, m.entries, snapshot.value.files, m.directories);
    PlannedInScope(files, directories, m.scope, delete, local.value.files, m.entries, snapshot.value.files,
                   local.value.dirs, m.directories, snapshot.value.directories);
    var report := PushReport(Planned, files, directories, local.value.nameClashes);
    r := Ok(if NoConflict(report) then report else report.(outcome := PushConflict));
  }

  // The plans are those of the three-way comparison of manifest, workspace and vault.
  ghost predicate ComparedTo(report: PushReport, m: Manifest, delete: bool, local: Files, localDirs: set<Path>, vault: Files, vaultDirs: set<Path>) {
    && FilesPlanned(report.files, m.scope, delete, VisibleFiles(local), m.entries, ScopedFiles(vault, m.scope))
    && DirectoriesPlanned(report.directories, m.scope, delete, VisibleDirs(localDirs), m.directories, ScopedDirs(vaultDirs, m.scope))
    && (report.nameClashes == {} <==> NoFoldClash(VisibleFiles(local).Keys + VisibleDirs(localDirs)))
  }

  // The three sides after a push.
  ghost predicate PushedAs(report: PushReport, m: Manifest, delete: bool, local: Files, vault0: Files, vaultDirs0: set<Path>,
                           vault: Files, vaultDirs: set<Path>, manifest: Option<Manifest>) {
    && AfterPush(m.scope, delete, VisibleFiles(local), m.entries, vault0, vault)
    && DirsAfterPush(report.directories, report.files.writes.Keys, vaultDirs0, vaultDirs)
    && manifest == Some(m.(entries := ScopedFiles(vault, m.scope), directories := ScopedDirs(vaultDirs, m.scope)))
    && Snapshotable(vault, vaultDirs, m.scope)
  }

  // Sends the request for a conflict-free plan. With no other editor it is applied exactly
  // when it is admissible and nothing in the vault is in its way.
  method Deliver(vault: Store, m: Manifest, delete: bool, report: PushReport, ghost seen: Files, ghost local: Files, ghost localDirs: set<Path>)
    returns (applied: Result<SyncApply.Report>, ghost req: Request)
    requires vault.Valid() && InScope(m) && report.files.conflicts == map[]
    requires Grounded(report.files, report.directories, m.entries, seen, m.directories) && PlanStaysIn(m.scope, report.files, report.directories)
    modifies vault
    ensures vault.Valid() && IsRequestFor(req, report.files, report.directories)
    ensures ChangedOnly(old(vault.log), vault.log, m.entries, seen, m.directories)
    ensures StaysIn(m.scope, old(vault.log), vault.log)
    ensures applied.Ok? ==> Backed(req, old(vault.log), vault.log, applied.value)
    ensures applied.Ok? && applied.value.outcome == Applied ==> PlanMade(old(vault.log), vault.log, report.files)
    ensures !vault.shared && ComparedTo(report, m, delete, local, localDirs, old(vault.files), old(vault.dirs)) &&
            applied.Ok? && applied.value.outcome == Applied ==>
              && Performed(req, old(vault.files), old(vault.dirs), vault.files, vault.dirs)
              && AfterPush(m.scope, delete, VisibleFiles(local), m.entries, old(vault.files), vault.files)
              && DirsAfterPush(report.directories, report.files.writes.Keys, old(vault.dirs), vault.dirs)
              && Admissible(req, old(vault.files), old(vault.dirs))
    ensures !vault.shared && !vault.faulty && ComparedTo(report, m, delete, local, localDirs, old(vault.files), old(vault.dirs)) ==>
              (applied.Ok? && applied.value.outcome == Applied <==>
                 Admissible(req, old(vault.files), old(vault.dirs)) && Unobstructed(req, old(vault.files), old(vault.dirs)))
  {
    ghost var files0, dirs0, log0 := vault.files, vault.dirs, vault.log;
    var request := MakeRequest(report.files, report.directories);
    req := request;
    ghost var compared := ComparedTo(report, m, delete, local, localDirs, files0, dirs0);
    if compared {
      PlanIsFresh(req, report.files, report.directories, m.scope, delete, VisibleFiles(local), m.entries, files0);
    }
    applied := Apply(vault, request);
    RequestedOnly(log0, vault.log, req, report.files, report.directories, m.entries, seen, m.directories);
    if applied.Err? || applied.value.outcome != Applied {
      return;
    }
    RequestMade(log0, vault.log, req, report.files, report.directories);
    if compared && !vault.shared {
      DeliveredAs(req, report, m, delete, local, localDirs, files0, dirs0, vault.files, vault.dirs);
    }
  }

  // What a request for a compared plan does when all of it is performed.
  lemma DeliveredAs(req: Request, report: PushReport, m: Manifest, delete: bool, local: Files, localDirs: set<Path>,
                    files0: Files, dirs0: set<Path>, files: Files, dirs: set<Path>)
    requires ComparedTo(report, m, delete, local, localDirs, files0, dirs0) && InScope(m) && report.files.conflicts == map[]
    requires WellFormed(files0, dirs0) && IsRequestFor(req, report.files, report.directories)
    requires ValidTree(RequestEntries(req)) && Performed(req, files0, dirs0, files, dirs)
    ensures AfterPush(m.scope, delete, VisibleFiles(local), m.entries, files0, files)
    ensures DirsAfterPush(report.directories, report.files.writes.Keys, dirs0, dirs)
  {
    WritesAndDeletes(req, report.files, report.directories);
    PushedVault(req, report.files, report.directories, m.scope, delete, VisibleFiles(local), m.entries, files0, dirs0, files, dirs);
  }

  // Takes a new snapshot and writes the manifest from it.
  method Conclude(vault: Store, ws: Workspace, m: Manifest) returns (ok: bool)
    requires vault.Valid() && ws.manifest == Some(m) && vault != ws.tree
    modifies vault`files, vault`dirs, ws`manifest
    ensures vault.Valid()
    ensures !vault.shared ==> vault.files == old(vault.files) && vault.dirs == old(vault.dirs)
    ensures !vault.shared && ok ==>
              && ws.manifest == Some(m.(entries := ScopedFiles(vault.files, m.scope), directories := ScopedDirs(vault.dirs, m.scope)))
              && Snapshotable(vault.files, vault.dirs, m.scope)
    ensures !vault.shared && !vault.faulty && !ws.tree.shared && !ws.tree.faulty ==> (ok <==> Snapshotable(vault.files, vault.dirs, m.scope))
  {
    var refreshed := SyncSnapshot(vault, m.scope);
    if refreshed.Err? {
      return false;
    }
    ghost var found;
    ok, found := ws.WriteManifest(StateFromSnapshot(m.vaultId, refreshed.value), Some(m));
  }

  // Sends a conflict-free plan and, if all of it is applied, brings the manifest up to date.
  method Send(vault: Store, ws: Workspace, m: Manifest, delete: bool, report: PushReport, ghost seen: Files) returns (r: Result<PushReport>)
    requires vault.Valid() && ws.tree.Valid() && vault != ws.tree && InScope(m) && ws.manifest == Some(m)
    requires Grounded(report.files, report.directories, m.entries, seen, m.directories) && PlanStaysIn(m.scope, report.files, report.directories)
    requires report.files.conflicts == map[]
    requires !vault.shared && !ws.tree.shared ==> ComparedTo(report, m, delete, ws.tree.files, ws.tree.dirs, vault.files, vault.dirs)
    modifies vault, ws`manifest
    ensures vault.Valid()
    ensures ChangedOnly(old(vault.log), vault.log, m.entries, seen, m.directories)
    ensures StaysIn(m.scope, old(vault.log), vault.log)
    ensures r.Ok? ==> r.value.(outcome := Planned) == report.(outcome := Planned)
    ensures r.Ok? ==> r.value.outcome.Pushed? || r.value.outcome.NotApplied?
    ensures r.Ok? && r.value.outcome.Pushed? ==> PlanMade(old(vault.log), vault.log, report.files)
    ensures r.Ok? && r.value.outcome.NotApplied? ==> PlanBacked(report, r.value.outcome.applied, old(vault.log), vault.log)
    ensures !vault.shared && !ws.tree.shared && r.Ok? && r.value.outcome.Pushed? ==>
              PushedAs(report, m, delete, ws.tree.files, old(vault.files), old(vault.dirs), vault.files, vault.dirs, ws.manifest)
    ensures !vault.shared && !ws.tree.shared && !vault.faulty && !ws.tree.faulty ==>
              (r.Ok? && r.value.outcome.Pushed? <==> PlanPushable(report, old(vault.files), old(vault.dirs), m.scope))
  {
    ghost var files0, dirs0, log0 := vault.files, vault.dirs, vault.log;
    var applied, req := Deliver(vault, m, delete, report, seen, ws.tree.files, ws.tree.dirs);
    AnyRequestWillDo(req, report, files0, dirs0, m.scope);
    if applied.Err? {
      return Err;
    }
    if applied.value.outcome != Applied {
      return Ok(report.(outcome := NotApplied(applied.value)));
    }
    ghost var files1, dirs1 := vault.files, vault.dirs;
    if !vault.shared && !ws.tree.shared {
      PushableMeans(req, files0, dirs0, m.scope, files1, dirs1);
    }
    var ok := Conclude(vault, ws, m);
    if !ok {
      return Err;
    }
    r := Ok(report.(outcome := Pushed));
  }

  // What push and status need to get as far as the comparison.
  ghost predicate CanCompare(manifest: Option<Manifest>, vaultId: Option<string>, local: Files, localDirs: set<Path>, vault: Files, vaultDirs: set<Path>) {
    && manifest.Some? && InScope(manifest.value) && (vaultId.Some? ==> vaultId.value == manifest.value.vaultId)
    && Snapshotable(vault, vaultDirs, manifest.value.scope) && Listable(local, localDirs)
  }

  // compared is the comparison, when it was made, and seen what it read of the workspace.
  method RunPush(vault: Store, vaultId: Option<string>, ws: Workspace, delete: bool, dryRun: bool, apply: bool)
    returns (r: Result<PushReport>, ghost compared: Option<PushReport>, ghost seen: Files)
    requires vault.Valid() && ws.tree.Valid() && vault != ws.tree
    modifies vault, ws`manifest, ws.tree`files, ws.tree`dirs
    ensures vault.Valid() && ws.tree.Valid()
    ensures !ws.tree.shared ==> ws.tree.files == old(ws.tree.files) && ws.tree.dirs == old(ws.tree.dirs)
    ensures r.Ok? ==> old(ws.manifest).Some? && (vaultId.Some? ==> vaultId.value == old(ws.manifest).value.vaultId)
    ensures r.Ok? ==> compared.Some? && r.value.(outcome := Planned) == compared.value.(outcome := Planned)
    ensures compared.Some? ==> compared.value.outcome == if NoConflict(compared.value) then Planned else PushConflict
    ensures r.Ok? ==> (r.value.outcome.PushConflict? <==> compared.value.outcome == PushConflict)
    ensures r.Ok? ==> (r.value.outcome.Planned? <==> !r.value.outcome.PushConflict? && (!apply || dryRun))
    // Whoever else edits the vault, each file is taken from what the manifest has to what the
    // workspace was seen to have, and by a complete push every planned file is; without
    // apply, in a dry run and after a conflict nothing is changed.
    ensures ChangedOnly(old(vault.log), vault.log, Base(old(ws.manifest)), seen, BaseDirs(old(ws.manifest)))
    // No file outside the scope is changed, and nothing outside it is planned.
    ensures vault.log == old(vault.log) || (old(ws.manifest).Some? && StaysIn(old(ws.manifest).value.scope, old(vault.log), vault.log))
    ensures compared.Some? && old(ws.manifest).Some? ==> PlanStaysIn(old(ws.manifest).value.scope, compared.value.files, compared.value.directories)
    ensures !apply || dryRun || (r.Ok? && r.value.outcome.PushConflict?) ==> vault.log == old(vault.log) && ws.manifest == old(ws.manifest)
    ensures r.Ok? && r.value.outcome.Pushed? ==> PlanMade(old(vault.log), vault.log, r.value.files)
    ensures r.Ok? && r.value.outcome.NotApplied? ==> PlanBacked(r.value, r.value.outcome.applied, old(vault.log), vault.log)
    ensures !vault.shared && (!apply || dryRun || (r.Ok? && r.value.outcome.PushConflict?)) ==>
              vault.files == old(vault.files) && vault.dirs == old(vault.dirs)
    // With no other editor, the plan is the three-way comparison and a push carries it out.
    ensures !vault.shared && !ws.tree.shared && compared.Some? ==>
              && CanCompare(old(ws.manifest), vaultId, old(ws.tree.files), old(ws.tree.dirs), old(vault.files), old(vault.dirs))
              && ComparedTo(compared.value, old(ws.manifest).value, delete, old(ws.tree.files), old(ws.tree.dirs), old(vault.files), old(vault.dirs))
              && seen == VisibleFiles(old(ws.tree.files))
    ensures !vault.shared && !ws.tree.shared && r.Ok? && r.value.outcome.Pushed? ==>
              PushedAs(r.value, old(ws.manifest).value, delete, old(ws.tree.files), old(vault.files), old(vault.dirs), vault.files, vault.dirs, ws.manifest)
    // On healthy hosts the comparison is made exactly when it can be; status and a conflict
    // then return it, and a push completes exactly when the vault lets it.
    ensures !vault.shared && !ws.tree.shared && !vault.faulty && !ws.tree.faulty ==>
              && (compared.Some? <==> CanCompare(old(ws.manifest), vaultId, old(ws.tree.files), old(ws.tree.dirs), old(vault.files), old(vault.dirs)))
              && (compared.Some? && (!apply || dryRun || compared.value.outcome == PushConflict) ==> r.Ok?)
    ensures !vault.shared && !ws.tree.shared && !vault.faulty && !ws.tree.faulty && apply && !dryRun ==>
              (r.Ok? && r.value.outcome.Pushed? <==>
                && compared.Some? && compared.value.outcome == Planned
                && PlanPushable(compared.value, old(vault.files), old(vault.dirs), old(ws.manifest).value.scope))
  {
    compared, seen := None, map[];
    var existing := ws.ReadManifest();
    if existing.Err? || existing.value.None? || (vaultId.Some? && vaultId.value != existing.value.value.vaultId) {
      return Err, compared, seen;
    }
    var m := existing.value.value;
    r, seen := Compare(vault, ws, m, delete);
    if r.Err? {
      return;
    }
    compared := Some(r.value);
    if !apply || dryRun || r.value.outcome == PushConflict {
      return;
    }
    r := Send(vault, ws, m, delete, r.value, seen);
  }
}
