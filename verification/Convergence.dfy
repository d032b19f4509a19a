// What the commands guarantee together: pull is the three-way merge, a pull followed by a
// push --delete makes workspace, vault and manifest agree on it, and then there is
// nothing left to do.

module Convergence {
  import opened Wrappers
  import opened Paths
  import opened FileStore
  import opened SyncApply
  import opened Snapshot
  import opened ThreeWay
  import opened Workspaces
  import opened Pull
  import opened PushPlan
  import opened Push

  // The condition for a complete pull to be the merge: no directory the vault has lost is,
  // on either side, a file the merge keeps.
  ghost predicate NoFileWhereDirectoryWas(base: Files, local: Files, vault: Files, lost: set<Path>) {
    forall d | d in lost :: if At(local, d) == At(base, d) then d !in vault else d !in local
  }

  lemma PullIsMergeExactlyWhen(base: Files, local: Files, vault: Files, lost: set<Path>, files: Files)
    requires AfterPull(base, local, vault, lost, files)
    ensures IsMerge(base, local, vault, files) <==> NoFileWhereDirectoryWas(base, local, vault, lost)
  {
    if IsMerge(base, local, vault, files) {
      forall d | d in lost
        ensures if At(local, d) == At(base, d) then d !in vault else d !in local
      {
        assert At(files, d) == MergeAt(At(base, d), At(local, d), At(vault, d));
        assert At(files, d) == None;
      }
    }
  }

  // The vault is empty, the manifest lists a directory, and the workspace has a file in its
  // place and nothing else.
  ghost predicate ReplacedDirectory(d: Path, local: Files) {
    IsVaultPath(d) && Ancestors(d) == {} && local.Keys == {d}
  }

  lemma ReplacedIsComparable(vaultId: string, d: Path, local: Files)
    requires ReplacedDirectory(d, local)
    ensures WellFormed(local, {})
    ensures Comparable(map[], {}, All, vaultId, Some(Manifest(vaultId, All, map[], {d})), local, {})
  {
    assert ScopedFiles(map[], All) == map[] && ListedFiles(map[]) == map[] && ListedDirs({}) == {};
    assert forall k | 0 <= k < |d| && d[k] == '/' :: d[..k] in Ancestors(d);
  }

  lemma ReplacedIsCompletable(d: Path, local: Files)
    requires ReplacedDirectory(d, local)
    ensures NoClash(map[], local, map[])
    ensures Completable(ToWrite(map[], local, map[]), ToDelete(map[], local, map[]), local, {}, {}, {d})
  {
    assert ToWrite(map[], local, map[]) == {} && ToDelete(map[], local, map[]) == {};
    assert ParentsOf({}) == {} && WithDirectories({}, {}) == {};
  }

  // So on healthy hosts the pull is complete, and every complete pull removes the file, though
  // the vault never had one.
  lemma PullCanLoseALocalFile(vaultId: string, d: Path, mine: Hash)
    requires IsVaultPath(d) && Ancestors(d) == {}
    ensures var local: Files := map[d := mine];
            && WellFormed(local, {})
            && Comparable(map[], {}, All, vaultId, Some(Manifest(vaultId, All, map[], {d})), local, {})
            && NoClash(map[], local, map[])
            && Completable(ToWrite(map[], local, map[]), ToDelete(map[], local, map[]), local, {}, {}, {d})
            && MergeAt(None, At(local, d), None) == Some(mine)
            && forall files | AfterPull(map[], local, map[], {d}, files) :: d !in files
  {
    var local: Files := map[d := mine];
    ReplacedIsComparable(vaultId, d, local);
    ReplacedIsCompletable(d, local);
    forall files | AfterPull(map[], local, map[], {d}, files) ensures d !in files {
      assert At(files, d) == None;
    }
  }

  lemma LostFileExample(vaultId: string)
    ensures Comparable(map[], {}, All, vaultId, Some(Manifest(vaultId, All, map[], {"d"})), map["d" := "mine"], {})
    ensures forall files | AfterPull(map[], map["d" := "mine"], map[], {"d"}, files) :: "d" !in files
  {
    assert IsVaultPath("d") && Ancestors("d") == {};
    PullCanLoseALocalFile(vaultId, "d", "mine");
  }

  // Without a clash the merge keeps what either side did to a path since the base.
  lemma MergeKeepsEveryEdit(base: Files, local: Files, vault: Files, merged: Files)
    requires IsMerge(base, local, vault, merged)
    requires forall p :: !ClashAt(base, local, vault, p)
    ensures forall p | At(local, p) != At(base, p) :: At(merged, p) == At(local, p)
    ensures forall p | At(vault, p) != At(base, p) :: At(merged, p) == At(vault, p)
    ensures forall p | At(local, p) == At(base, p) && At(vault, p) == At(base, p) :: At(merged, p) == At(base, p)
  {
    forall p | At(vault, p) != At(base, p) ensures At(merged, p) == At(vault, p) {
      assert !ClashAt(base, local, vault, p);
      assert At(merged, p) == MergeAt(At(base, p), At(local, p), At(vault, p));
    }
  }

  // Both sides agree on every path the manifest's scope covers, and so does the manifest.
  ghost predicate Agree(scope: Scope, manifest: Option<Manifest>, local: Files, vault: Files, merged: Files) {
    forall p | Covered(scope, p) ::
      At(local, p) == At(merged, p) && At(vault, p) == At(merged, p) && At(Base(manifest), p) == At(merged, p)
  }

  // Everything a push sees of the workspace lies in the scope, or is a directory the scope
  // lies in, and no two names differ in case only.
  ghost predicate LocalInScope(scope: Scope, files: Files, dirs: set<Path>) {
    && (forall p | p in VisibleFiles(files) :: ScopeContains(scope, p))
    && (forall d | d in VisibleDirs(dirs) :: ScopeContains(scope, d) || (!scope.All? && Under(d, scope.path)))
    && NoFoldClash(VisibleFiles(files).Keys + VisibleDirs(dirs))
  }

  // merged is the workspace between the two commands, and compared the comparison the push
  // makes then.
  method PullThenPush(vault: Store, vaultId: string, ws: Workspace, scope: Scope)
    returns (pull: Result<PullReport>, push: Result<PushReport>, ghost merged: Files, ghost compared: Option<PushReport>)
    requires vault.Valid() && ws.tree.Valid() && vault != ws.tree
    requires !vault.shared && !ws.tree.shared
    modifies vault, ws`manifest, ws.tree
    ensures pull.Ok? && pull.value.outcome == Pulled && push.Ok? && push.value.outcome.Pushed? ==>
              var base, local, remote := Base(old(ws.manifest)), old(ws.tree.files), ScopedFiles(old(vault.files), scope);
              var lost := BaseDirs(old(ws.manifest)) - ScopedDirs(old(vault.dirs), scope);
              && merged == ws.tree.files && AfterPull(base, local, remote, lost, merged)
              && Agree(scope, ws.manifest, ws.tree.files, vault.files, merged)
              && (forall p | !Covered(scope, p) :: At(vault.files, p) == At(old(vault.files), p))
              && (NoFileWhereDirectoryWas(base, local, remote, lost) ==>
                    && IsMerge(base, local, remote, merged)
                    && (forall p | At(local, p) != At(base, p) :: At(merged, p) == At(local, p))
                    && (forall p | At(remote, p) != At(base, p) :: At(merged, p) == At(remote, p)))
    // On healthy hosts, once the pull is complete the push is, exactly when all it sees is in
    // scope and the vault lets it.
    ensures !vault.faulty && !ws.tree.faulty && pull.Ok? && pull.value.outcome == Pulled ==>
              && (compared.Some? <==> Listable(ws.tree.files, ws.tree.dirs))
              && (push.Ok? && push.value.outcome.Pushed? <==>
                    && compared.Some? && LocalInScope(scope, ws.tree.files, ws.tree.dirs)
                    && PlanPushable(compared.value, old(vault.files), old(vault.dirs), scope))
  {
    push, compared := Err, None;
    ghost var base, local, remote := Base(ws.manifest), ws.tree.files, ScopedFiles(vault.files, scope);
    ghost var lost := BaseDirs(ws.manifest) - ScopedDirs(vault.dirs, scope);
    ghost var seen, unanswered;
    pull, seen, unanswered := RunPull(vault, vaultId, ws, scope);
    merged := ws.tree.files;
    if pull.Err? || pull.value.outcome != Pulled {
      return;
    }
    PulledAsMerged(base, local, remote, lost, merged);
    push, compared := PushAfterPull(vault, vaultId, ws, scope);
  }

  lemma PulledAsMerged(base: Files, local: Files, remote: Files, lost: set<Path>, merged: Files)
    requires AfterPull(base, local, remote, lost, merged) && NoClash(base, local, remote)
    ensures NoFileWhereDirectoryWas(base, local, remote, lost) ==>
              && IsMerge(base, local, remote, merged)
              && (forall p | At(local, p) != At(base, p) :: At(merged, p) == At(local, p))
              && (forall p | At(remote, p) != At(base, p) :: At(merged, p) == At(remote, p))
  {
    PullIsMergeExactlyWhen(base, local, remote, lost, merged);
    if NoFileWhereDirectoryWas(base, local, remote, lost) {
      MergeKeepsEveryEdit(base, local, remote, merged);
    }
  }

  method PushAfterPull(vault: Store, vaultId: string, ws: Workspace, scope: Scope)
    returns (push: Result<PushReport>, ghost compared: Option<PushReport>)
    requires vault.Valid() && ws.tree.Valid() && vault != ws.tree
    requires !vault.shared && !ws.tree.shared
    requires ws.manifest == Some(Manifest(vaultId, scope, ScopedFiles(vault.files, scope), ScopedDirs(vault.dirs, scope)))
    requires Snapshotable(vault.files, vault.dirs, scope)
    modifies vault, ws`manifest, ws.tree`files, ws.tree`dirs
    ensures ws.tree.files == old(ws.tree.files) && ws.tree.dirs == old(ws.tree.dirs)
    ensures push.Ok? && push.value.outcome.Pushed? ==>
              && Agree(scope, ws.manifest, ws.tree.files, vault.files, ws.tree.files)
              && (forall p | !Covered(scope, p) :: At(vault.files, p) == At(old(vault.files), p))
    ensures !vault.faulty && !ws.tree.faulty ==>
              && (compared.Some? <==> Listable(ws.tree.files, ws.tree.dirs))
              && (push.Ok? && push.value.outcome.Pushed? <==>
                    && compared.Some? && LocalInScope(scope, ws.tree.files, ws.tree.dirs)
                    && PlanPushable(compared.value, old(vault.files), old(vault.dirs), scope))
  {
    ghost var m, vault0, dirs0 := ws.manifest.value, vault.files, vault.dirs;
    ghost var read;
    PulledManifestInScope(m, vault0, dirs0);
    push, compared, read := RunPush(vault, Some(vaultId), ws, true, false, true);
    if compared.Some? {
      ConflictAfterPull(compared.value, m, true, ws.tree.files, ws.tree.dirs, vault0, dirs0);
    }
    if push.Ok? && push.value.outcome.Pushed? {
      PushMakesAgree(push.value, m, ws.tree.files, vault0, dirs0, vault.files, vault.dirs, ws.manifest);
    }
  }

  lemma PulledManifestInScope(m: Manifest, files: Files, dirs: set<Path>)
    requires m.entries == ScopedFiles(files, m.scope) && m.directories == ScopedDirs(dirs, m.scope)
    ensures InScope(m)
  {
  }

  // Right after a pull a push can only meet a conflict in what lies outside the scope, or
  // in names.
  lemma ConflictAfterPull(report: PushReport, m: Manifest, delete: bool, local: Files, localDirs: set<Path>, vault: Files, vaultDirs: set<Path>)
    requires ComparedTo(report, m, delete, local, localDirs, vault, vaultDirs)
    requires m.entries == ScopedFiles(vault, m.scope) && m.directories == ScopedDirs(vaultDirs, m.scope)
    ensures NoConflict(report) <==> LocalInScope(m.scope, local, localDirs)
  {
    forall p ensures p in report.files.conflicts <==> p in VisibleFiles(local) && !ScopeContains(m.scope, p) {
      if ScopeContains(m.scope, p) {
        assert PlannedAt(report.files, p, delete, At(m.entries, p), At(VisibleFiles(local), p), At(ScopedFiles(vault, m.scope), p));
      }
    }
    forall d
      ensures d in report.directories.conflicts <==>
              d in VisibleDirs(localDirs) && !ScopeContains(m.scope, d) && (m.scope.All? || !Under(d, m.scope.path))
    {
    }
    assert report.files.conflicts == map[] <==> forall p :: p !in report.files.conflicts;
    assert report.directories.conflicts == map[] <==> forall d :: d !in report.directories.conflicts;
  }

  lemma PushMakesAgree(report: PushReport, m: Manifest, local: Files, vault0: Files, dirs0: set<Path>,
                       vault: Files, dirs: set<Path>, manifest: Option<Manifest>)
    requires PushedAs(report, m, true, local, vault0, dirs0, vault, dirs, manifest)
    ensures Agree(m.scope, manifest, local, vault, local)
    ensures forall p | !Covered(m.scope, p) :: At(vault, p) == At(vault0, p)
  {
    assert m.scope.File? ==> m.scope.path in vault;
    forall p | Covered(m.scope, p) ensures At(vault, p) == At(local, p) {
      assert At(vault, p) == At(VisibleFiles(local), p);
    }
  }

  // A second pull finds nothing to write, delete or report, and on healthy hosts completes.
  method PullTwice(vault: Store, vaultId: string, ws: Workspace, scope: Scope)
    returns (first: Result<PullReport>, second: Result<PullReport>)
    requires vault.Valid() && ws.tree.Valid() && vault != ws.tree
    requires !vault.shared && !ws.tree.shared
    modifies vault`files, vault`dirs, ws`manifest, ws.tree
    ensures first.Ok? && first.value.outcome == Pulled && second.Ok? ==>
              second.value.outcome != PullConflict && second.value.written == {} && second.value.deleted == {}
    ensures !vault.faulty && !ws.tree.faulty && first.Ok? && first.value.outcome == Pulled ==>
              second.Ok? && second.value.outcome == Pulled
  {
    second := Err;
    ghost var base, baseDirs, local, localDirs := Base(ws.manifest), BaseDirs(ws.manifest), ws.tree.files, ws.tree.dirs;
    ghost var seen, unanswered;
    first, seen, unanswered := RunPull(vault, vaultId, ws, scope);
    if first.Err? || first.value.outcome != Pulled {
      return;
    }
    ghost var lost := baseDirs - ScopedDirs(vault.dirs, scope);
    OnlyWrittenAreNew(base, local, ScopedFiles(vault.files, scope), lost, ws.tree.files);
    SettledAfterPull(vault.files, vault.dirs, scope, ws.tree.files, ws.tree.dirs, local, localDirs, first.value.written, lost);
    second := PullAgain(vault, vaultId, ws, scope);
  }

  // What a complete pull leaves: the manifest is the vault's snapshot, and the workspace is one
  // in which it can be pulled again.
  ghost predicate JustPulled(files: Files, dirs: set<Path>, vaultId: string, scope: Scope, manifest: Option<Manifest>, local: Files, localDirs: set<Path>) {
    && Snapshotable(files, dirs, scope)
    && manifest == Some(Manifest(vaultId, scope, ScopedFiles(files, scope), ScopedDirs(dirs, scope)))
    && Readable(ScopedFiles(files, scope).Keys, local, localDirs)
    && Completable({}, {}, local, localDirs, ScopedDirs(dirs, scope), {})
  }

  lemma NothingInTheWay(files: Files, dirs: set<Path>, vaultId: string, scope: Scope, manifest: Option<Manifest>, local: Files, localDirs: set<Path>)
    requires JustPulled(files, dirs, vaultId, scope, manifest, local, localDirs)
    ensures Comparable(files, dirs, scope, vaultId, manifest, local, localDirs)
    ensures var remote, remoteDirs := ScopedFiles(files, scope), ScopedDirs(dirs, scope);
            && NoClash(Base(manifest), local, remote)
            && Completable(ToWrite(Base(manifest), local, remote), ToDelete(Base(manifest), local, remote), local, localDirs,
                           remoteDirs, BaseDirs(manifest) - remoteDirs)
  {
    var remote, remoteDirs := ScopedFiles(files, scope), ScopedDirs(dirs, scope);
    PulledManifestInScope(manifest.value, files, dirs);
    NothingLeftToPull(remote, local);
    assert remoteDirs - remoteDirs == {};
  }

  method PullAgain(vault: Store, vaultId: string, ws: Workspace, scope: Scope) returns (second: Result<PullReport>)
    requires vault.Valid() && ws.tree.Valid() && vault != ws.tree
    requires !vault.shared && !ws.tree.shared
    requires JustPulled(vault.files, vault.dirs, vaultId, scope, ws.manifest, ws.tree.files, ws.tree.dirs)
    modifies vault`files, vault`dirs, ws`manifest, ws.tree
    ensures second.Ok? ==> second.value.outcome != PullConflict && second.value.written == {} && second.value.deleted == {}
    ensures !vault.faulty && !ws.tree.faulty ==> second.Ok? && second.value.outcome == Pulled
  {
    ghost var remote, remoteDirs := ScopedFiles(vault.files, scope), ScopedDirs(vault.dirs, scope);
    ghost var local, localDirs := ws.tree.files, ws.tree.dirs;
    NothingInTheWay(vault.files, vault.dirs, vaultId, scope, ws.manifest, local, localDirs);
    ghost var seen, unanswered;
    second, seen, unanswered := RunPull(vault, vaultId, ws, scope);
    if second.Ok? {
      NothingPulled(remote, remoteDirs, local, localDirs, second.value, unanswered, ws.tree.files, ws.tree.dirs);
    }
  }

  lemma NothingPulled(remote: Files, remoteDirs: set<Path>, local: Files, localDirs: set<Path>, report: PullReport,
                      unanswered: set<Path>, files: Files, dirs: set<Path>)
    requires PullIsThreeWay(remote, remoteDirs, local, localDirs, remote, remoteDirs, report, unanswered, files, dirs)
    ensures report.outcome != PullConflict && report.written == {} && report.deleted == {}
  {
    NothingLeftToPull(remote, local);
    assert forall p :: !ClashAt(remote, local, remote, p);
  }

  // With the vault as its base a pull has nothing to do.
  lemma NothingLeftToPull(vault: Files, local: Files)
    ensures NoClash(vault, local, vault) && ToWrite(vault, local, vault) == {} && ToDelete(vault, local, vault) == {}
  {
  }

  // The workspace a complete pull leaves holds the vault's directories, and every path of the
  // vault can still be read in it.
  lemma SettledAfterPull(files: Files, dirs: set<Path>, scope: Scope, local: Files, localDirs: set<Path>,
                         local0: Files, localDirs0: set<Path>, written: set<Path>, lost: set<Path>)
    requires WellFormed(files, dirs) && WellFormed(local, localDirs)
    requires Readable(ScopedFiles(files, scope).Keys, local0, localDirs0)
    requires written <= ScopedFiles(files, scope).Keys && local.Keys <= local0.Keys + written
    requires lost !! ScopedDirs(dirs, scope)
    requires localDirs == WithDirectories(localDirs0, ScopedDirs(dirs, scope)) + ParentsOf(written) - lost
    ensures Readable(ScopedFiles(files, scope).Keys, local, localDirs)
    ensures Completable({}, {}, local, localDirs, ScopedDirs(dirs, scope), {})
  {
    forall p, q | p in files && (q in files || q in dirs) ensures p !in Ancestors(q) {
      NothingAboveWhatIsThere(files, dirs, q);
    }
    forall p | p in ScopedFiles(files, scope) ensures CanHoldFile(local, localDirs, p) {
      assert CanHoldFile(local0, localDirs0, p);
    }
    forall d | d in ScopedDirs(dirs, scope) ensures CanHoldDirectory(local, d) {
      ThereIsRoom(local, localDirs, d);
    }
  }

  // A complete pull adds no file but those it writes.
  lemma OnlyWrittenAreNew(base: Files, local: Files, remote: Files, lost: set<Path>, files: Files)
    requires AfterPull(base, local, remote, lost, files)
    ensures files.Keys <= local.Keys + ToWrite(base, local, remote)
  {
    forall p | p in files ensures p in local || p in ToWrite(base, local, remote) {
      assert At(files, p) == MergeAt(At(base, p), At(local, p), At(remote, p));
    }
  }

  // After a push a status finds no write, no new directory and no conflict. What it plans to
  // delete, or reports as kept, is what the vault has and the workspace has not; after a
  // push --delete that is nothing, but for the pulled folder itself.
  method StatusAfterPush(vault: Store, ws: Workspace, pushDelete: bool, statusDelete: bool)
    returns (push: Result<PushReport>, status: Result<PushReport>)
    requires vault.Valid() && ws.tree.Valid() && vault != ws.tree
    requires !vault.shared && !ws.tree.shared
    modifies vault, ws`manifest, ws.tree`files, ws.tree`dirs
    ensures push.Ok? && push.value.outcome.Pushed? ==> ws.manifest.Some?
    ensures push.Ok? && push.value.outcome.Pushed? && status.Ok? ==>
              var scope := ws.manifest.value.scope;
              var missing := ScopedFiles(vault.files, scope).Keys - VisibleFiles(ws.tree.files).Keys;
              var missingDirs := ScopedDirs(vault.dirs, scope) - VisibleDirs(ws.tree.dirs);
              && status.value.outcome == Planned
              && Settled(status.value, scope, statusDelete, missing, missingDirs)
              && (pushDelete ==> missing == {} && forall d | d in missingDirs :: scope == Folder(d))
    ensures !vault.faulty && !ws.tree.faulty && push.Ok? && push.value.outcome.Pushed? ==> status.Ok?
  {
    status := Err;
    ghost var before, vault0, dirs0 := ws.manifest, vault.files, vault.dirs;
    ghost var compared, read, compared', read';
    push, compared, read := RunPush(vault, None, ws, pushDelete, false, true);
    if push.Err? || !push.value.outcome.Pushed? {
      return;
    }
    PulledManifestInScope(ws.manifest.value, vault.files, vault.dirs);
    status, compared', read' := RunPush(vault, None, ws, statusDelete, false, false);
    if status.Ok? {
      StatusIsSettled(push.value, status.value, before.value, pushDelete, statusDelete, ws.tree.files, ws.tree.dirs,
                      vault0, dirs0, vault.files, vault.dirs, ws.manifest.value);
    }
  }

  lemma StatusIsSettled(push: PushReport, status: PushReport, m0: Manifest, pushDelete: bool, delete: bool, local: Files, localDirs: set<Path>,
                        vault0: Files, dirs0: set<Path>, vault: Files, dirs: set<Path>, m: Manifest)
    requires WellFormed(local, localDirs) && WellFormed(vault, dirs)
    requires ComparedTo(push, m0, pushDelete, local, localDirs, vault0, dirs0) && NoConflict(push)
    requires PushedAs(push, m0, pushDelete, local, vault0, dirs0, vault, dirs, Some(m))
    requires ComparedTo(status, m, delete, local, localDirs, vault, dirs)
    ensures var missing := ScopedFiles(vault, m.scope).Keys - VisibleFiles(local).Keys;
            var missingDirs := ScopedDirs(dirs, m.scope) - VisibleDirs(localDirs);
            && NoConflict(status)
            && Settled(status, m.scope, delete, missing, missingDirs)
            && (pushDelete ==> missing == {} && forall d | d in missingDirs :: m.scope == Folder(d))
  {
    ConflictAfterPull(status, m, delete, local, localDirs, vault, dirs);
    NoConflictMeansInScope(push, m.scope, pushDelete, local, localDirs, m0.entries, m0.directories, vault0, dirs0);
    FilesSettled(m.scope, VisibleFiles(local), m0.entries, vault0, vault, pushDelete, delete, status.files);
    WrittenAreVisible(push.files, m.scope, pushDelete, VisibleFiles(local), m0.entries, ScopedFiles(vault0, m.scope));
    DirectoriesSettled(m.scope, local, localDirs, m0.directories, dirs0, vault, dirs,
                       push.files.writes.Keys, pushDelete, delete, push.directories, status.directories);
  }

  lemma WrittenAreVisible(plan: FilePlan, scope: Scope, delete: bool, local: Files, base: Files, vault: Files)
    requires FilesPlanned(plan, scope, delete, local, base, vault)
    ensures plan.writes.Keys <= local.Keys
  {
    forall p | p in plan.writes ensures p in local {
      assert ScopeContains(scope, p) ==> PlannedAt(plan, p, delete, At(base, p), At(local, p), At(vault, p));
    }
  }

  // A status that has nothing to write, to create or to report as a conflict.
  ghost predicate Settled(status: PushReport, scope: Scope, delete: bool, missing: set<Path>, missingDirs: set<Path>) {
    && status.files.writes == map[] && status.files.conflicts == map[]
    && status.files.deletes.Keys == (if delete then missing else {})
    && status.files.ignored == (if delete then {} else missing)
    && SettledDirectories(status.directories, scope, delete, missingDirs)
  }

  ghost predicate SettledDirectories(plan: DirectoryPlan, scope: Scope, delete: bool, missingDirs: set<Path>) {
    && plan.create == {} && plan.conflicts == map[]
    && plan.remove == (set d | d in missingDirs && delete && scope != Folder(d))
    && plan.ignored == (set d | d in missingDirs && (!delete || scope == Folder(d)))
  }

  lemma NoConflictMeansInScope(report: PushReport, scope: Scope, delete: bool, local: Files, localDirs: set<Path>,
                               base: Files, tracked: set<Path>, vault: Files, vaultDirs: set<Path>)
    requires FilesPlanned(report.files, scope, delete, VisibleFiles(local), base, ScopedFiles(vault, scope))
    requires DirectoriesPlanned(report.directories, scope, delete, VisibleDirs(localDirs), tracked, ScopedDirs(vaultDirs, scope))
    requires report.nameClashes == {} <==> NoFoldClash(VisibleFiles(local).Keys + VisibleDirs(localDirs))
    requires NoConflict(report)
    ensures LocalInScope(scope, local, localDirs)
  {
    forall p | p in VisibleFiles(local) ensures ScopeContains(scope, p) {
      assert p !in report.files.conflicts;
    }
    forall d | d in VisibleDirs(localDirs) ensures ScopeContains(scope, d) || (!scope.All? && Under(d, scope.path)) {
      assert d !in report.directories.conflicts;
    }
  }

  lemma FilesSettled(scope: Scope, local: Files, base: Files, vault0: Files, vault: Files, pushDelete: bool, delete: bool, plan: FilePlan)
    requires forall p | p in local :: IsVaultPath(p) && Listed(p) && ScopeContains(scope, p)
    requires AfterPush(scope, pushDelete, local, base, vault0, vault)
    requires FilesPlanned(plan, scope, delete, local, ScopedFiles(vault, scope), ScopedFiles(vault, scope))
    ensures plan.writes == map[] && plan.conflicts == map[]
    ensures plan.deletes.Keys == if delete then ScopedFiles(vault, scope).Keys - local.Keys else {}
    ensures plan.ignored == if delete then {} else ScopedFiles(vault, scope).Keys - local.Keys
    ensures pushDelete ==> ScopedFiles(vault, scope).Keys <= local.Keys
  {
    forall p
      ensures p !in plan.writes && p !in plan.conflicts
      ensures p in plan.deletes <==> delete && p in ScopedFiles(vault, scope).Keys - local.Keys
      ensures p in plan.ignored <==> !delete && p in ScopedFiles(vault, scope).Keys - local.Keys
      ensures pushDelete && p in ScopedFiles(vault, scope) ==> p in local
    {
      FileSettled(scope, local, base, vault0, vault, pushDelete, delete, plan, p);
    }
  }

  lemma FileSettled(scope: Scope, local: Files, base: Files, vault0: Files, vault: Files, pushDelete: bool, delete: bool, plan: FilePlan, p: Path)
    requires p in local ==> IsVaultPath(p) && Listed(p) && ScopeContains(scope, p)
    requires AfterPush(scope, pushDelete, local, base, vault0, vault)
    requires ScopeContains(scope, p) ==>
               PlannedAt(plan, p, delete, At(ScopedFiles(vault, scope), p), At(local, p), At(ScopedFiles(vault, scope), p))
    requires !ScopeContains(scope, p) ==> if p in local then RefusedAt(plan, p) else Untouched(plan, p)
    ensures p !in plan.writes && p !in plan.conflicts
    ensures p in plan.deletes <==> delete && p in ScopedFiles(vault, scope).Keys - local.Keys
    ensures p in plan.ignored <==> !delete && p in ScopedFiles(vault, scope).Keys - local.Keys
    ensures pushDelete && p in ScopedFiles(vault, scope) ==> p in local
  {
    assert Covered(scope, p) ==> At(vault, p) == PushedAt(pushDelete, At(base, p), At(local, p), At(vault0, p));
    assert At(ScopedFiles(vault, scope), p) == if Covered(scope, p) then At(vault, p) else None;
  }

  function ScopedLocal(dirs: set<Path>, scope: Scope): set<Path> {
    set d | d in VisibleDirs(dirs) && ScopeContains(scope, d)
  }

  // What a conflict-free push leaves of one directory of the vault.
  lemma LocalDirectorySurvives(scope: Scope, localDirs: set<Path>, tracked: set<Path>, dirs0: set<Path>,
                               files: Files, dirs: set<Path>, written: set<Path>, delete: bool, pushed: DirectoryPlan, d: Path)
    requires WellFormed(files, dirs) && Snapshotable(files, dirs, scope)
    requires DirectoriesPlanned(pushed, scope, delete, VisibleDirs(localDirs), tracked, ScopedDirs(dirs0, scope)) && d !in pushed.conflicts
    requires DirsAfterPush(pushed, written, dirs0, dirs)
    requires d in ScopedLocal(localDirs, scope)
    ensures d in ScopedDirs(dirs, scope)
  {
    var vault0 := ScopedDirs(dirs0, scope);
    assert d in (set e | e in VisibleDirs(localDirs) && ScopeContains(scope, e));
    assert d in vault0 || d in pushed.create;
    assert d in dirs by {
      assert d !in pushed.remove;
    }
    assert !scope.File? by {
      assert d !in files;
    }
  }

  lemma VaultDirectoryIsLocal(scope: Scope, localFiles: Files, localDirs: set<Path>, tracked: set<Path>, dirs0: set<Path>,
                              dirs: set<Path>, written: set<Path>, pushed: DirectoryPlan, d: Path)
    requires WellFormed(localFiles, localDirs)
    requires DirectoriesPlanned(pushed, scope, true, VisibleDirs(localDirs), tracked, ScopedDirs(dirs0, scope)) && d !in pushed.conflicts
    requires forall p | p in written :: p in VisibleFiles(localFiles)
    requires DirsAfterPush(pushed, written, dirs0, dirs)
    requires d in ScopedDirs(dirs, scope) && d !in ScopedLocal(localDirs, scope)
    ensures scope == Folder(d)
  {
    assert d !in pushed.create;
    forall c | c in pushed.create ensures d !in Ancestors(c) {
      LocalParent(localFiles, localDirs, d, c);
    }
    forall p | p in written ensures d !in Ancestors(p) {
      LocalParent(localFiles, localDirs, d, p);
    }
    assert d in ScopedDirs(dirs0, scope);
  }

  lemma DirectoriesSettled(scope: Scope, localFiles: Files, localDirs: set<Path>, tracked: set<Path>, dirs0: set<Path>,
                           files: Files, dirs: set<Path>, written: set<Path>, pushDelete: bool, delete: bool,
                           pushed: DirectoryPlan, plan: DirectoryPlan)
    requires WellFormed(localFiles, localDirs) && WellFormed(files, dirs) && Snapshotable(files, dirs, scope)
    requires DirectoriesPlanned(pushed, scope, pushDelete, VisibleDirs(localDirs), tracked, ScopedDirs(dirs0, scope)) && pushed.conflicts == map[]
    requires forall p | p in written :: p in VisibleFiles(localFiles)
    requires DirsAfterPush(pushed, written, dirs0, dirs)
    requires DirectoriesPlanned(plan, scope, delete, VisibleDirs(localDirs), ScopedDirs(dirs, scope), ScopedDirs(dirs, scope))
    ensures SettledDirectories(plan, scope, delete, ScopedDirs(dirs, scope) - VisibleDirs(localDirs))
    ensures pushDelete ==> forall d | d in ScopedDirs(dirs, scope) - VisibleDirs(localDirs) :: scope == Folder(d)
  {
    forall d | d in ScopedLocal(localDirs, scope) ensures d in ScopedDirs(dirs, scope) {
      LocalDirectorySurvives(scope, localDirs, tracked, dirs0, files, dirs, written, pushDelete, pushed, d);
    }
    if pushDelete {
      forall d | d in ScopedDirs(dirs, scope) && d !in ScopedLocal(localDirs, scope) ensures scope == Folder(d) {
        VaultDirectoryIsLocal(scope, localFiles, localDirs, tracked, dirs0, dirs, written, pushed, d);
      }
    }
    NothingLeftToPlan(scope, VisibleDirs(localDirs), tracked, ScopedDirs(dirs0, scope), pushDelete, delete, pushed, ScopedDirs(dirs, scope), plan);
  }

  lemma NothingLeftToPlan(scope: Scope, discovered: set<Path>, tracked: set<Path>, vault0: set<Path>, pushDelete: bool, delete: bool,
                          pushed: DirectoryPlan, vault: set<Path>, plan: DirectoryPlan)
    requires DirectoriesPlanned(pushed, scope, pushDelete, discovered, tracked, vault0) && pushed.conflicts == map[]
    requires DirectoriesPlanned(plan, scope, delete, discovered, vault, vault)
    requires forall d | d in discovered && ScopeContains(scope, d) :: d in vault
    requires forall d | d in vault :: ScopeContains(scope, d)
    ensures SettledDirectories(plan, scope, delete, vault - discovered)
  {
    forall d ensures d !in plan.conflicts {
      assert d !in pushed.conflicts;
    }
  }

  // The parents of a visible local path are visible local directories.
  lemma LocalParent(files: Files, dirs: set<Path>, d: Path, p: Path)
    requires WellFormed(files, dirs) && IsVaultPath(p) && Listed(p) && (p in files || p in dirs)
    ensures d in Ancestors(p) ==> d in VisibleDirs(dirs)
  {
    AncestorsAreAbove(d, p);
    if Under(d, p) {
      WellFormedAbove(files, dirs, d, p);
      VaultPathAncestor(d, p);
      ListedAbove(d, p);
    }
  }
}
