// runPull: brings a workspace up to date with a snapshot of the vault. The base of the
// three-way comparison is the manifest the last pull or push left in the workspace.

module ThreeWay {
  import opened Wrappers
  import opened Paths
  import opened FileStore

  // The merge of one path: the side that changed wins.
  function MergeAt(base: Option<Hash>, local: Option<Hash>, vault: Option<Hash>): Option<Hash> {
    if local == base then vault else local
  }

  // Both sides changed, and differently.
  predicate Clash(base: Option<Hash>, local: Option<Hash>, vault: Option<Hash>) {
    base != local && local != vault && base != vault
  }

  function ClashAt(base: Files, local: Files, vault: Files, p: Path): bool {
    Clash(At(base, p), At(local, p), At(vault, p))
  }

  // What a pull has to do: write what only the vault changed, delete what only the vault
  // dropped.

  function ToWrite(base: Files, local: Files, vault: Files): set<Path> {
    set p | p in vault && At(local, p) == At(base, p) && At(local, p) != At(vault, p)
  }

  function ToDelete(base: Files, local: Files, vault: Files): set<Path> {
    set p | p in local && At(local, p) == At(base, p) && p !in vault
  }

  ghost predicate NoClash(base: Files, local: Files, vault: Files) {
    forall p :: !ClashAt(base, local, vault, p)
  }

  ghost predicate IsMerge(base: Files, local: Files, vault: Files, merged: Files) {
    forall p :: At(merged, p) == MergeAt(At(base, p), At(local, p), At(vault, p))
  }
}

module Workspaces {
  import opened Wrappers
  import opened Paths
  import opened FileStore
  import opened SyncApply
  import opened Snapshot

  datatype Manifest = Manifest(vaultId: string, scope: Scope, entries: Files, directories: set<Path>)

  class Workspace {
    const tree: Store
    var manifest: Option<Manifest>

    constructor (tree: Store, manifest: Option<Manifest>)
      ensures this.tree == tree && this.manifest == manifest
    {
      this.tree, this.manifest := tree, manifest;
    }

    // readSyncState: refuses a manifest that names anything outside its own scope.
    method ReadManifest() returns (r: Result<Option<Manifest>>)
      ensures r.Ok? ==> r.value == manifest && (manifest.Some? ==> InScope(manifest.value))
      ensures r.Err? ==> tree.faulty || (manifest.Some? && !InScope(manifest.value))
    {
      var failed: bool := *;
      if (tree.faulty && failed) || (manifest.Some? && !InScope(manifest.value)) {
        return Err;
      }
      r := Ok(manifest);
    }

    // writeSyncState: compare-and-set on the manifest file. found is the manifest it meets; a
    // write whose answer is lost has put the next one in its place.
    method WriteManifest(next: Manifest, expected: Option<Manifest>) returns (ok: bool, ghost found: Option<Manifest>)
      modifies `manifest
      ensures ok ==> found == expected && manifest == Some(next)
      ensures manifest == found || (found == expected && manifest == Some(next))
      ensures !ok ==> tree.faulty || (found != expected && manifest == found)
      ensures !tree.shared ==> found == old(manifest)
    {
      if tree.shared {
        manifest := *;
      }
      found := manifest;
      var failed: bool := *;
      ok := !(tree.faulty && failed) && manifest == expected;
      if ok {
        manifest := Some(next);
        failed := *;
        ok := !(tree.faulty && failed);
      }
    }
  }

  // The schema asks for vault paths, and the check that follows for paths in scope.
  predicate InScope(manifest: Manifest) {
    && (forall p | p in manifest.entries :: IsVaultPath(p) && ScopeContains(manifest.scope, p))
    && (forall d | d in manifest.directories :: IsVaultPath(d) && ScopeContains(manifest.scope, d))
  }

  function Base(manifest: Option<Manifest>): Files {
    if manifest.Some? then manifest.value.entries else map[]
  }

  function BaseDirs(manifest: Option<Manifest>): set<Path> {
    if manifest.Some? then manifest.value.directories else {}
  }

  // The change a sync command makes to a file when it brings the path from what the manifest
  // has to a target.
  ghost function StepAt(base: Files, target: Files, p: Path): Change {
    Change(p, At(base, p), At(target, p))
  }

  // The new part of the log is such a step for each of these paths, and perhaps one for the
  // path whose call failed.
  ghost predicate Logged(before: seq<Change>, after: seq<Change>, base: Files, target: Files, done: set<Path>, unanswered: set<Path>) {
    && before <= after
    && (forall i | |before| <= i < |after| :: after[i] == StepAt(base, target, after[i].path) && after[i].path in done + unanswered)
    && (forall p | p in done :: Made(before, after, StepAt(base, target, p)))
  }

  lemma LoggedNext(before: seq<Change>, mid: seq<Change>, after: seq<Change>, base: Files, target: Files, done: set<Path>, p: Path, ok: bool)
    requires Logged(before, mid, base, target, done, {})
    requires after == mid || after == mid + [StepAt(base, target, p)]
    requires ok ==> after != mid
    ensures Logged(before, after, base, target, if ok then done + {p} else done, if ok || after == mid then {} else {p})
  {
    forall q | q in done ensures Made(before, after, StepAt(base, target, q)) {
      MadeStays(before, mid, after, StepAt(base, target, q));
    }
    if after != mid {
      assert after[|mid|] == StepAt(base, target, p);
      assert Made(before, after, StepAt(base, target, p));
      forall i | |before| <= i < |after| ensures after[i] == StepAt(base, target, after[i].path) && after[i].path in done + {p} {
        if i < |mid| {
          assert after[i] == mid[i];
        }
      }
    }
  }

  // What a sync command has done to files, whoever else edits them: it brought the paths it
  // reports as done from exactly what the manifest has to exactly the target, and removed
  // whatever file stood where it reports a directory as gone. Nothing else was changed, but
  // for at most one path: that of the call that failed, when only its answer was lost.
  ghost predicate DidOnly(before: seq<Change>, after: seq<Change>, base: Files, target: Files, done: set<Path>, gone: set<Path>, unanswered: set<Path>) {
    && before <= after && AtMostOne(unanswered)
    && (forall p | p in done :: Made(before, after, StepAt(base, target, p)))
    && (forall i | |before| <= i < |after| :: Did(after[i], base, target, done + unanswered, gone + unanswered))
  }

  ghost predicate AtMostOne(paths: set<Path>) {
    forall p, q | p in paths && q in paths :: p == q
  }

  ghost predicate Did(c: Change, base: Files, target: Files, done: set<Path>, gone: set<Path>) {
    (c.path in done && c == StepAt(base, target, c.path)) || (c.path in gone && c.before.Some? && c.after.None?)
  }

  // First files were removed one by one, then directories.
  ghost predicate Cleared(before: seq<Change>, after: seq<Change>, base: Files, target: Files, deleted: set<Path>, gone: set<Path>, unanswered: set<Path>) {
    exists mid | before <= mid <= after :: Logged(before, mid, base, target, deleted, unanswered) && TakesAway(mid, after, gone + unanswered)
  }

  lemma LoggedIsCleared(before: seq<Change>, after: seq<Change>, base: Files, target: Files, deleted: set<Path>, unanswered: set<Path>)
    requires Logged(before, after, base, target, deleted, unanswered)
    ensures Cleared(before, after, base, target, deleted, {}, unanswered)
  {
    assert TakesAway(after, after, {} + unanswered);
  }

  lemma LoggedWith(before: seq<Change>, after: seq<Change>, base: Files, target: Files, done: set<Path>, unanswered: set<Path>)
    requires Logged(before, after, base, target, done, {})
    ensures Logged(before, after, base, target, done, unanswered)
  {
  }

  lemma DidInTurn(log0: seq<Change>, log1: seq<Change>, log3: seq<Change>, base: Files, target: Files,
                  written: set<Path>, deleted: set<Path>, gone: set<Path>, unanswered: set<Path>)
    requires log0 <= log1 <= log3 && AtMostOne(unanswered)
    requires Logged(log0, log1, base, target, written, unanswered) && Cleared(log1, log3, base, target, deleted, gone, unanswered)
    ensures DidOnly(log0, log3, base, target, written + deleted, gone, unanswered)
  {
    var log2 :| log1 <= log2 <= log3 && Logged(log1, log2, base, target, deleted, unanswered) && TakesAway(log2, log3, gone + unanswered);
    forall p | p in written + deleted ensures Made(log0, log3, StepAt(base, target, p)) {
      if p in written {
        MadeStays(log0, log1, log3, StepAt(base, target, p));
      } else {
        MadeLater(log0, log1, log2, StepAt(base, target, p));
        MadeStays(log0, log2, log3, StepAt(base, target, p));
      }
    }
    forall i | |log0| <= i < |log3| ensures Did(log3[i], base, target, written + deleted + unanswered, gone + unanswered) {
      if i < |log1| {
        assert log3[i] == log1[i];
      } else if i < |log2| {
        assert log3[i] == log2[i];
      }
    }
  }

  // The changes made to files stay in the part of the tree that the scope names.
  ghost predicate StaysIn(scope: Scope, before: seq<Change>, after: seq<Change>) {
    forall i | |before| <= i < |after| :: InSubtree(scope, after[i].path)
  }

  function StateFromSnapshot(vaultId: string, snapshot: Snapshot): Manifest {
    Manifest(vaultId, snapshot.scope, snapshot.files, snapshot.directories)
  }
}

module Pull {
  import opened Wrappers
  import opened Paths
  import opened FileStore
  import opened SyncApply
  import opened Snapshot
  import opened ThreeWay
  import opened Workspaces

  datatype Reason =
    | UntrackedDiffers
    | LocallyDeletedVaultChanged
    | BothChanged
    | VaultDeletedLocalChanged

  // The hash each planned write and delete expects to find locally.
  datatype Plan = Plan(writes: map<Path, Option<Hash>>, deletes: map<Path, Hash>, conflicts: map<Path, Reason>)

  datatype PullOutcome = Pulled | PullConflict | PullPartial
  datatype PullReport = PullReport(
    outcome: PullOutcome,
    written: set<Path>,
    deleted: set<Path>,
    deletedDirectories: seq<Path>,
    conflicts: map<Path, Reason>)

  // What is wrong where both sides changed.
  ghost predicate ReasonFits(reason: Reason, base: Option<Hash>, local: Option<Hash>, vault: Option<Hash>) {
    match reason
    case UntrackedDiffers => base.None?
    case LocallyDeletedVaultChanged => base.Some? && local.None?
    case BothChanged => base.Some? && local.Some? && vault.Some?
    case VaultDeletedLocalChanged => base.Some? && vault.None?
  }

  // What a plan says about one path, given the base, the local file and the vault file.
  ghost predicate DecidedAt(plan: Plan, p: Path, base: Option<Hash>, local: Option<Hash>, vault: Option<Hash>) {
    && (p in plan.conflicts <==> Clash(base, local, vault))
    && (p in plan.conflicts ==> ReasonFits(plan.conflicts[p], base, local, vault))
    && (p in plan.writes <==> local == base && vault.Some? && local != vault)
    && (p in plan.deletes <==> local == base && vault.None? && local.Some?)
    && (p in plan.writes ==> plan.writes[p] == base)
    && (p in plan.deletes ==> Some(plan.deletes[p]) == base)
  }

  // The decision for a path that is in the vault, as the branches of the source make it.
  function DecideInVault(plan: Plan, p: Path, base: Option<Hash>, local: Option<Hash>, remote: Hash): Plan {
    if base.None? then
      if local.None? then
        plan.(writes := plan.writes[p := None])
      else if local.value != remote then
        plan.(conflicts := plan.conflicts[p := UntrackedDiffers])
      else
        plan
    else if local.None? then
      if remote != base.value then
        plan.(conflicts := plan.conflicts[p := LocallyDeletedVaultChanged])
      else
        plan
    else if local.value == remote then
      plan
    else if local.value == base.value then
      plan.(writes := plan.writes[p := local])
    else if remote != base.value then
      plan.(conflicts := plan.conflicts[p := BothChanged])
    else
      plan
  }

  // The decision for a path the vault no longer has.
  function DecideGone(plan: Plan, p: Path, base: Hash, local: Option<Hash>): Plan {
    if local.None? then
      plan
    else if local.value == base then
      plan.(deletes := plan.deletes[p := base])
    else
      plan.(conflicts := plan.conflicts[p := VaultDeletedLocalChanged])
  }

  // Whatever others do meanwhile, a plan expects a file to be as the manifest has it.
  ghost predicate Grounded(plan: Plan, base: Files, snapshot: Snapshot) {
    && (forall p | p in plan.writes :: p in snapshot.files && plan.writes[p] == At(base, p))
    && (forall p | p in plan.deletes :: p !in snapshot.files && Some(plan.deletes[p]) == At(base, p))
  }

  // The plan covers exactly the paths looked at so far.
  ghost predicate Decided(plan: Plan, done: set<Path>, base: Files, local: Files, vault: Files) {
    forall p ::
      if p in done then
        DecidedAt(plan, p, At(base, p), At(local, p), At(vault, p))
      else
        p !in plan.conflicts && p !in plan.writes && p !in plan.deletes
  }

  // Only p is decided.
  ghost predicate OnlyAt(plan: Plan, next: Plan, p: Path) {
    next.conflicts - {p} == plan.conflicts - {p} && next.writes - {p} == plan.writes - {p} && next.deletes - {p} == plan.deletes - {p}
  }

  lemma DecidesInVault(plan: Plan, p: Path, base: Option<Hash>, local: Option<Hash>, remote: Hash)
    requires p !in plan.conflicts && p !in plan.writes && p !in plan.deletes
    ensures DecidedAt(DecideInVault(plan, p, base, local, remote), p, base, local, Some(remote))
    ensures OnlyAt(plan, DecideInVault(plan, p, base, local, remote), p)
  {
  }

  lemma DecidesGone(plan: Plan, p: Path, base: Hash, local: Option<Hash>)
    requires p !in plan.conflicts && p !in plan.writes && p !in plan.deletes
    ensures DecidedAt(DecideGone(plan, p, base, local), p, Some(base), local, None)
    ensures OnlyAt(plan, DecideGone(plan, p, base, local), p)
  {
  }

  // A decision about p leaves every other path as it was decided.
  lemma DecidedNext(plan: Plan, next: Plan, done: set<Path>, p: Path, base: Files, local: Files, vault: Files)
    requires Decided(plan, done, base, local, vault) && p !in done
    requires OnlyAt(plan, next, p)
    requires DecidedAt(next, p, At(base, p), At(local, p), At(vault, p))
    ensures Decided(next, done + {p}, base, local, vault)
  {
    forall q | q != p
      ensures q in next.conflicts <==> q in plan.conflicts
      ensures q in next.writes <==> q in plan.writes
      ensures q in next.deletes <==> q in plan.deletes
    {
      assert q in next.conflicts - {p} <==> q in plan.conflicts - {p};
      assert q in next.writes - {p} <==> q in plan.writes - {p};
      assert q in next.deletes - {p} <==> q in plan.deletes - {p};
    }
    forall q | q != p
      ensures q in next.conflicts ==> next.conflicts[q] == plan.conflicts[q]
      ensures q in next.writes ==> next.writes[q] == plan.writes[q]
      ensures q in next.deletes ==> next.deletes[q] == plan.deletes[q]
    {
      assert q in next.conflicts ==> (next.conflicts - {p})[q] == (plan.conflicts - {p})[q];
      assert q in next.writes ==> (next.writes - {p})[q] == (plan.writes - {p})[q];
      assert q in next.deletes ==> (next.deletes - {p})[q] == (plan.deletes - {p})[q];
    }
  }

  lemma DecisionIsRight(plan: Plan, done: set<Path>, p: Path, base: Files, local: Files, vault: Files)
    requires Decided(plan, done, base, local, vault) && p !in done
    ensures p in vault ==>
              Decided(DecideInVault(plan, p, At(base, p), At(local, p), vault[p]), done + {p}, base, local, vault)
    ensures p !in vault && p in base ==>
              Decided(DecideGone(plan, p, base[p], At(local, p)), done + {p}, base, local, vault)
  {
    if p in vault {
      DecidesInVault(plan, p, At(base, p), At(local, p), vault[p]);
      DecidedNext(plan, DecideInVault(plan, p, At(base, p), At(local, p), vault[p]), done, p, base, local, vault);
    } else if p in base {
      DecidesGone(plan, p, base[p], At(local, p));
      DecidedNext(plan, DecideGone(plan, p, base[p], At(local, p)), done, p, base, local, vault);
    }
  }

  // Each of these paths can be read, whether or not there is a file: none is a directory,
  // and no file stands above one.
  ghost predicate Readable(paths: set<Path>, files: Files, dirs: set<Path>) {
    forall p | p in paths :: CanHoldFile(files, dirs, p)
  }

  method PlanVaultFiles(tree: Store, base: Files, snapshot: Snapshot) returns (r: Result<Plan>)
    requires tree.Valid()
    modifies tree`files, tree`dirs
    ensures tree.Valid()
    ensures r.Ok? ==> Grounded(r.value, base, snapshot) && r.value.deletes == map[]
    ensures !tree.shared ==> tree.files == old(tree.files) && tree.dirs == old(tree.dirs)
    ensures !tree.shared && r.Ok? ==> Decided(r.value, snapshot.files.Keys, base, tree.files, snapshot.files)
    ensures !tree.shared && r.Ok? ==> Readable(snapshot.files.Keys, tree.files, tree.dirs)
    ensures !tree.shared && !tree.faulty && Readable(snapshot.files.Keys, tree.files, tree.dirs) ==> r.Ok?
  {
    var plan := Plan(map[], map[], map[]);
    var rest := snapshot.files.Keys;
    ghost var done: set<Path> := {};
    while rest != {}
      invariant tree.Valid() && rest <= snapshot.files.Keys && done == snapshot.files.Keys - rest
      invariant Grounded(plan, base, snapshot) && plan.deletes == map[]
      invariant !tree.shared ==> tree.files == old(tree.files) && tree.dirs == old(tree.dirs) && Readable(done, tree.files, tree.dirs)
      invariant !tree.shared ==> Decided(plan, done, base, tree.files, snapshot.files)
    {
      var p :| p in rest;
      tree.Disturb();
      var read := tree.Read(p);
      if read.ReadFault? {
        return Err;
      }
      var local := if read.Found? then Some(read.hash) else None;
      if !tree.shared {
        DecisionIsRight(plan, done, p, base, tree.files, snapshot.files);
      }
      plan := DecideInVault(plan, p, At(base, p), local, snapshot.files[p]);
      rest, done := rest - {p}, done + {p};
    }
    r := Ok(plan);
  }

  method PlanGoneFiles(tree: Store, plan0: Plan, base: Files, snapshot: Snapshot) returns (r: Result<Plan>)
    requires tree.Valid() && Grounded(plan0, base, snapshot)
    requires !tree.shared ==> Decided(plan0, snapshot.files.Keys, base, tree.files, snapshot.files)
    requires !tree.shared ==> Readable(snapshot.files.Keys, tree.files, tree.dirs)
    modifies tree`files, tree`dirs
    ensures tree.Valid()
    ensures r.Ok? ==> Grounded(r.value, base, snapshot)
    ensures !tree.shared ==> tree.files == old(tree.files) && tree.dirs == old(tree.dirs)
    ensures !tree.shared && r.Ok? ==> Decided(r.value, snapshot.files.Keys + base.Keys, base, tree.files, snapshot.files)
    ensures !tree.shared && r.Ok? ==> Readable(base.Keys, tree.files, tree.dirs)
    ensures !tree.shared && !tree.faulty && Readable(base.Keys, tree.files, tree.dirs) ==> r.Ok?
  {
    var plan := plan0;
    var rest := base.Keys - snapshot.files.Keys;
    ghost var done := snapshot.files.Keys;
    while rest != {}
      invariant tree.Valid() && rest <= base.Keys && rest !! done && rest + done == snapshot.files.Keys + base.Keys
      invariant snapshot.files.Keys <= done
      invariant Grounded(plan, base, snapshot)
      invariant !tree.shared ==> tree.files == old(tree.files) && tree.dirs == old(tree.dirs) && Readable(done, tree.files, tree.dirs)
      invariant !tree.shared ==> Decided(plan, done, base, tree.files, snapshot.files)
    {
      var p :| p in rest;
      tree.Disturb();
      var read := tree.Read(p);
      if read.ReadFault? {
        return Err;
      }
      var local := if read.Found? then Some(read.hash) else None;
      if !tree.shared {
        DecisionIsRight(plan, done, p, base, tree.files, snapshot.files);
      }
      plan := DecideGone(plan, p, base[p], local);
      rest, done := rest - {p}, done + {p};
    }
    r := Ok(plan);
  }

  method MakePlan(tree: Store, base: Files, snapshot: Snapshot) returns (r: Result<Plan>)
    requires tree.Valid()
    modifies tree`files, tree`dirs
    ensures tree.Valid()
    ensures r.Ok? ==> Grounded(r.value, base, snapshot)
    ensures !tree.shared ==> tree.files == old(tree.files) && tree.dirs == old(tree.dirs)
    ensures !tree.shared && r.Ok? ==> forall p :: DecidedAt(r.value, p, At(base, p), At(tree.files, p), At(snapshot.files, p))
    ensures !tree.shared && r.Ok? ==> Readable(snapshot.files.Keys + base.Keys, tree.files, tree.dirs)
    ensures !tree.shared && !tree.faulty && Readable(snapshot.files.Keys + base.Keys, tree.files, tree.dirs) ==> r.Ok?
  {
    r := PlanVaultFiles(tree, base, snapshot);
    if r.Ok? {
      r := PlanGoneFiles(tree, r.value, base, snapshot);
    }
  }

  method MakeDirectories(tree: Store, directories: set<Path>) returns (ok: bool)
    requires tree.Valid()
    modifies tree`files, tree`dirs
    ensures tree.Valid()
    ensures !tree.shared ==> tree.files == old(tree.files)
    ensures !tree.shared && ok ==>
              && tree.dirs == old(tree.dirs) + directories + ParentsOf(directories)
              && forall d | d in directories :: CanHoldDirectory(old(tree.files), d)
    ensures !tree.shared && !tree.faulty && (forall d | d in directories :: CanHoldDirectory(old(tree.files), d)) ==> ok
  {
    var rest := directories;
    while rest != {}
      invariant tree.Valid() && rest <= directories
      invariant !tree.shared ==> tree.files == old(tree.files) && forall d | d in directories - rest :: CanHoldDirectory(old(tree.files), d)
      invariant !tree.shared ==> tree.dirs == old(tree.dirs) + (directories - rest) + ParentsOf(directories - rest)
    {
      var d :| d in rest;
      tree.Disturb();
      ok := tree.Mkdir(d);
      if !ok {
        return;
      }
      assert directories - (rest - {d}) == directories - rest + {d};
      assert ParentsOf(directories - rest + {d}) == ParentsOf(directories - rest) + Ancestors(d);
      rest := rest - {d};
    }
    ok := true;
  }

  // The files once the planned writes up to `done` are made.
  ghost predicate Wrote(done: set<Path>, snapshot: Snapshot, files0: Files, files: Files) {
    forall p :: At(files, p) == if p in done then At(snapshot.files, p) else At(files0, p)
  }

  // No file of the vault lies beneath another.
  ghost predicate NotNested(paths: set<Path>) {
    forall p, q | p in paths && q in paths :: !Under(p, q)
  }

  // Writes made so far take no room from the others, and give none.
  lemma RoomBetweenWrites(writes: set<Path>, done: set<Path>, p: Path, files0: Files, dirs0: set<Path>, files: Files, dirs: set<Path>)
    requires done <= writes && p in writes
    requires files.Keys == files0.Keys + done && dirs == dirs0 + ParentsOf(done)
    ensures CanHoldFile(files, dirs, p) ==> CanHoldFile(files0, dirs0, p)
    ensures NotNested(writes) && CanHoldFile(files0, dirs0, p) ==> CanHoldFile(files, dirs, p)
  {
    forall q | q in done ensures p in Ancestors(q) <==> Under(p, q) {
      AncestorsAreAbove(p, q);
    }
    forall a ensures a in Ancestors(p) <==> Under(a, p) {
      AncestorsAreAbove(a, p);
    }
  }

  // The tree with these files as the vault has them, and room for each of them before.
  ghost predicate AsWritten(done: set<Path>, snapshot: Snapshot, files0: Files, dirs0: set<Path>, files: Files, dirs: set<Path>) {
    && Wrote(done, snapshot, files0, files) && files.Keys == files0.Keys + done
    && dirs == dirs0 + ParentsOf(done)
    && (forall p | p in done :: CanHoldFile(files0, dirs0, p))
  }

  lemma OneMoreWritten(writes: set<Path>, done: set<Path>, p: Path, snapshot: Snapshot,
                       files0: Files, dirs0: set<Path>, files: Files, dirs: set<Path>)
    requires done <= writes && p in writes && p !in done && p in snapshot.files
    requires AsWritten(done, snapshot, files0, dirs0, files, dirs)
    ensures CanHoldFile(files, dirs, p) ==>
              AsWritten(done + {p}, snapshot, files0, dirs0, files[p := snapshot.files[p]], dirs + Ancestors(p))
    ensures NotNested(writes) && CanHoldFile(files0, dirs0, p) ==> CanHoldFile(files, dirs, p)
    ensures At(files, p) == At(files0, p)
  {
    RoomBetweenWrites(writes, done, p, files0, dirs0, files, dirs);
    assert ParentsOf(done + {p}) == ParentsOf(done) + Ancestors(p);
    assert At(files, p) == At(files0, p);
  }

  method MakeWrites(tree: Store, plan: Plan, snapshot: Snapshot, ghost base: Files)
    returns (ok: bool, written: set<Path>, ghost unanswered: set<Path>)
    requires tree.Valid() && Grounded(plan, base, snapshot)
    modifies tree
    ensures tree.Valid() && AsAnswered(plan.writes.Keys, written, unanswered, ok, tree.faulty)
    ensures Logged(old(tree.log), tree.log, base, snapshot.files, written, unanswered)
    ensures !tree.shared && ok ==> AsWritten(plan.writes.Keys, snapshot, old(tree.files), old(tree.dirs), tree.files, tree.dirs)
    ensures !tree.shared && !tree.faulty && Ready(plan, old(tree.files), old(tree.dirs)) ==> ok
  {
    written, unanswered := {}, {};
    var rest := plan.writes.Keys;
    ghost var files0, dirs0, log0 := tree.files, tree.dirs, tree.log;
    while rest != {}
      invariant tree.Valid() && rest !! written && rest + written == plan.writes.Keys && unanswered == {}
      invariant Logged(log0, tree.log, base, snapshot.files, written, {})
      invariant !tree.shared ==> AsWritten(written, snapshot, files0, dirs0, tree.files, tree.dirs)
    {
      var p :| p in rest;
      ok, unanswered := MakeWrite(tree, plan, snapshot, p, base, written, files0, dirs0, log0);
      if !ok {
        return;
      }
      rest, written := rest - {p}, written + {p};
    }
    ok := true;
  }

  method MakeWrite(tree: Store, plan: Plan, snapshot: Snapshot, p: Path, ghost base: Files,
                   ghost written: set<Path>, ghost files0: Files, ghost dirs0: set<Path>, ghost log0: seq<Change>)
    returns (ok: bool, ghost unanswered: set<Path>)
    requires tree.Valid() && Grounded(plan, base, snapshot) && p in plan.writes && p !in written && written <= plan.writes.Keys
    requires Logged(log0, tree.log, base, snapshot.files, written, {})
    requires !tree.shared ==> AsWritten(written, snapshot, files0, dirs0, tree.files, tree.dirs)
    modifies tree
    ensures tree.Valid() && (unanswered == {} || unanswered == {p}) && (ok || !tree.faulty ==> unanswered == {})
    ensures Logged(log0, tree.log, base, snapshot.files, if ok then written + {p} else written, unanswered)
    ensures !tree.shared && ok ==> AsWritten(written + {p}, snapshot, files0, dirs0, tree.files, tree.dirs)
    ensures !tree.shared && !tree.faulty && Ready(plan, files0, dirs0) ==> ok
  {
    tree.Disturb();
    ghost var log1 := tree.log;
    if !tree.shared {
      OneMoreWritten(plan.writes.Keys, written, p, snapshot, files0, dirs0, tree.files, tree.dirs);
    }
    var result := tree.Write(p, snapshot.files[p], plan.writes[p]);
    ok := result.Written?;
    unanswered := if ok || tree.log == log1 then {} else {p};
    LoggedNext(log0, log1, tree.log, base, snapshot.files, written, p, ok);
  }

  // What a series of calls on these paths has come to: it is done, or one of them failed,
  // and only when an answer was lost has that one taken effect.
  ghost predicate AsAnswered(paths: set<Path>, done: set<Path>, unanswered: set<Path>, ok: bool, faulty: bool) {
    && done <= paths && unanswered <= paths - done && AtMostOne(unanswered)
    && (ok ==> done == paths && unanswered == {})
    && (!faulty ==> unanswered == {})
  }

  // Every write meets what it expects and has room.
  ghost predicate Ready(plan: Plan, files: Files, dirs: set<Path>) {
    && NotNested(plan.writes.Keys)
    && (forall p | p in plan.writes :: At(files, p) == plan.writes[p] && CanHoldFile(files, dirs, p))
  }

  method MakeDeletes(tree: Store, plan: Plan, ghost base: Files, ghost target: Files)
    returns (ok: bool, deleted: set<Path>, ghost unanswered: set<Path>)
    requires tree.Valid() && forall p | p in plan.deletes :: Some(plan.deletes[p]) == At(base, p) && p !in target
    modifies tree
    ensures tree.Valid() && AsAnswered(plan.deletes.Keys, deleted, unanswered, ok, tree.faulty)
    ensures Logged(old(tree.log), tree.log, base, target, deleted, unanswered)
    ensures !tree.shared ==> tree.files == old(tree.files) - deleted - unanswered && tree.dirs == old(tree.dirs)
    ensures !tree.shared && !tree.faulty && (forall p | p in plan.deletes :: At(old(tree.files), p) == Some(plan.deletes[p])) ==> ok
  {
    deleted, unanswered := {}, {};
    var rest := plan.deletes.Keys;
    ghost var files0, log0 := tree.files, tree.log;
    while rest != {}
      invariant tree.Valid() && rest !! deleted && rest + deleted == plan.deletes.Keys && unanswered == {}
      invariant Logged(log0, tree.log, base, target, deleted, {})
      invariant !tree.shared ==> tree.files == files0 - deleted && tree.dirs == old(tree.dirs)
    {
      var p :| p in rest;
      ok, unanswered := MakeDelete(tree, plan, p, base, target, deleted, log0);
      if !ok {
        return;
      }
      rest, deleted := rest - {p}, deleted + {p};
    }
    ok := true;
  }

  method MakeDelete(tree: Store, plan: Plan, p: Path, ghost base: Files, ghost target: Files, ghost deleted: set<Path>, ghost log0: seq<Change>)
    returns (ok: bool, ghost unanswered: set<Path>)
    requires tree.Valid() && p in plan.deletes && Some(plan.deletes[p]) == At(base, p) && p !in target
    requires Logged(log0, tree.log, base, target, deleted, {})
    modifies tree
    ensures tree.Valid() && (unanswered == {} || unanswered == {p}) && (ok || !tree.faulty ==> unanswered == {})
    ensures Logged(log0, tree.log, base, target, if ok then deleted + {p} else deleted, unanswered)
    ensures !tree.shared ==> tree.files == old(tree.files) - (if ok then {p} else unanswered) && tree.dirs == old(tree.dirs)
    ensures !tree.shared && !tree.faulty && At(old(tree.files), p) == Some(plan.deletes[p]) ==> ok
  {
    tree.Disturb();
    ghost var log1 := tree.log;
    if !tree.shared && p in tree.files {
      NothingAboveWhatIsThere(tree.files, tree.dirs, p);
    }
    var result := tree.CompareAndRemove(p, plan.deletes[p]);
    ok := result.Removed?;
    unanswered := if ok || tree.log == log1 then {} else {p};
    LoggedNext(log0, log1, tree.log, base, target, deleted, p, ok);
  }

  // Removes the directories the vault has lost, stopping at the first that cannot go.
  method RemoveLostDirectories(tree: Store, lost: set<Path>) returns (ok: bool, removed: seq<Path>, ghost unanswered: set<Path>)
    requires tree.Valid()
    modifies tree
    ensures tree.Valid() && ElementsOf(removed) + unanswered <= lost && AtMostOne(unanswered) && (ok || !tree.faulty ==> unanswered == {})
    ensures TakesAway(old(tree.log), tree.log, ElementsOf(removed) + unanswered)
    ensures !tree.shared && ok ==> LostAreGone(lost, old(tree.files), old(tree.dirs), tree.files, tree.dirs, removed)
    ensures !tree.shared && !tree.faulty && Removable(lost, old(tree.files), old(tree.dirs)) ==> ok
  {
    var unsorted := ListOf(lost);
    var sorted := SortDeepestFirst(unsorted);
    SortedElements(sorted, unsorted);
    ghost var files0, dirs0, log0 := tree.files, tree.dirs, tree.log;
    ok, removed, unanswered := true, [], {};
    NoneLostYet(sorted, tree.log, tree.files, tree.dirs, tree.shared, tree.faulty);
    for i := 0 to |sorted|
      invariant tree.Valid() && ok && unanswered == {}
      invariant LostUnderway(sorted, i, log0, files0, dirs0, tree.log, tree.files, tree.dirs, removed, tree.shared, tree.faulty)
    {
      ok, removed, unanswered := RemoveNextLost(tree, sorted, i, removed, log0, files0, dirs0);
      if !ok {
        return;
      }
    }
    AllLostGone(sorted, log0, files0, dirs0, tree.log, tree.files, tree.dirs, removed, tree.shared, tree.faulty);
  }

  // They are gone and nothing else is, they could go, and reported are those that stood there.
  ghost predicate LostAreGone(lost: set<Path>, files0: Files, dirs0: set<Path>, files: Files, dirs: set<Path>, removed: seq<Path>) {
    && files == files0 - lost && dirs == dirs0 - lost
    && Removable(lost, files0, dirs0)
    && ElementsOf(removed) == lost * (files0.Keys + dirs0)
  }

  lemma NoneLostYet(sorted: seq<Path>, log: seq<Change>, files: Files, dirs: set<Path>, shared: bool, faulty: bool)
    ensures LostUnderway(sorted, 0, log, files, dirs, log, files, dirs, [], shared, faulty)
  {
    assert sorted[..0] == [];
  }

  lemma AllLostGone(sorted: seq<Path>, log0: seq<Change>, files0: Files, dirs0: set<Path>,
                    log: seq<Change>, files: Files, dirs: set<Path>, removed: seq<Path>, shared: bool, faulty: bool)
    requires LostUnderway(sorted, |sorted|, log0, files0, dirs0, log, files, dirs, removed, shared, faulty)
    ensures TakesAway(log0, log, ElementsOf(removed) + {}) && ElementsOf(removed) + {} <= ElementsOf(sorted)
    ensures !shared ==> LostAreGone(ElementsOf(sorted), files0, dirs0, files, dirs, removed)
  {
    assert ElementsOf(removed) + {} == ElementsOf(removed) && sorted[..|sorted|] == sorted;
    if !shared {
      AllRemoved(sorted, files0, dirs0, files, dirs, true, faulty);
      forall d | d in removed ensures d in files0.Keys + dirs0 && d in sorted {
        assert d in ElementsOf(removed);
      }
    }
  }

  // How far the removals have come, none of which has failed.
  ghost predicate LostUnderway(sorted: seq<Path>, i: nat, log0: seq<Change>, files0: Files, dirs0: set<Path>,
                               log: seq<Change>, files: Files, dirs: set<Path>, removed: seq<Path>, shared: bool, faulty: bool)
    requires i <= |sorted|
  {
    && TakesAway(log0, log, ElementsOf(removed)) && ElementsOf(removed) <= ElementsOf(sorted)
    && (!shared ==> Removing(sorted, i, files0, dirs0, files, dirs, true, faulty))
    && (!shared ==> RemovalsTold(ElementsOf(sorted[..i]), files0.Keys, dirs0, files.Keys, dirs, removed, []))
  }

  method RemoveNextLost(tree: Store, sorted: seq<Path>, i: nat, removed0: seq<Path>, ghost log0: seq<Change>, ghost files0: Files, ghost dirs0: set<Path>)
    returns (ok: bool, removed: seq<Path>, ghost unanswered: set<Path>)
    requires tree.Valid() && i < |sorted| && DeepestFirst(sorted)
    requires LostUnderway(sorted, i, log0, files0, dirs0, tree.log, tree.files, tree.dirs, removed0, tree.shared, tree.faulty)
    modifies tree
    ensures tree.Valid() && (ok ==> unanswered == {})
    ensures ok ==> LostUnderway(sorted, i + 1, log0, files0, dirs0, tree.log, tree.files, tree.dirs, removed, tree.shared, tree.faulty)
    ensures !ok ==> AtMostOne(unanswered) && (!tree.faulty ==> unanswered == {})
    ensures !ok ==> ElementsOf(removed) + unanswered <= ElementsOf(sorted) && TakesAway(log0, tree.log, ElementsOf(removed) + unanswered)
    ensures !ok && !tree.shared && !tree.faulty ==> !Removable(ElementsOf(sorted), files0, dirs0)
  {
    ok, removed, unanswered := true, removed0, {};
    var d := sorted[i];
    assert d in ElementsOf(sorted);
    ghost var log1, files1, dirs1 := tree.log, tree.files, tree.dirs;
    var result := RemoveNext(tree, sorted, i, true, files0, dirs0);
    TakesAwayMore(log0, log1, tree.log, ElementsOf(removed0), d);
    if result.RemoveFault? {
      return false, removed, if tree.log == log1 then {} else {d};
    }
    if !tree.shared {
      NextRemovalTold(sorted, i, files0.Keys, dirs0, files1.Keys, dirs1, tree.files.Keys, tree.dirs, removed, [], result);
    }
    if result.Removed? {
      ElementsOfMore(removed, d);
      removed := removed + [d];
    }
  }

  // The workspace after a complete pull: the merge, less any file that stands where a
  // lost directory is removed.
  ghost predicate AfterPull(base: Files, local: Files, vault: Files, lost: set<Path>, files: Files) {
    forall p :: At(files, p) == if p in lost then None else MergeAt(At(base, p), At(local, p), At(vault, p))
  }

  lemma PlanMerges(plan: Plan, base: Files, local: Files, snapshot: Snapshot, written: Files, lost: set<Path>)
    requires forall p :: DecidedAt(plan, p, At(base, p), At(local, p), At(snapshot.files, p))
    requires plan.conflicts == map[]
    requires Wrote(plan.writes.Keys, snapshot, local, written)
    ensures AfterPull(base, local, snapshot.files, lost, written - plan.deletes.Keys - lost)
  {
    forall p
      ensures At(written - plan.deletes.Keys - lost, p) ==
              if p in lost then None else MergeAt(At(base, p), At(local, p), At(snapshot.files, p))
    {
      assert DecidedAt(plan, p, At(base, p), At(local, p), At(snapshot.files, p));
      assert p !in plan.conflicts;
      assert At(written, p) == if p in plan.writes.Keys then At(snapshot.files, p) else At(local, p);
    }
  }

  // The two trees let a pull do all it has to: the vault's directories and the files to be
  // written have room in the workspace, beneath a directory that is to go nothing is left
  // but directories that go with it, and no file that remains stands above one.
  ghost predicate Completable(writes: set<Path>, deletes: set<Path>, local: Files, localDirs: set<Path>, remoteDirs: set<Path>, lost: set<Path>) {
    && (forall d | d in remoteDirs :: CanHoldDirectory(local, d))
    && (forall p | p in writes :: CanHoldFile(local, WithDirectories(localDirs, remoteDirs), p))
    && Clears(writes, deletes, local, WithDirectories(localDirs, remoteDirs), lost)
  }

  ghost predicate Clears(writes: set<Path>, deletes: set<Path>, local: Files, dirs: set<Path>, lost: set<Path>) {
    && (forall d, p | d in lost && p in local.Keys + writes - deletes + dirs + ParentsOf(writes) && Under(d, p) :: p in lost)
    && (forall d, a | d in lost && a in Ancestors(d) :: a !in local.Keys + writes - deletes)
  }

  ghost function WithDirectories(dirs: set<Path>, directories: set<Path>): set<Path> {
    dirs + directories + ParentsOf(directories)
  }

  // After the writes and the deletes.
  lemma RemovableExactlyWhen(writes: set<Path>, deletes: set<Path>, snapshot: Snapshot, local: Files, dirs: set<Path>,
                             files: Files, dirs': set<Path>, lost: set<Path>)
    requires AsWritten(writes, snapshot, local, dirs, files, dirs')
    ensures Removable(lost, files - deletes, dirs') <==> Clears(writes, deletes, local, dirs, lost)
    ensures (files - deletes).Keys + dirs' == local.Keys + writes - deletes + dirs + ParentsOf(writes)
  {
    assert (files - deletes).Keys == local.Keys + writes - deletes;
    assert (files - deletes).Keys + dirs' == local.Keys + writes - deletes + dirs + ParentsOf(writes);
  }

  // What stands in the workspace when the lost directories are removed.
  ghost function Standing(writes: set<Path>, deletes: set<Path>, local: Files, localDirs: set<Path>, remoteDirs: set<Path>): set<Path> {
    local.Keys + writes - deletes + WithDirectories(localDirs, remoteDirs) + ParentsOf(writes)
  }

  // The workspace once everything in a plan is done.
  ghost predicate PulledTo(writes: set<Path>, deletes: set<Path>, removed: set<Path>, base: Files, snapshot: Snapshot, lost: set<Path>,
                           local: Files, localDirs: set<Path>, files: Files, dirs: set<Path>) {
    && removed == lost * Standing(writes, deletes, local, localDirs, snapshot.directories)
    && AfterPull(base, local, snapshot.files, lost, files)
    && dirs == localDirs + snapshot.directories + ParentsOf(snapshot.directories) + ParentsOf(writes) - lost
    && Completable(writes, deletes, local, localDirs, snapshot.directories, lost)
  }

  // Makes every change a plan without conflicts asks for, stopping at the first that fails.
  method MakeChanges(tree: Store, plan: Plan, snapshot: Snapshot, ghost base: Files, lost: set<Path>)
    returns (ok: bool, r: PullReport, ghost unanswered: set<Path>)
    requires tree.Valid() && plan.conflicts == map[] && Grounded(plan, base, snapshot)
    requires !tree.shared ==> forall p :: DecidedAt(plan, p, At(base, p), At(tree.files, p), At(snapshot.files, p))
    modifies tree
    ensures tree.Valid() && r.outcome == PullPartial
    ensures DidOnly(old(tree.log), tree.log, base, snapshot.files, r.written + r.deleted, ElementsOf(r.deletedDirectories), unanswered)
    ensures InPlan(r, unanswered, plan.writes.Keys, plan.deletes.Keys, lost) && (ok || !tree.faulty ==> unanswered == {})
    ensures ok ==> r.written == plan.writes.Keys && r.deleted == plan.deletes.Keys
    ensures !tree.shared && ok ==>
              PulledTo(plan.writes.Keys, plan.deletes.Keys, ElementsOf(r.deletedDirectories), base, snapshot, lost,
                       old(tree.files), old(tree.dirs), tree.files, tree.dirs)
    ensures !tree.shared && !tree.faulty ==>
              (NotNested(snapshot.files.Keys) &&
               Completable(plan.writes.Keys, plan.deletes.Keys, old(tree.files), old(tree.dirs), snapshot.directories, lost)) ==> ok
  {
    ghost var local, localDirs, log0 := tree.files, tree.dirs, tree.log;
    var written, deleted, removed;
    ok, written, unanswered := MakeFiles(tree, plan, snapshot, base, lost);
    ghost var log1 := tree.log;
    r := PullReport(PullPartial, written, {}, [], map[]);
    if !ok {
      LoggedIsCleared(log1, log1, base, snapshot.files, {}, unanswered);
      DidInTurn(log0, log1, log1, base, snapshot.files, written, {}, {}, unanswered);
      return;
    }
    if !tree.shared {
      RemovableExactlyWhen(plan.writes.Keys, plan.deletes.Keys, snapshot, local, WithDirectories(localDirs, snapshot.directories),
                           tree.files, tree.dirs, lost);
    }
    ok, deleted, removed, unanswered := ClearAway(tree, plan, snapshot, base, lost);
    r := PullReport(PullPartial, written, deleted, removed, map[]);
    LoggedWith(log0, log1, base, snapshot.files, written, unanswered);
    DidInTurn(log0, log1, tree.log, base, snapshot.files, written, deleted, ElementsOf(removed), unanswered);
  }

  // The files and the directories the vault has lost.
  method ClearAway(tree: Store, plan: Plan, snapshot: Snapshot, ghost base: Files, lost: set<Path>)
    returns (ok: bool, deleted: set<Path>, removed: seq<Path>, ghost unanswered: set<Path>)
    requires tree.Valid() && Grounded(plan, base, snapshot)
    modifies tree
    ensures tree.Valid() && old(tree.log) <= tree.log
    ensures Cleared(old(tree.log), tree.log, base, snapshot.files, deleted, ElementsOf(removed), unanswered)
    ensures deleted <= plan.deletes.Keys && ElementsOf(removed) <= lost && unanswered <= plan.deletes.Keys + lost
    ensures AtMostOne(unanswered) && (ok || !tree.faulty ==> unanswered == {}) && (ok ==> deleted == plan.deletes.Keys)
    ensures !tree.shared && ok ==>
              && tree.files == old(tree.files) - plan.deletes.Keys - lost && tree.dirs == old(tree.dirs) - lost
              && Removable(lost, old(tree.files) - plan.deletes.Keys, old(tree.dirs))
              && ElementsOf(removed) == lost * ((old(tree.files) - plan.deletes.Keys).Keys + old(tree.dirs))
    ensures !tree.shared && !tree.faulty ==>
              ((forall p | p in plan.deletes :: At(old(tree.files), p) == Some(plan.deletes[p])) &&
               Removable(lost, old(tree.files) - plan.deletes.Keys, old(tree.dirs))) ==> ok
  {
    removed := [];
    ghost var log0 := tree.log;
    ok, deleted, unanswered := MakeDeletes(tree, plan, base, snapshot.files);
    ghost var log1 := tree.log;
    if !ok {
      LoggedIsCleared(log0, log1, base, snapshot.files, deleted, unanswered);
      return;
    }
    ok, removed, unanswered := RemoveLostDirectories(tree, lost);
    LoggedWith(log0, log1, base, snapshot.files, deleted, unanswered);
    assert log0 <= log1 <= tree.log;
  }

  // The directories and the files of the vault.
  method MakeFiles(tree: Store, plan: Plan, snapshot: Snapshot, ghost base: Files, ghost lost: set<Path>)
    returns (ok: bool, written: set<Path>, ghost unanswered: set<Path>)
    requires tree.Valid() && plan.conflicts == map[] && Grounded(plan, base, snapshot)
    requires !tree.shared ==> forall p :: DecidedAt(plan, p, At(base, p), At(tree.files, p), At(snapshot.files, p))
    modifies tree
    ensures tree.Valid() && AsAnswered(plan.writes.Keys, written, unanswered, ok, tree.faulty)
    ensures Logged(old(tree.log), tree.log, base, snapshot.files, written, unanswered)
    ensures !tree.shared && ok ==>
              && (forall d | d in snapshot.directories :: CanHoldDirectory(old(tree.files), d))
              && AsWritten(plan.writes.Keys, snapshot, old(tree.files), WithDirectories(old(tree.dirs), snapshot.directories), tree.files, tree.dirs)
              && AfterPull(base, old(tree.files), snapshot.files, lost, tree.files - plan.deletes.Keys - lost)
              && (forall p | p in plan.deletes :: At(tree.files, p) == Some(plan.deletes[p]))
    ensures !tree.shared && !tree.faulty ==>
              (NotNested(snapshot.files.Keys) && (forall d | d in snapshot.directories :: CanHoldDirectory(old(tree.files), d)) &&
               (forall p | p in plan.writes :: CanHoldFile(old(tree.files), WithDirectories(old(tree.dirs), snapshot.directories), p))) ==> ok
  {
    ghost var local := tree.files;
    written, unanswered := {}, {};
    ok := MakeDirectories(tree, snapshot.directories);
    if !ok {
      return;
    }
    ExpectedNow(plan, base, local, snapshot, tree.shared);
    ok, written, unanswered := MakeWrites(tree, plan, snapshot, base);
    if ok && !tree.shared {
      PlanMerges(plan, base, local, snapshot, tree.files, lost);
      forall p | p in plan.deletes ensures At(tree.files, p) == Some(plan.deletes[p]) {
        assert p !in plan.writes;
      }
    }
  }

  // A report names only what was planned, and so does a lost answer.
  ghost predicate InPlan(r: PullReport, unanswered: set<Path>, writes: set<Path>, deletes: set<Path>, lost: set<Path>) {
    && r.written <= writes && r.deleted <= deletes && ElementsOf(r.deletedDirectories) <= lost
    && unanswered <= writes + deletes + lost
  }

  // Carries out a plan without conflicts. The manifest is the last thing written.
  method CarryOut(ws: Workspace, vaultId: string, plan: Plan, snapshot: Snapshot, ghost base: Files, baseDirs: set<Path>)
    returns (r: PullReport, ghost unanswered: set<Path>)
    requires ws.tree.Valid() && plan.conflicts == map[] && Grounded(plan, base, snapshot)
    requires base == Base(ws.manifest) && baseDirs == BaseDirs(ws.manifest)
    requires !ws.tree.shared ==> forall p :: DecidedAt(plan, p, At(base, p), At(ws.tree.files, p), At(snapshot.files, p))
    modifies ws`manifest, ws.tree
    ensures ws.tree.Valid() && (r.outcome == Pulled || r.outcome == PullPartial)
    ensures DidOnly(old(ws.tree.log), ws.tree.log, base, snapshot.files, r.written + r.deleted, ElementsOf(r.deletedDirectories), unanswered)
    ensures InPlan(r, unanswered, plan.writes.Keys, plan.deletes.Keys, baseDirs - snapshot.directories)
    ensures r.outcome == Pulled || !ws.tree.faulty ==> unanswered == {}
    ensures r.outcome == Pulled ==>
              && ws.manifest == Some(StateFromSnapshot(vaultId, snapshot))
              && r.written == plan.writes.Keys && r.deleted == plan.deletes.Keys
    // A partial pull has kept the manifest, unless all that failed is the answer to its write.
    ensures !ws.tree.shared && ws.manifest != old(ws.manifest) ==>
              && ws.manifest == Some(StateFromSnapshot(vaultId, snapshot)) && (r.outcome == Pulled || ws.tree.faulty)
              && r.written == plan.writes.Keys && r.deleted == plan.deletes.Keys
    ensures !ws.tree.shared && (r.outcome == Pulled || ws.manifest != old(ws.manifest)) ==>
              PulledTo(plan.writes.Keys, plan.deletes.Keys, ElementsOf(r.deletedDirectories), base, snapshot, baseDirs - snapshot.directories,
                       old(ws.tree.files), old(ws.tree.dirs), ws.tree.files, ws.tree.dirs)
    ensures !ws.tree.shared && !ws.tree.faulty ==>
              NotNested(snapshot.files.Keys) &&
              Completable(plan.writes.Keys, plan.deletes.Keys, old(ws.tree.files), old(ws.tree.dirs), snapshot.directories, baseDirs - snapshot.directories) ==>
                r.outcome == Pulled
  {
    var expected := ws.manifest;
    var ok;
    ghost var found;
    ok, r, unanswered := MakeChanges(ws.tree, plan, snapshot, base, baseDirs - snapshot.directories);
    if !ok {
      return;
    }
    ok, found := ws.WriteManifest(StateFromSnapshot(vaultId, snapshot), expected);
    if ok {
      r := r.(outcome := Pulled);
    }
  }

  // With no other editor the workspace is what the plan was made for.
  lemma ExpectedNow(plan: Plan, base: Files, local: Files, snapshot: Snapshot, shared: bool)
    requires !shared ==> forall p :: DecidedAt(plan, p, At(base, p), At(local, p), At(snapshot.files, p))
    ensures !shared ==> forall p | p in plan.writes :: At(local, p) == plan.writes[p] && p in snapshot.files
    ensures !shared ==> forall p | p in plan.deletes :: At(local, p) == Some(plan.deletes[p]) && p !in plan.writes
  {
    if !shared {
      forall p | p in plan.writes || p in plan.deletes
        ensures p in plan.writes ==> At(local, p) == plan.writes[p] && p in snapshot.files
        ensures p in plan.deletes ==> At(local, p) == Some(plan.deletes[p]) && p !in plan.writes
      {
        assert DecidedAt(plan, p, At(base, p), At(local, p), At(snapshot.files, p));
      }
    }
  }

  lemma PlanReports(plan: Plan, base: Files, local: Files, remote: Files)
    requires forall p :: DecidedAt(plan, p, At(base, p), At(local, p), At(remote, p))
    ensures forall p :: p in plan.conflicts <==> ClashAt(base, local, remote, p)
    ensures forall p | p in plan.conflicts :: ReasonFits(plan.conflicts[p], At(base, p), At(local, p), At(remote, p))
    ensures plan.writes.Keys == ToWrite(base, local, remote) && plan.deletes.Keys == ToDelete(base, local, remote)
  {
    forall p
      ensures p in plan.conflicts <==> ClashAt(base, local, remote, p)
      ensures p in plan.conflicts ==> ReasonFits(plan.conflicts[p], At(base, p), At(local, p), At(remote, p))
      ensures p in plan.writes <==> p in ToWrite(base, local, remote)
      ensures p in plan.deletes <==> p in ToDelete(base, local, remote)
    {
      assert DecidedAt(plan, p, At(base, p), At(local, p), At(remote, p));
    }
  }

  // What runPull does when nobody else is editing: it stops exactly when some path
  // clashes, naming the clashes and what is wrong; otherwise a complete run does all it has
  // to, reports it and leaves the merge, and a run that fails on the way reports nothing else.
  ghost predicate PullIsThreeWay(
    base: Files, baseDirs: set<Path>, local: Files, localDirs: set<Path>, remote: Files, remoteDirs: set<Path>,
    report: PullReport, unanswered: set<Path>, files: Files, dirs: set<Path>)
  {
    var lost := baseDirs - remoteDirs;
    match report.outcome
    case PullConflict =>
      && report.conflicts.Keys != {}
      && (forall p :: p in report.conflicts.Keys <==> ClashAt(base, local, remote, p))
      && (forall p | p in report.conflicts :: ReasonFits(report.conflicts[p], At(base, p), At(local, p), At(remote, p)))
      && files == local && dirs == localDirs
    case PullPartial =>
      && NoClash(base, local, remote)
      && InPlan(report, unanswered, ToWrite(base, local, remote), ToDelete(base, local, remote), lost)
    case Pulled =>
      && NoClash(base, local, remote)
      && report.written == ToWrite(base, local, remote) && report.deleted == ToDelete(base, local, remote)
      && ElementsOf(report.deletedDirectories) == lost * Standing(report.written, report.deleted, local, localDirs, remoteDirs)
      && AfterPull(base, local, remote, lost, files)
      && dirs == localDirs + remoteDirs + ParentsOf(remoteDirs) + ParentsOf(report.written) - lost
      && Completable(report.written, report.deleted, local, localDirs, remoteDirs, lost)
  }

  // A workspace this vault and scope may be pulled into.
  ghost predicate ManifestFits(manifest: Option<Manifest>, vaultId: string, scope: Scope) {
    manifest.None? || (InScope(manifest.value) && manifest.value.vaultId == vaultId && manifest.value.scope == scope)
  }

  // What a pull needs to get as far as the comparison. It reads every path of the manifest
  // and of the vault in the workspace, and no directory may stand there and no file above.
  ghost predicate Comparable(files: Files, dirs: set<Path>, scope: Scope, vaultId: string, manifest: Option<Manifest>,
                             local: Files, localDirs: set<Path>) {
    && Snapshotable(files, dirs, scope)
    && ManifestFits(manifest, vaultId, scope)
    && Readable(ScopedFiles(files, scope).Keys + Base(manifest).Keys, local, localDirs)
  }

  lemma VaultFilesNotNested(files: Files, dirs: set<Path>, scope: Scope)
    requires WellFormed(files, dirs)
    ensures NotNested(ScopedFiles(files, scope).Keys)
  {
    forall p, q | p in files && q in files ensures !Under(p, q) {
      if Under(p, q) {
        WellFormedAbove(files, dirs, p, q);
      }
    }
  }

  datatype Prepared = Prepared(snapshot: Snapshot, plan: Plan, base: Files, baseDirs: set<Path>)

  // Nothing is planned outside the scope.
  ghost predicate PlanStaysIn(scope: Scope, prepared: Prepared) {
    && (forall p | p in prepared.plan.writes.Keys + prepared.plan.deletes.Keys :: InSubtree(scope, p))
    && (forall d | d in prepared.baseDirs :: InSubtree(scope, d))
  }

  lemma PlannedInScope(scope: Scope, prepared: Prepared, manifest: Option<Manifest>, vaultId: string)
    requires ManifestFits(manifest, vaultId, scope)
    requires prepared.base == Base(manifest) && prepared.baseDirs == BaseDirs(manifest)
    requires Grounded(prepared.plan, prepared.base, prepared.snapshot)
    requires forall p | p in prepared.snapshot.files :: Covered(scope, p)
    ensures PlanStaysIn(scope, prepared)
  {
    forall p | p in prepared.plan.writes.Keys + prepared.plan.deletes.Keys ensures InSubtree(scope, p) {
      if p in prepared.plan.writes {
        assert Covered(scope, p);
      } else {
        assert p in prepared.base;
      }
    }
  }

  lemma ReportStaysIn(scope: Scope, prepared: Prepared, before: seq<Change>, after: seq<Change>, target: Files, report: PullReport, unanswered: set<Path>)
    requires PlanStaysIn(scope, prepared)
    requires InPlan(report, unanswered, prepared.plan.writes.Keys, prepared.plan.deletes.Keys, prepared.baseDirs)
    requires DidOnly(before, after, prepared.base, target, report.written + report.deleted, ElementsOf(report.deletedDirectories), unanswered)
    ensures StaysIn(scope, before, after) && ReportedIn(scope, report)
  {
    forall i | |before| <= i < |after| ensures InSubtree(scope, after[i].path) {
      assert Did(after[i], prepared.base, target, report.written + report.deleted + unanswered, ElementsOf(report.deletedDirectories) + unanswered);
    }
  }

  ghost predicate ReportedIn(scope: Scope, report: PullReport) {
    forall p | p in report.written + report.deleted + ElementsOf(report.deletedDirectories) :: InSubtree(scope, p)
  }

  // Everything before the first change to the workspace.
  method Prepare(vault: Store, vaultId: string, ws: Workspace, scope: Scope) returns (r: Result<Prepared>)
    requires vault.Valid() && ws.tree.Valid() && vault != ws.tree
    modifies vault`files, vault`dirs, ws.tree`files, ws.tree`dirs
    ensures vault.Valid() && ws.tree.Valid()
    ensures !vault.shared ==> vault.files == old(vault.files) && vault.dirs == old(vault.dirs)
    ensures !ws.tree.shared ==> ws.tree.files == old(ws.tree.files) && ws.tree.dirs == old(ws.tree.dirs)
    ensures r.Ok? ==>
              && r.value.base == Base(ws.manifest) && r.value.baseDirs == BaseDirs(ws.manifest)
              && Grounded(r.value.plan, r.value.base, r.value.snapshot) && r.value.snapshot.scope == scope
              && PlanStaysIn(scope, r.value)
    ensures !vault.shared && r.Ok? ==> r.value.snapshot == Snapshot(scope, ScopedFiles(vault.files, scope), ScopedDirs(vault.dirs, scope))
    ensures !ws.tree.shared && r.Ok? ==>
              forall p :: DecidedAt(r.value.plan, p, At(r.value.base, p), At(ws.tree.files, p), At(r.value.snapshot.files, p))
    ensures !vault.shared && !ws.tree.shared && r.Ok? ==> Comparable(vault.files, vault.dirs, scope, vaultId, ws.manifest, ws.tree.files, ws.tree.dirs)
    ensures !vault.shared && !ws.tree.shared && !vault.faulty && !ws.tree.faulty ==>
              Comparable(vault.files, vault.dirs, scope, vaultId, ws.manifest, ws.tree.files, ws.tree.dirs) ==> r.Ok?
  {
    var snapshot := SyncSnapshot(vault, scope);
    if snapshot.Err? {
      return Err;
    }
    var existing := ws.ReadManifest();
    if existing.Err? || (existing.value.Some? && (existing.value.value.vaultId != vaultId || existing.value.value.scope != scope)) {
      return Err;
    }
    var base := Base(existing.value);
    var plan := MakePlan(ws.tree, base, snapshot.value);
    if plan.Err? {
      return Err;
    }
    var prepared := Prepared(snapshot.value, plan.value, base, BaseDirs(existing.value));
    PlannedInScope(scope, prepared, existing.value, vaultId);
    r := Ok(prepared);
  }

  // seen is what the pull saw of the vault, and unanswered the path of a call whose answer
  // was lost.
  method RunPull(vault: Store, vaultId: string, ws: Workspace, scope: Scope)
    returns (r: Result<PullReport>, ghost seen: Snapshot, ghost unanswered: set<Path>)
    requires vault.Valid() && ws.tree.Valid() && vault != ws.tree
    modifies vault`files, vault`dirs, ws`manifest, ws.tree
    ensures vault.Valid() && ws.tree.Valid()
    ensures !vault.shared ==> vault.files == old(vault.files) && vault.dirs == old(vault.dirs)
    ensures !vault.shared && r.Ok? ==> seen == Snapshot(scope, ScopedFiles(old(vault.files), scope), ScopedDirs(old(vault.dirs), scope))
    // Whoever else edits the workspace, the reported files were brought from what the manifest
    // had to what the vault was seen to have, and nothing else was changed but at most the
    // one path whose call failed; after a refusal or a conflict nothing at all.
    ensures r.Ok? ==>
              && DidOnly(old(ws.tree.log), ws.tree.log, Base(old(ws.manifest)), seen.files, r.value.written + r.value.deleted,
                         ElementsOf(r.value.deletedDirectories), unanswered)
              && (r.value.outcome == Pulled || !ws.tree.faulty ==> unanswered == {})
    ensures r.Err? || r.value.outcome == PullConflict ==> ws.tree.log == old(ws.tree.log) && ws.manifest == old(ws.manifest)
    // No file outside the scope is written or deleted, and none is reported.
    ensures StaysIn(scope, old(ws.tree.log), ws.tree.log) && (r.Ok? ==> ReportedIn(scope, r.value))
    ensures r.Ok? && r.value.outcome == Pulled ==> ws.manifest == Some(StateFromSnapshot(vaultId, seen))
    // With no other editor, a partial pull keeps the manifest, or all of it was done and only
    // the answer to the last call is missing.
    ensures !vault.shared && !ws.tree.shared && r.Ok? && r.value.outcome == PullPartial && ws.manifest != old(ws.manifest) ==>
              && ws.tree.faulty && ws.manifest == Some(StateFromSnapshot(vaultId, seen))
              && PullIsThreeWay(Base(old(ws.manifest)), BaseDirs(old(ws.manifest)), old(ws.tree.files), old(ws.tree.dirs),
                                seen.files, seen.directories, r.value.(outcome := Pulled), {}, ws.tree.files, ws.tree.dirs)
    // With no other editor, the outcome is the three-way comparison.
    ensures !vault.shared && !ws.tree.shared && r.Ok? ==>
              && PullIsThreeWay(Base(old(ws.manifest)), BaseDirs(old(ws.manifest)), old(ws.tree.files), old(ws.tree.dirs),
                                seen.files, seen.directories, r.value, unanswered, ws.tree.files, ws.tree.dirs)
              && Comparable(old(vault.files), old(vault.dirs), scope, vaultId, old(ws.manifest), old(ws.tree.files), old(ws.tree.dirs))
    // On healthy hosts it gets to the comparison exactly when it can, and without a clash
    // it completes exactly when the trees let it.
    ensures !vault.shared && !ws.tree.shared && !vault.faulty && !ws.tree.faulty ==>
              (r.Ok? <==> Comparable(old(vault.files), old(vault.dirs), scope, vaultId, old(ws.manifest), old(ws.tree.files), old(ws.tree.dirs)))
    ensures !vault.shared && !ws.tree.shared && !vault.faulty && !ws.tree.faulty && r.Ok? ==>
              var base, local := Base(old(ws.manifest)), old(ws.tree.files);
              (r.value.outcome == Pulled <==>
                && NoClash(base, local, seen.files)
                && Completable(ToWrite(base, local, seen.files), ToDelete(base, local, seen.files), local, old(ws.tree.dirs),
                               seen.directories, BaseDirs(old(ws.manifest)) - seen.directories))
  {
    ghost var local := ws.tree.files;
    unanswered := {};
    var prepared := Prepare(vault, vaultId, ws, scope);
    if prepared.Err? {
      return Err, Snapshot(scope, map[], {}), {};
    }
    var Prepared(snapshot, plan, base, baseDirs) := prepared.value;
    seen := snapshot;
    if !ws.tree.shared {
      PlanReports(plan, base, local, snapshot.files);
    }
    if plan.conflicts.Keys != {} {
      return Ok(PullReport(PullConflict, {}, {}, [], plan.conflicts)), seen, {};
    }
    if !vault.shared {
      VaultFilesNotNested(vault.files, vault.dirs, scope);
    }
    var report;
    ghost var log0 := ws.tree.log;
    report, unanswered := CarryOut(ws, vaultId, plan, snapshot, base, baseDirs);
    ReportStaysIn(scope, prepared.value, log0, ws.tree.log, snapshot.files, report, unanswered);
    r := Ok(report);
  }
}
