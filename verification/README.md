# Verified models of the sync engine, its neighbours and the smaller protocols

This project models the parts of the repository in which many small steps have to add up
to one property, and proves that property for every input, run or interleaving. Loops that
change state in the source are methods or classes here, each proved against a
specification; the properties of the specification are lemmas. `dafny verify
dfyconfig.toml` checks everything.

## The Docs sync engine

A tree is a map from paths to content hashes and a set of directories (`Paths.dfy`,
`FileStore.dfy`). `FileStore.Store` is the files API of a host: compare-and-set writes,
`mkdir`, and removals that are never recursive. Two constants describe its surroundings:
`shared`, other editors may change the tree between any two calls; `faulty`, a call may
fail for a reason outside the tree, before its effect or after it, so that only the answer
is lost. A ghost log records every change the commands make to a file, so that what they
did is stated even then and when others interfere: whatever a report calls done is in the
log, nothing is there that was not asked for at its expected hash, and what is there
without being reported as done belongs to a call that failed. A tree also holds
what listings pass over (`Paths.Listed`): names that start with a dot, and a few others.
The tests on paths, made character by character as in the source, are tied to the segments
of a path, and a scope to the directories above it, so what a snapshot, a pull or a push
covers is said without those tests.

* `TreeCheck`, `SyncRequest`, `SyncApply`, `SyncApplyProperties` - `syncApply` with its
  inner `assertValidTree`.
* `Snapshot`, `Pull` (with `ThreeWay` and `Workspaces`), `Push` (with `PushPlan`) -
  `syncSnapshot`, `runPull` and `runPushPlan`.
* `Convergence` - the three together. A pull is the pointwise three-way merge. A pull
  followed by `push --delete` leaves workspace, vault and manifest equal to it. A second
  pull or a status then has nothing to do. For each command there is a condition on the
  two trees under which it completes on healthy hosts, and exactly then.
* `SimpleDiff`, `OrderEntries`, `MarkdownDocument` - the one-hunk diff, the sidebar's file
  tree, the front matter.

What the proofs brought to light:

* A directory the vault has lost is removed from the workspace by a call that also removes
  a plain file standing at that path, and `syncApply` does the same for the directories it
  deletes; no hash is compared. So a pull is the merge if and only if no kept file stands
  where a pulled directory was (`Convergence.PullIsMergeExactlyWhen`, with the lost file
  in `PullCanLoseALocalFile`), and `syncApply` changes only files it names if and only if
  none of the directories it deletes is a file
  (`SyncApplyProperties.OnlyNamedFilesChangeExactlyWhen`, `DirectoryDeleteCanTakeAFile`).
* The parents that `createParents` makes are not covered by the tree check; what the
  check sees stays free of case clashes with them exactly when each of them fits the names
  of the listing and of the request (`SyncApplyProperties.AppliedVaultIsValid`,
  `ImpliedParentCanClash`).
* The emptiness check looks at a listing, and `rmdir` at the directory. A request that
  deletes `d/x` and `d` passes every check in a vault that also has `d/.x`, and ends
  "partial" (`SyncApplyProperties.HiddenFileKeepsDirectory`, `HiddenFileExample`). Nor does
  any check see that a directory to be deleted lies beneath a file, where the host answers
  that something above is no directory and not that it is missing
  (`FileAboveFailsDirectory`). A fresh, admissible request of listable names is applied on a
  healthy host if and only if neither is the case (`SyncApply.Apply` with
  `SyncApplyProperties.UnobstructedExactlyWhen`).
* The same answer stops a pull before it compares anything, wherever a local file stands
  above a path of the manifest or the vault (`Pull.Comparable`), and leaves it partial where
  one stands above a directory the vault has lost (`Pull.Completable`).
* A new body is read back exactly for every text if and only if the front matter ends in a
  line feed (`MarkdownDocument.BodyReplacedExactlyWhen`).

## Graph searches

`Isolation` is `requiresIsolation`, the memoised depth-first search over imports that may
be cyclic, and `partitionTestFiles`. On any graph and with any memo, the answer is "yes"
exactly when a module that needs isolation can be reached without passing a file with a
cached "no" (`Isolation.AnswerIsExact`, `AnswerOfAScan`). So a "yes" is always right, and
a test file is wrongly shared exactly when every way to such a module passes a file that
had a "no" when it was asked. On a cycle that happens (`StaleNo`, `CyclicFileIsShared`);
on an acyclic graph it does not. `BundleStats` is `computeBundleStats`: the closure that
skips a closed set loses nothing. `Graphs` defines reachability as the existence of a path.

## Concurrent steps

* `InstallLock` - `acquireLock`, as a state machine with one action for each call on the
  lock file. The recheck of a stale file is a stat and a read, and its unlink a third
  action. A step breaks exclusion
  if and only if it is that unlink while some caller holds the lock; after any such step
  the caller that made it can take the lock too, and from a fresh start such a step can be
  reached. Without it exclusion holds in every run. It cannot occur while holders are
  younger than the stale age and nothing replaces the file between that stat and the unlink.
  Undisturbed, a release frees the lock for the next caller, and a file that is too old,
  names nobody or names a process that is gone is removed by the caller that meets it.
* `InstallJob` - `attachRuntime`, its `detach` and its abandon timer.
* `KeepAwakeHost` - the `caffeinate` supervisor.
* `KeepAwakeReconciler` - the reconciler loop and the callbacks that wake it.

In the last three a class has the variables of the source and a method for each callback.
Its `Valid()` is the invariant of the protocol, which every callback keeps; beside it each
callback states what it means to its caller. `View()` is the state, `After` says what each
event, callbacks and the outside world alike, does to a state, and `Machines` (`Runs.dfy`)
carries the invariants to every sequence of possible events.

## Memory and search

`MemoryStore` keeps rows, history and full-text index in step through every operation
except one: `forget` finds a memory by id or name, but updates the row whose id is the
caller's string. The store stays consistent if and only if these are the same memory, and
a memory found by its name alone cannot be forgotten by it.
`Catalog` is `renderCatalog`. `QueryLogic` is the query tokenizer and reader, with the
suggestions that insert into the query.

## Model

| member | source | states |
|---|---|---|
| FileStore.Store.Read | apps/host-daemon/src/command-handlers/file-read.ts:268-330 | answers, with the file or that it is missing, exactly where a file may stand; it fails for a directory and beneath a file, and otherwise only for a reason outside the tree |
| FileStore.Store.Write | apps/host-daemon/src/command-handlers/file-write.ts:106-237 | a write replaces exactly one file, and only at the expected hash; one that fails may leave parents behind, or have been made when only its answer is lost; a conflict reports a current hash that differs from the expected one and changes no file |
| FileStore.Store.ListPaths | apps/host-daemon/src/command-handlers/file-list.ts:206-250 | lists exactly the entries no part of whose path starts with a dot or is an excluded name, each once |
| FileStore.Store.Remove | apps/host-daemon/src/command-handlers/path-mutations.ts:117-137 | removes a file whatever its hash, or a directory only when it is empty, and nothing else; it fails beneath a file, and says that something is missing only where nothing stands above it |
| FileStore.Store.Mkdir | apps/host-daemon/src/command-handlers/path-mutations.ts:71-85 | creates the directory and its parents, unless a file stands at or above it |
| FileStore.Store.CompareAndRemove | plugins/docs/server.ts:1474-1484 | the re-read and the removal taken as one step: the file goes only at the expected hash, otherwise nothing changes; it fails for a directory and beneath a file |
| Paths.AboveSamePath | plugins/docs/server.ts:1099-1105 | two directories above the same path lie on one line |
| Paths.VaultPathAncestor | plugins/docs/server.ts:465-491 | every directory above a vault path is a vault path |
| Paths.VaultPathsHaveVaultSegments | plugins/docs/server.ts:465-491 | the test for a vault path, made character by character, accepts exactly the paths whose segments are neither empty nor start with a dot, without a backslash, a NUL or a drive prefix |
| Paths.ListedPathsHaveListedSegments | apps/host-daemon/src/command-handlers/file-list.ts:206-250 | a path is listed if and only if none of its segments starts with a dot or is an excluded name |
| Paths.AncestorsAreShorter | plugins/docs/server.ts:1099-1105 | the directories above a path are exactly its shorter beginnings, segment by segment |
| Paths.ScopeContains | plugins/docs/server.ts:1099-1105 | the scope test, by prefix and separator, accepts everything, one path, or a directory and the paths that have it among the directories above |
| Paths.LowerForgetsCase | plugins/docs/server.ts:1253-1278 | two paths are equal in lower case if and only if they differ in nothing but the case of letters |
| TreeCheck.AssertValidTree | plugins/docs/server.ts:1253-1278 | accepts a list if and only if no two entries have equal lower-cased paths and no entry lies beneath a file, in lower case |
| TreeCheck.ValidTreeIsValidSets | plugins/docs/server.ts:1253-1278 | on a list without repeats, the check depends only on which paths are files and which are directories |
| SyncRequest.CheckRequest | plugins/docs/server.ts:1279-1377 | accepts if and only if the request itself, the listed tree and the tree that results from both are valid and every deleted directory is emptied, as far as the listing shows, by the same request |
| SyncRequest.CheckEmptied | plugins/docs/server.ts:1331-1354 | nothing is created beneath a deleted directory and everything listed beneath it is scheduled for deletion, if and only if the check passes |
| SyncRequest.FutureEntries | plugins/docs/server.ts:1355-1376 | the list that is checked holds exactly the files and the directories that remain after the request, once each |
| SyncRequest.PathsOfEveryPart | plugins/docs/server.ts:1220-1252 | the check of the paths covers each of the four parts of a request |
| SyncRequest.RequestSets | plugins/docs/server.ts:1279-1306 | a request that passes its own check names every path once, across all four parts, and asks for nothing beneath a file it writes or deletes |
| SyncApply.Precheck | plugins/docs/server.ts:1378-1404 | with no other editor, on a healthy host it throws exactly where a path is a directory or lies beneath a file, and else lists exactly the writes and deletes whose expected hash is not the current one, with the current one |
| SyncApply.CreateDirectories | plugins/docs/server.ts:1420-1436 | every requested directory existed, was created or failed, exactly one of these; the tree gains those created, those whose answer was lost, and their parents |
| SyncApply.ApplyWrite | plugins/docs/server.ts:1437-1471 | one guarded write and the read after it: at most one change, at the expected hash; a refusal changes nothing |
| SyncApply.ApplyWrites | plugins/docs/server.ts:1437-1471 | each write is done, conflicting or failed, exactly one of these, and whoever else edits: what is done was made at its expected hash, what conflicts was not made and found another hash; alone, the tree is the old one with exactly the writes done, and writes that fit succeed on a healthy host; whatever fails, nothing goes and nothing comes but files at these paths and their parents |
| SyncApply.ApplyDeletes | plugins/docs/server.ts:1472-1491 | the same for deletes; alone, exactly the files to whose path a change was made are gone |
| SyncApply.SortDeepestFirst | plugins/docs/server.ts:1492-1496 | the same directories, none before a deeper one |
| SyncApply.NextIsEmpty | plugins/docs/server.ts:1492-1507 | in that order each directory is empty when its turn comes, if only scheduled ones lie beneath it |
| SyncApply.RemoveDirectories | plugins/docs/server.ts:1492-1507 | a file goes only where a directory is reported as removed or failed; on a healthy host nothing fails if and only if only directories that go too lie beneath those that go and no file stands above one, and then the tree loses exactly these paths; alone, whatever fails, what is reported as removed stood there and is gone, and whatever stood there was removed or failed |
| SyncApply.OnlyScheduledRemain | plugins/docs/server.ts:1472-1507 | when the directories go, only directories that go with them are left beneath them, if and only if everything else that was in the tree beneath them is deleted by the request |
| SyncApplyProperties.UnobstructedExactlyWhen | plugins/docs/server.ts:1312-1354 | for an admissible request of listable names, nothing in the whole tree is in its way if and only if no entry that listings pass over lies beneath a directory it deletes, and no file stands above one |
| SyncApplyProperties.HiddenFileKeepsDirectory | plugins/docs/server.ts:1312-1354 | a directory with one file and one hidden file: the request that deletes the file and the directory is fresh and passes every check, and cannot be applied |
| SyncApplyProperties.HiddenFileExample | plugins/docs/server.ts:1312-1354 | such a request and such a vault, with the names written out |
| SyncApplyProperties.FileAboveFailsDirectory | plugins/docs/server.ts:1492-1507 | so is the request that deletes a directory beneath a file, and cannot be applied |
| SyncApplyProperties.FileAboveExample | plugins/docs/server.ts:1492-1507 | the directory "a/b" in a vault with the file "a" |
| SyncApplyProperties.ListedNamesHaveRoom | plugins/docs/server.ts:1253-1377 | for an admissible request of listable names, no write and no new directory is obstructed |
| SyncApply.MakeReport | plugins/docs/server.ts:1508-1526 | "applied" exactly when there is no conflict and no error; "conflict" exactly when there is a conflict, no error, and nothing was written, deleted, created or removed; anything else is "partial" |
| SyncApply.ReportAccounts | plugins/docs/server.ts:1415-1527 | in the report every write and every delete is in exactly one of done, conflicts and errors |
| SyncApply.ReportIsBacked | plugins/docs/server.ts:1437-1527 | whoever else edits and whatever answers are lost: every path the report lists as written or deleted has its change among those made, every change made has its path among the done or the failed, no path in conflict has one, and every conflict names a hash that differs from the expected one |
| SyncApply.AppliedMeansAllMade | plugins/docs/server.ts:1508-1526 | a report without conflicts and errors means that every write and every delete of the request was made |
| SyncApply.ReportTellsDirectories | plugins/docs/server.ts:1415-1527 | each directory to create is in exactly one of the listing, the created and the errors, and no other directory is reported as created or deleted |
| SyncApply.TreeTellsDirectories | plugins/docs/server.ts:1420-1507 | alone, whatever fails: a directory reported as created is there, one reported as deleted stood there and is gone, one to delete that stood there is reported as deleted or failed, and no other directory comes or goes |
| SyncApply.Perform | plugins/docs/server.ts:1415-1527 | whoever else edits, every change was asked for at its expected hash, the report tells the truth about what was made, and "applied" means that all of it was; the outcome is that of the whole report, and the directories it names are those listed, created, failed or deleted, as the tree bears out when alone; alone, "applied" means that the vault is exactly the requested one, and on a healthy host a fresh request is applied if and only if nothing in the whole tree is in its way |
| SyncApply.Admit | plugins/docs/server.ts:1220-1377 | the checks as a whole, on what the listing shows; on a healthy host they pass for every admissible request |
| SyncApply.Apply | plugins/docs/server.ts:1220-1527 | syncApply: all of the above, for what it writes, deletes, creates and removes and for the report it gives; a refusal, a mismatch or a dry run changes nothing; alone on a healthy host it goes ahead if and only if the request is admissible, and then applies it if and only if it is fresh and nothing in the whole tree is in its way |
| SyncApplyProperties.AppliedVaultIsValid | plugins/docs/server.ts:1253-1377 | after an accepted request the entries the check sees form a valid tree, and with the implied parents they do if and only if no implied parent differs in case only from a listed name, a requested one or another implied parent |
| SyncApplyProperties.ImpliedParentCanClash | plugins/docs/server.ts:1355-1377 | writing a file into a vault that has another spelling of its parent is admissible, goes through on a healthy host, and always leaves two paths that differ in case only |
| SyncApplyProperties.TwoSpellingsExample | plugins/docs/server.ts:1355-1377 | "docs/x" written into a vault with "Docs" |
| SyncApplyProperties.OnlyNamedFilesChangeExactlyWhen | plugins/docs/server.ts:1492-1507 | a complete request changes no file it does not write or delete by name, if and only if none of the directories it deletes is a file |
| SyncApplyProperties.DirectoryDeleteCanTakeAFile | plugins/docs/server.ts:1331-1354 | deleting a directory where there is a file is admissible, goes through on a healthy host, and removes the file without naming its hash |
| SyncApplyProperties.TakenFileExample | plugins/docs/server.ts:1331-1354 | the directory "a" deleted in a vault with the file "a" |
| Snapshot.SyncSnapshot | plugins/docs/server.ts:1128-1218 | everything listed is a vault path in the subtree of the scope, without case clashes; alone it is exactly the files and directories of the vault that belong to that subtree by their segments and the directories above them, each file with its content; it succeeds on a healthy host exactly under a stated condition on the tree |
| Workspaces.Workspace.ReadManifest | plugins/docs/server.ts:1871-1920 | a manifest is accepted only if everything in it lies in its own scope |
| Workspaces.Workspace.WriteManifest | plugins/docs/server.ts:1922-1941 | compare-and-set: the manifest is replaced only when it is the expected one, and a failure leaves it as it was found unless only the answer is lost |
| Pull.DecisionIsRight | plugins/docs/server.ts:2055-2096 | the branches for one path decide the three-way comparison of base, local and vault, each an optional hash: a conflict if and only if all three differ, with the reason that says which side lacks the file |
| Pull.MakePlan | plugins/docs/server.ts:2055-2096 | the two loops together decide every path so, and nothing else; alone on a healthy host they succeed if and only if no directory of the workspace stands at a path they read and no file above one |
| Pull.MakeWrites | plugins/docs/server.ts:2126-2142 | whoever else edits, the reported files were brought from the manifest's hash to the vault's, and no other was but perhaps the one whose answer was lost; alone, on completion exactly the planned files have become the vault's, and with room for each of them it completes on a healthy host |
| Pull.MakeDeletes | plugins/docs/server.ts:2143-2161 | the same for deletes, each at the manifest's hash; alone, exactly these files are gone, and it completes on a healthy host |
| Pull.RemoveLostDirectories | plugins/docs/server.ts:2162-2178 | on a healthy host the lost directories all go if and only if only lost ones lie beneath them and no file stands above one; a file goes only where one of them is reported as gone, or where the one answer was lost; alone, on completion exactly those that stood there are reported |
| Pull.PlanReports | plugins/docs/server.ts:2055-2096 | the conflicts are exactly the clashes, each with its reason, the files written and deleted exactly those that only the vault changed |
| Pull.PlanMerges | plugins/docs/server.ts:2055-2178 | a conflict-free plan carried out leaves at each path the merge, less any path in a lost directory's place |
| Pull.MakeChanges | plugins/docs/server.ts:2109-2178 | the changes to the workspace in their order: every reported one was made, and at most the one path whose call failed was changed besides; on a healthy host it completes if and only if the workspace has room for the vault's directories and files, nothing else is left beneath a lost directory and no file that remains stands above one |
| Pull.CarryOut | plugins/docs/server.ts:2109-2211 | the manifest is written last and only after everything else: a partial pull reports planned paths only, and keeps the old manifest unless all that failed is the answer to its write |
| Pull.RunPull | plugins/docs/server.ts:2016-2212 | whoever else edits the workspace, the reported files change from the manifest's hash to the vault's, and nothing else does but at most the one path whose answer was lost; no file outside the subtree of the scope is written, deleted or reported. Alone on healthy hosts: it gets to the comparison if and only if the vault can be snapshotted, the manifest fits and every path of the manifest and the vault can be read in the workspace; it stops without any change if and only if some path then clashes, naming the clashes and what is wrong with each; and it completes, leaving the merge and a manifest equal to the vault in scope, if and only if none does and the trees have room, with a report of exactly what was written, deleted and removed |
| PushPlan.PlanFiles | plugins/docs/server.ts:2307-2400 | a file in scope conflicts exactly where the vault differs from both base and local, is written or deleted exactly where only the local side changed, and any local file outside the scope conflicts; every conflict has the reason that its three sides give |
| PushPlan.PlanDirectories | plugins/docs/server.ts:2401-2475 | the directory plan by presence in workspace, manifest and vault, both directions, and the reason for each conflict; the pulled folder itself is never removed |
| Push.ReadLocal | plugins/docs/server.ts:2244-2279 | push sees exactly the visible files and directories of the workspace |
| Snapshot.NameClashes | plugins/docs/server.ts:2296-2306 | a clash is reported if and only if two different paths are equal in lower case; the snapshot refuses by the same test |
| Push.PushedVault | plugins/docs/server.ts:2307-2515 | a conflict-free plan, performed, leaves every covered path of the vault as pushed and every other path alone |
| Push.AnyRequestWillDo | plugins/docs/server.ts:2495-2512 | whether a request for a plan goes through does not depend on the order it lists things in |
| Push.Compare | plugins/docs/server.ts:2240-2494 | the plans are the three-way comparison, a conflict is reported exactly when one of them or the names have one, and neither side changes; on healthy hosts it succeeds if and only if the vault can be snapshotted and the workspace listed |
| Push.RunPush | plugins/docs/server.ts:2214-2517 | without apply, in a dry run or on a conflict nothing changes; whoever else edits the vault, a file changes only from the manifest's hash to what the workspace was seen to have, and "pushed" means that every planned change was made; nothing outside the subtree of the scope is planned or changed. Alone, "pushed" leaves the scoped vault as the three-way rule says and the manifest equal to it, and on healthy hosts a push completes if and only if the comparison can be made, has no conflict, and its request is admissible, unobstructed and leaves a vault that can be snapshotted |
| Convergence.PullIsMergeExactlyWhen | plugins/docs/server.ts:2055-2178 | a complete pull is the pointwise three-way merge if and only if no file the merge keeps stands where a lost directory was |
| Convergence.PullCanLoseALocalFile | plugins/docs/server.ts:2162-2178 | a workspace without any clash, into which a pull gets to the comparison and completes on healthy hosts, and whose only file every complete pull removes |
| Convergence.LostFileExample | plugins/docs/server.ts:2162-2178 | the pulled directory "d" replaced by a file "d" while the vault drops it |
| Convergence.MergeKeepsEveryEdit | plugins/docs/server.ts:2055-2096 | without a clash the merge has every change and every deletion either side made since the base |
| Convergence.PullThenPush | plugins/docs/server.ts:2016-2517 | after "pulled" and then "pushed" with --delete, workspace, vault and manifest agree on every covered path, on the merge of the three original sides, and no edit is lost; on healthy hosts the push completes if and only if the workspace can be listed, has nothing visible outside the scope and no names that clash, and the vault lets its request through |
| Convergence.ConflictAfterPull | plugins/docs/server.ts:2281-2494 | right after a pull a push meets a conflict if and only if something visible lies outside the scope or two names clash |
| Convergence.PullTwice | plugins/docs/server.ts:2016-2212 | a second pull, however it ends, reports no conflict, writes nothing and deletes nothing, and on healthy hosts it is complete |
| Convergence.StatusAfterPush | plugins/docs/server.ts:2214-2517 | after a push, with or without --delete, a status succeeds on healthy hosts and plans no write, no new directory and no conflict; what it would delete or reports as kept is exactly what the vault has and the workspace has not, which after a push with --delete is at most the pulled folder itself |
| Convergence.FilesSettled | plugins/docs/server.ts:2307-2400 | the file half of that, for every plan that meets the specification |
| Convergence.DirectoriesSettled | plugins/docs/server.ts:2401-2475 | the directory half |
| SimpleDiff.DiffLines | plugins/docs/server.ts:1989-2006 | one hunk that turns one list of lines into the other, whose inverse turns it back, and from whose edges no line could be left out |
| SimpleDiff.Diff | plugins/docs/server.ts:1987-2014 | nothing exactly for equal texts, otherwise such a hunk that is not empty |
| SimpleDiff.PatchGivesText | plugins/docs/server.ts:1987-2014 | patching the old text gives the new text, and undoing the patch the old one |
| SimpleDiff.JoinSplit | plugins/docs/server.ts:1990-1991 | cutting a text into lines loses nothing and leaves no line feed in a line |
| SimpleDiff.SplitJoin | plugins/docs/server.ts:1990-1991 | lines that are joined are cut again exactly where they were joined |
| Isolation.IsolationScan.RequiresIsolation | vitest.shared.ts:138-159 | the search with its memo and visiting set in place computes the recursive specification and restores the visiting set |
| Isolation.VisitIsSound | vitest.shared.ts:138-159 | with any sound memo and any visiting set, a "yes" means that a module using such an API is reachable |
| Isolation.VisitExplores | vitest.shared.ts:138-159 | a search that answers "no" leaves every new "no" with imports that are "no" or still being visited |
| Isolation.AnswerIsExact | vitest.shared.ts:138-159 | on any graph and with any memo, the answer is "yes" if and only if a module using such an API, or a file cached as "yes", can be reached without passing a file cached as "no" |
| Isolation.AnswerOfAScan | vitest.shared.ts:138-159 | in a scan every cached "yes" leads to such a module through files that are "yes", every search keeps it so, and the answer is "yes" if and only if such a module is reachable without passing a "no" |
| Isolation.AnswerIsRight | vitest.shared.ts:138-159 | on any graph, as long as every "no" was explored, in particular on an empty memo, the answer is "yes" if and only if such a module is reachable at all |
| Isolation.AcyclicVisit | vitest.shared.ts:138-159 | on an acyclic graph every answer and every cached answer is exact |
| Isolation.StaleNo | vitest.shared.ts:138-159 | a cyclic graph on which a cached "no" is wrong for the next file |
| Isolation.VisitKeepsAnswers | vitest.shared.ts:138-159 | a cached answer is never changed |
| Isolation.NeedsOwnWorker | vitest.shared.ts:192-196 | one file needs its own worker if and only if its environment says so or such a module is reachable without passing a "no" cached so far |
| Isolation.PartitionTestFiles | vitest.shared.ts:161-218 | every file is either isolated or in the one group of its own environment; one whose environment does not decide is isolated if and only if such a module is reachable from it without passing a file that had a "no" when it was asked |
| Isolation.AnswerStays | vitest.shared.ts:161-218 | what a file was answered is what the memo says for the rest of the scan |
| Isolation.NothingIsolatedInVain | vitest.shared.ts:161-218 | whatever the graph, a file is isolated only if its environment says so or such a module is reachable from it |
| Isolation.AcyclicPartitionIsRight | vitest.shared.ts:161-218 | on an acyclic graph exactly the right files are isolated |
| Isolation.CyclicFileIsShared | vitest.shared.ts:161-218 | two files of a cycle, the second of which is shared though it reaches such a module |
| BundleStats.Closure.Walk | apps/app/vite-bundle-stats.ts:58-64 | the walk adds only names reachable from the start while avoiding those to skip, and leaves what it added closed under imports |
| BundleStats.StaticClosure | apps/app/vite-bundle-stats.ts:53-67 | the closure is exactly the set of names reachable from the start through names that are not skipped |
| BundleStats.SkippingAClosedSet | apps/app/vite-bundle-stats.ts:124-127 | avoiding a closed set on the way is the same as leaving it out of the result |
| BundleStats.Find | apps/app/vite-bundle-stats.ts:50-51 | the first chunk that is an entry, or whose facade ends in the given suffix, or none if and only if no chunk is one |
| BundleStats.GraphIsOfTheChunks | apps/app/vite-bundle-stats.ts:49-63 | the chunk map knows exactly the names of the chunks, and imports from each exactly what the last chunk of that name imports |
| BundleStats.ReachingIsLoading | apps/app/vite-bundle-stats.ts:53-67 | reaching through the chunk map is the same as a way from import to import, read from the list of chunks |
| BundleStats.RouteBeyond | apps/app/vite-bundle-stats.ts:124-127 | a route has exactly the known chunks that its entry loads, import by import, and the entry of the bundle does not |
| BundleStats.ComputeBundleStats | apps/app/vite-bundle-stats.ts:44-136 | no statistics exactly when there is no entry; boot is every chunk the entry loads, import by import; every measured route is recorded or warned about, never both; a route is what its chunk loads beyond boot |
| InstallLock.StepKeepsSound | plugins/browser-automation/installer.ts:442-509 | every step of any caller, even a disturbed one, keeps what each caller knows about the file it has seen |
| InstallLock.StepKeepsInvExactlyWhen | plugins/browser-automation/installer.ts:442-509 | a step keeps "whoever holds the lock is live and the lock file is its own" if and only if it is not the removal of a stale file while some caller holds the lock |
| InstallLock.UndisturbedStealIsHarmless | plugins/browser-automation/installer.ts:497-508 | it is not while holders are younger than the stale age and the path names the file of the stat, or nothing, at the read and at the unlink that follow it |
| InstallLock.UndisturbedRunIsOrderly | plugins/browser-automation/installer.ts:442-509 | so a run that is like that at every step never steals a held lock |
| InstallLock.StolenLockIsTakenTwice | plugins/browser-automation/installer.ts:442-509 | after any step that steals a held lock, a run leads to where the caller that stole it and the other one both hold the lock |
| InstallLock.LockIsSafe | plugins/browser-automation/installer.ts:442-509 | after every run in which no step steals a held lock, at most one live caller holds the lock, a published lock file names its writer, and a release removes only the releasing caller's file and, undisturbed, does remove it |
| InstallLock.MutualExclusion | plugins/browser-automation/installer.ts:442-509 | the same from the start, whatever file an earlier process left behind |
| InstallLock.DisturbedStealBreaksExclusion | plugins/browser-automation/installer.ts:497-508 | it happens: from a start with one abandoned file two callers come to hold the lock, though no time passes and nobody crashes |
| InstallLock.ReleaseFreesTheLock | plugins/browser-automation/installer.ts:456-464 | the three steps of a holder's release, undisturbed, are possible in turn and leave no lock file |
| InstallLock.ReleaseLeavesOtherFiles | plugins/browser-automation/installer.ts:456-464 | a release that finds another file than the one it linked, or none, removes nothing |
| InstallLock.ReleasedLockIsTakenNext | plugins/browser-automation/installer.ts:451-464 | after it a caller with its claim written links it and holds the lock |
| InstallLock.AttemptJudges | plugins/browser-automation/installer.ts:447-497 | an attempt that meets a lock file judges it to be stale if and only if it is older than twenty minutes, names nobody for more than ten seconds, or names a process that is gone |
| InstallLock.DesertedLockIsRemoved | plugins/browser-automation/installer.ts:447-508 | such a file, undisturbed, is removed by the caller that meets it; any other is left in place, waited for, and met again |
| InstallLock.ReplacedFileIsLeftAlone | plugins/browser-automation/installer.ts:497-507 | a file that is no longer the one that was judged, by inode, time or owner, stays where it is |
| InstallLock.EveryLockIsDesertedInTime | plugins/browser-automation/installer.ts:481-495 | a lock whose holder dies, and any lock after twenty minutes, is such a file |
| InstallJob.RuntimeHost.AttachRuntime | plugins/browser-automation/host.ts:53-108 | keeps the invariant; the request waits for the current job, a new one only if there was none, that job has no timer pending and counts at least this request, and no other request or job notices |
| InstallJob.RuntimeHost.DetachRequest | plugins/browser-automation/host.ts:95-106 | keeps the invariant; a request leaves once, a second detach changes nothing; the count afterwards is the number of requests still attached; the last one to leave the current job leaves a timer behind, and while others stay there is none pending |
| InstallJob.RuntimeHost.AbandonTimer | plugins/browser-automation/host.ts:102-105 | keeps the invariant; when the timer fires the job is the current one, nobody is attached to it, and it is aborted |
| InstallJob.RuntimeHost.Cleanup | plugins/browser-automation/host.ts:79-85 | keeps the invariant; the lease of the job is disposed for the first and last time, no timer of it is left, and it is no longer the current job |
| InstallJob.EventKeepsInv | plugins/browser-automation/host.ts:43-109 | every event keeps: the waiter count is the number of attached requests; a pending timer means that nobody is attached; a current job nobody waits for has been given its timer; each lease is disposed once, by the cleanup |
| InstallJob.JobsAreAccountedFor | plugins/browser-automation/host.ts:43-109 | after every interleaving of attach, detach, timer, completion, cleanup and dispose: each job's count is the number of requests attached to it, its lease was disposed once if it was cleaned up and else never, a job with an attached request has no timer pending, and a current job without one has had its timer |
| InstallJob.TimerAbortsOnlyTheAbandoned | plugins/browser-automation/host.ts:102-105 | in every run a timer that fires finds nobody attached, and aborts the job |
| InstallJob.AbortedExactlyBy | plugins/browser-automation/host.ts:43-109 | a job is aborted by the firing of its own timer and by the end of the host, and by no other event |
| InstallJob.EveryJobCanEnd | plugins/browser-automation/host.ts:63-86 | every job can settle and be cleaned up, which gives its lease back exactly once, and the next request then starts another |
| KeepAwakeHost.Supervisor.Start | plugins/keep-awake/host.ts:65-92 | brings a wanted worker whose lifecycle has not ended to where a child runs or a restart is pending, keeps whichever is there already, terminates nothing, and does nothing when unwanted or over |
| KeepAwakeHost.Supervisor.HandleSetEnabled | plugins/keep-awake/host.ts:114-126 | keeps the invariant; "on" holds a lease and has a child or one to come, with what was there kept; "off" keeps nothing, and what was there was told to stop and given back; the answer says "enabled" when asked for, unless a spawn failed, a restart is still pending or the lifecycle is over, and never when not asked for |
| KeepAwakeHost.Supervisor.HandleTimer | plugins/keep-awake/host.ts:59-62 | keeps the invariant; while the lifecycle lasts a new child is tracked, or the next restart is pending if the spawn failed, under the same lease |
| KeepAwakeHost.Supervisor.HandleChildEnd | plugins/keep-awake/host.ts:85-91 | keeps the invariant; the end of the tracked child schedules a restart unless the lifecycle is over, the end of any other child is only recorded |
| KeepAwakeHost.Supervisor.HandleAbort | plugins/keep-awake/host.ts:94-105 | keeps the invariant; the end of any lifecycle it was ever bound to, even an older one, switches everything off; any other changes nothing |
| KeepAwakeHost.EventKeepsInv | plugins/keep-awake/host.ts:33-131 | every event keeps: a pending restart excludes a child; not wanted means no child, timer or lease; wanted and alive means a child or a pending restart; no running child is forgotten; each lease is held or was given back once |
| KeepAwakeHost.FromTheStart | plugins/keep-awake/host.ts:26-132 | the same after every sequence of events |
| KeepAwakeHost.AtMostOneRunning | plugins/keep-awake/host.ts:26-132 | at most one child that was not sent SIGTERM runs, none once Keep Awake is off, and none while a restart is pending |
| KeepAwakeHost.LateExitChangesNothing | plugins/keep-awake/host.ts:85-91 | the late exit of a child that was told to stop changes nothing |
| KeepAwakeReconciler.Reconciler.Wake | plugins/keep-awake/server.ts:301-307 | a parked loop stays parked if and only if it is not aborted and has no request, and then a retry that is asked for has its timer armed; a loop that is not parked does not notice |
| KeepAwakeReconciler.Reconciler.SaveConfiguration | plugins/keep-awake/server.ts:110-117 | keeps the invariant; the request is outstanding and the loop is not parked, whatever it was doing |
| KeepAwakeReconciler.Reconciler.RequestRetry | plugins/keep-awake/server.ts:93-96 | keeps the invariant; a loop that is parked stays so, with its timer armed |
| KeepAwakeReconciler.Reconciler.WaitForReconcile | plugins/keep-awake/server.ts:281-313 | parks if and only if it is not aborted and nothing was requested since the pass began, with the timer armed if and only if a retry is wanted |
| KeepAwakeReconciler.Reconciler.EndPass | plugins/keep-awake/server.ts:336-344 | keeps the invariant; a request made during the pass starts another on the newest configuration, otherwise the loop parks having seen the newest, for a while if and only if the pass or a worker's exit asks for a retry; the delay starts again from the least one exactly when it parks without one |
| KeepAwakeReconciler.Reconciler.ResumeLoop | plugins/keep-awake/server.ts:345-348 | keeps the invariant; a new pass begins on the newest configuration with clear flags, or the loop is over; the delay doubles up to its maximum exactly after a wait for a retry |
| KeepAwakeReconciler.Reconciler.StartService | plugins/keep-awake/server.ts:330-335 | keeps the invariant; the first pass begins on the newest configuration with clear flags, or the service is over at once |
| KeepAwakeReconciler.Reconciler.TimerFired | plugins/keep-awake/server.ts:289-300 | keeps the invariant; the wait is over |
| KeepAwakeReconciler.Reconciler.AbortService | plugins/keep-awake/server.ts:289-311 | keeps the invariant; an abort ends a wait, and a second one changes nothing |
| KeepAwakeReconciler.EventKeepsInv | plugins/keep-awake/server.ts:281-348 | every event keeps: an unread configuration has a request outstanding, an exit has its retry flag, and a parked loop has nothing waiting |
| KeepAwakeReconciler.UnreadConfigurationIsNext | plugins/keep-awake/server.ts:331-348 | after every interleaving: while the service runs, a configuration the last pass has not read is one step of the loop away from a pass that reads it |
| KeepAwakeReconciler.ParkedMeansNothingIsWaiting | plugins/keep-awake/server.ts:281-348 | no lost wake-up: a parked loop has no request pending, ran its last pass on the current configuration, and has its retry timer armed if that pass asked for a retry or a worker exited since; the delay stays within its bounds |
| MemoryStore.MemoryStore.Find | plugins/memory/server.ts:630-640 | the choice of the query: an active memory in scope with that id or name, a project's before a global one and the latest of these, or none if and only if there is none |
| MemoryStore.MemoryStore.Get | plugins/memory/server.ts:624-649 | returns that choice; a touch writes the time and one access more into its row, and changes nothing else |
| MemoryStore.MemoryStore.InsertHistory | plugins/memory/server.ts:734-755 | adds one version row, unless that memory already has one for that version |
| MemoryStore.MemoryStore.Add | plugins/memory/server.ts:442-509 | keeps the invariant; succeeds if and only if no active memory of the scope has the name; the new row is active and has its first version in the history; otherwise nothing changes |
| MemoryStore.MemoryStore.Update | plugins/memory/server.ts:511-576 | keeps the invariant; succeeds if and only if the input is valid and the memory the query chooses is at the expected version; then that memory has exactly the values given, one version more, and the rest as it was, and no other row changes; otherwise nothing changes |
| MemoryStore.MemoryStore.Forget | plugins/memory/server.ts:578-622 | succeeds if and only if the input is valid, the memory the query chooses is at the expected version, and so is an active row whose id is the caller's string; then that row is deleted as of now, with one version more, the reason and thread given and the rest as it was, no query and no search finds it again, and its name is free unless another active memory has it; keeps the invariant if and only if it fails or these are the same memory; where no active name is another memory's id it always does, and forgetting by name always fails; never changes a forgotten row |
| MemoryStore.MemoryStore.Search | plugins/memory/server.ts:700-717 | at most the limit of the active memories in scope whose indexed text matches, each once, best ranked first; a match is missing only when the limit is reached and none that is returned ranks after it |
| MemoryStore.SortByRank | plugins/memory/server.ts:708-714 | the rows in the order of the query: by score, pinned first, by importance, the latest first |
| MemoryStore.AddKeepsInv | plugins/memory/server.ts:442-509 | a new memory has its history and its index row, and every other memory keeps its own |
| MemoryStore.ReviseKeepsInv | plugins/memory/server.ts:511-576 | so does writing a next version, with the index rewritten by the trigger or left alone where the indexed text is the same |
| MemoryStore.TouchKeepsInv | plugins/memory/server.ts:641-647 | so does counting an access |
| MemoryStore.IndexIsExact | plugins/memory/server.ts:872-887 | under the invariant the index has exactly one row for each memory, with its current name, summary, details and tags |
| MemoryStore.HistoryIsExact | plugins/memory/server.ts:734-755 | under the invariant the history has for each memory the versions from the first to the current one, each once and in that order, and the current one is what its row says |
| MemoryStore.ForgottenIsGone | plugins/memory/server.ts:602-616 | a deleted memory is the answer to no query and no search, and no reason to refuse another of its name |
| MemoryStore.NextVersionIsFree | plugins/memory/server.ts:859-869 | the uniqueness of version rows never refuses the next version |
| MemoryStore.ForgetKeepsInvExactlyWhen | plugins/memory/server.ts:602-619 | the writes of forget keep the invariant if and only if the memory found is the row selected |
| MemoryStore.ForgetCanTakeAnother | plugins/memory/server.ts:578-622 | a consistent store in which forget finds one memory and selects another's row |
| Catalog.RenderCatalog | plugins/memory/server.ts:777-813 | never more than 3900 characters; the longest prefix of the lines that fits with its own footer; the footer is absent exactly when everything is shown, and else tells in decimal how many of how many lines are |
| Catalog.FillPage | plugins/memory/server.ts:787-812 | the two loops find that prefix, for any header and footer |
| Catalog.HeaderFits | plugins/memory/server.ts:779-785 | the header and the largest possible footer always fit |
| Catalog.DigitsSpell | plugins/memory/server.ts:798-804 | a number is written in decimal digits without leading zeros |
| OrderEntries.Comparator.IsTotalPreorder | plugins/docs/app.tsx:1303-1320 | the comparator is a total preorder when the comparison of names is one |
| OrderEntries.SplitsAtTheLastSeparator | plugins/docs/app.tsx:1295-1320 | the name compared and the directory grouped by are what stands after and before the last separator |
| Sorting.SortSorts | plugins/docs/app.tsx:1302-1321 | sorting keeps the elements, orders them and leaves ties in their order, for any order that compares every two elements |
| OrderEntries.SiblingsOrder | plugins/docs/app.tsx:1303-1320 | among siblings directories come first, then files with a recorded position by position, then the other files, and the rest is by name |
| OrderEntries.GroupByParent | plugins/docs/app.tsx:1295-1301 | the map holds for each parent exactly its entries, in the order of the list |
| OrderEntries.VisitGroups | plugins/docs/app.tsx:1322-1329 | what the walk lists for a directory holds the children of every directory within it, whole and in sorted order, and nothing from elsewhere |
| OrderEntries.VisitIsPreOrder | plugins/docs/app.tsx:1322-1329 | it lists each directory right before its whole subtree, with nothing in between |
| OrderEntries.WholeTreeInOrder | plugins/docs/app.tsx:1288-1331 | the whole list: a permutation of the entries, in pre-order, every group of siblings sorted |
| OrderEntries.CompleteExactlyWhen | plugins/docs/app.tsx:1288-1331 | every entry is shown exactly once if and only if every parent is listed |
| OrderEntries.VisitInto | plugins/docs/app.tsx:1323-1328 | the recursive walk that appends to one list computes the specification |
| OrderEntries.OrderByPath | plugins/docs/app.tsx:1292-1294 | exactly the listed paths have a position, the last one where they stand |
| OrderEntries.OrderEntries | plugins/docs/app.tsx:1288-1331 | the function as a whole has all of these properties |
| QueryLogic.ParseQuery | plugins/github/app-logic.ts:81-117 | the loop over the tokens reads them one after the other, in order |
| QueryLogic.QualifierIsRead | plugins/github/app-logic.ts:92-115 | what each qualifier adds: the field for each name, in either case, the state for each state word, lower case for the others, nothing for an empty value, and free text for a name that is no qualifier |
| QueryLogic.TextIsRead | plugins/github/app-logic.ts:92-115 | a token without a qualifier adds its text, in lower case and without quotes |
| QueryLogic.UnquoteTakesQuotes | plugins/github/app-logic.ts:71-73 | taking the quotes out, piece by piece: none is left, and a piece without quotes stays as it is |
| QueryLogic.TokenIsLongestMatch | plugins/github/app-logic.ts:67-69 | a token is the longest piece at its position that consists of plain characters and closed quotes |
| QueryLogic.FirstMatchComesFirst | plugins/github/app-logic.ts:67-69 | the first place where the pattern matches anything gives the first token, and the search goes on behind it |
| QueryLogic.NoMatchNoToken | plugins/github/app-logic.ts:67-69 | a text in which it matches nowhere has no token |
| QueryLogic.PickTokenized | plugins/github/app-logic.ts:67-69 | the text a suggestion inserts is exactly one token, quoted white space included, whatever follows |
| QueryLogic.PicksAreReadBack | plugins/github/app-logic.ts:67-117 | the query spelled by any sequence of readable suggestions is read back as exactly their values, lower-cased or state-mapped, each under its own qualifier and in order, with no free text |
| QueryLogic.ReadBackExactlyWhen | plugins/github/app-logic.ts:181-183 | a value is read back if and only if it is not empty, has no double quote, and has white space only in a label |
| QueryLogic.SuggestionsAreReadable | plugins/github/app-logic.ts:185-251 | for a started qualifier the inserts are exactly those of the values there are for it that contain what was typed, and with clean names all of them are read back |
| QueryLogic.QualifiersAreSuggested | plugins/github/app-logic.ts:190-200 | before there is a qualifier, exactly the six qualifiers that begin like the token are suggested |
| MarkdownDocument.ParseMarkdownDocument | plugins/docs/markdown-document.ts:48-73 | the loop terminates and computes the specification; front matter and body together are the input |
| MarkdownDocument.CutAtFrontMatter | plugins/docs/markdown-document.ts:48-73 | after an optional byte order mark a first line ---, a later line that is the first to be --- or ..., and lines between them that parse: then the text is cut behind that line, and the title is that of the lines between |
| MarkdownDocument.UncutWithoutFrontMatter | plugins/docs/markdown-document.ts:48-73 | a text without such lines is all body, with no title |
| MarkdownDocument.ClosesAtFirstDelimiter | plugins/docs/markdown-document.ts:55-70 | the front matter closes at the first delimiter line, and stays open only if there is none |
| MarkdownDocument.BodyReplaced | plugins/docs/markdown-document.ts:48-73 | with a front matter that ends in a line feed, any new body is read back exactly, with the same front matter and title |
| MarkdownDocument.BodyReplacedExactlyWhen | plugins/docs/markdown-document.ts:48-73 | that holds for every new body if and only if the front matter ends in a line feed |
| MarkdownDocument.FollowedFrontMatterEndsInLineFeed | plugins/docs/markdown-document.ts:15-24 | a front matter that something follows ends in a line feed |

## Left out

Files and sync:

- SyncApply.Perform: under other editors it does not say where the tree ends, only which changes it made itself; others may undo any of them. Of what it reports as failed it does not say whether it was made, because the answer of a call can be lost, and the read after a write can fail.
- FileStore.Store.CompareAndRemove: takes the re-read and the removal as one step, because between the two calls of the source another editor's change would be removed.
- A call whose answer is lost takes effect before the next call or not at all, and is not repeated by the transport.
- FileStore.Store.Write: takes the last comparison and the rename of the host as one step, and makes the parents all or none; links, modes, size limits and roots are not modelled.
- FileStore.Store.Mkdir: makes the directory and its parents all or none, where a recursive mkdir that fails can leave some of them.
- FileStore.Store.ListPaths: symbolic links are not in a tree, and of the excluded names those that start with a dot count as such; the exclusion of `.claude/worktrees` is that of a dot.
- Workspaces.Workspace.ReadManifest: JSON, the schema, repeated identities and timestamps are not modelled; entries are a map, and the manifest is read and compared as one value.
- Snapshot.SyncSnapshot: the order of the listing is not modelled; files and directories are a map and a set.
- Content is identified with its hash; sizes, types, encodings and modification times are left out.
- The manifest file itself is not in a tree.
- Names are assumed to have no white space at either end of a path and no backslash. The source trims a path when it reads the file but not when it lists it, so "a.md " would be pulled with the content of "a.md".
- Case folding is that of ASCII.
- The order of the created directories, of the report lists of pull and push, and the texts of reasons, warnings and errors, beyond one name for each reason.
- The equality of two spellings of the same error ("not found"): a read finds a file, misses it or fails.
- readWorkspaceFile, resolveHostPath, host selection and the command line: input and output around the model.
- reorderFiles, createNote and createVault: single loops or searches for a free name.
- The autosave of the Docs panes, links, threads and previews.
- OrderEntries.OrderEntries: the comparison of names is any total preorder; the built-in sort is an insertion sort with the same contract, stable.
- MarkdownDocument.ParseMarkdownDocument: YAML is a function from the text between the delimiters to a refusal or an optional title.
- SimpleDiff.Diff: gives the hunk itself; its rendering with headers and signs is left out.

Searches:

- Isolation.PartitionTestFiles: the walk over directories, the regular expressions and the resolution of imports are inputs; the groups are sets, without their final order.
- BundleStats.ComputeBundleStats: byte counts, package names and the sorted lists of chunks are left out.
- sharedWorkerProjects: it only rearranges the partition.

Concurrent steps:

- InstallLock.LockIsSafe: assumes one host, that process ids are not reused while they are named in a lock file, and one clock that never runs backwards.
- The wait of 250 ms, the abort signal and errors of the lock are steps that may happen at any time.
- InstallJob.RuntimeHost.AttachRuntime: begins where no usable runtime is resolved yet; the runtime a job resolves to, the check of its binary, sessions and their limits are left out.
- KeepAwakeHost.Supervisor.HandleChildEnd: an 'error' event counts as the end of the child, as the source takes it.
- KeepAwakeReconciler.Reconciler.EndPass: the calls to the hosts are reduced to whether the pass asks for a retry; unsubscribing when the service ends is left out.
- Liveness: that a timer fires and a callback runs is left to the scheduler.

Memory and search:

- MemoryStore.MemoryStore.Update: validation of texts and tags is one input; the transaction is the method.
- MemoryStore.MemoryStore.Add: the id and the time are inputs, and a new id may clash, which fails as a name clash does.
- MemoryStore.MemoryStore.Search: the match and the score of the full-text index are any functions of an index row, and whether the query has terms is an input.
- The steps an invariant makes unreachable, such as a history row refused after its row was written, are not branches of the model.
- Catalog.RenderCatalog: takes the rendered lines; the format of a line and the query that orders them are left out.
- QueryLogic.ParseQuery: a state named like a property every object has, such as "constructor", is not modelled; letter case is that of ASCII.
- The regular expression engine: the scan for one token is written out, and proved to find the longest match.
- matchesQuery, parseSubPath and routeToSubPath: expressions without state.
- Icons, labels and hints of suggestions.
