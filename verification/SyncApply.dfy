// syncApply: a batch of compare-and-set writes and deletes against a vault that other
// editors may be changing at the same time.

module SyncApply {
  import opened Wrappers
  import opened Paths
  import opened FileStore
  import opened Sorting
  import opened TreeCheck
  import opened SyncRequest

  const MAX_TREE_ENTRIES := 5_000

  datatype Conflict = Conflict(path: Path, expected: Option<Hash>, current: Option<Hash>)
  datatype Outcome = Applied | Conflicted | Partial
  datatype Report = Report(
    outcome: Outcome,
    written: seq<Path>,
    deleted: seq<Path>,
    createdDirectories: seq<Path>,
    deletedDirectories: seq<Path>,
    conflicts: seq<Conflict>,
    errors: seq<Path>)

  function ElementsOf<T(==)>(s: seq<T>): set<T> {
    set x | x in s
  }

  method ListOf(paths: set<Path>) returns (s: seq<Path>)
    ensures ElementsOf(s) == paths && NoRepeats(s)
  {
    s := [];
    var rest := paths;
    while rest != {}
      invariant rest <= paths && ElementsOf(s) == paths - rest && NoRepeats(s)
    {
      var p :| p in rest;
      assert p !in ElementsOf(s);
      assert ElementsOf(s + [p]) == ElementsOf(s) + {p};
      s, rest := s + [p], rest - {p};
    }
  }

  predicate Conflicting(conflicts: seq<Conflict>, p: Path) {
    exists c | c in conflicts :: c.path == p
  }

  lemma ConflictingGrows(conflicts: seq<Conflict>, c: Conflict)
    ensures forall p :: Conflicting(conflicts + [c], p) <==> Conflicting(conflicts, p) || p == c.path
  {
    assert c in conflicts + [c];
  }

  ghost predicate ExactlyOne(a: bool, b: bool, c: bool) {
    (a && !b && !c) || (!a && b && !c) || (!a && !b && c)
  }

  // What has become of the writes, or of the deletes, so far.
  datatype Tally = Tally(done: seq<Path>, conflicts: seq<Conflict>, errors: seq<Path>) {
    predicate Clean() {
      conflicts == [] && errors == []
    }
  }

  datatype StepResult = Done | Refused(current: Option<Hash>) | Failed

  function Record(tally: Tally, p: Path, expected: Option<Hash>, result: StepResult): Tally {
    match result
    case Done => tally.(done := tally.done + [p])
    case Refused(current) => tally.(conflicts := tally.conflicts + [Conflict(p, expected, current)])
    case Failed => tally.(errors := tally.errors + [p])
  }

  lemma RecordedClean(tally: Tally, p: Path, expected: Option<Hash>, result: StepResult)
    ensures Record(tally, p, expected, result).Clean() == (tally.Clean() && result.Done?)
  {
  }

  // Each of these paths was done, met a conflict or failed, and never two of the three.
  ghost predicate Accounted(paths: set<Path>, tally: Tally) {
    && (forall p | p in paths :: ExactlyOne(p in tally.done, Conflicting(tally.conflicts, p), p in tally.errors))
    && (forall p | p in tally.done || p in tally.errors || Conflicting(tally.conflicts, p) :: p in paths)
  }

  lemma AccountForOne(paths: set<Path>, tally: Tally, p: Path, expected: Option<Hash>, result: StepResult)
    requires Accounted(paths, tally) && p !in paths
    ensures Accounted(paths + {p}, Record(tally, p, expected, result))
  {
    if result.Refused? {
      ConflictingGrows(tally.conflicts, Conflict(p, expected, result.current));
    }
  }

  // The hash each write and each delete expects to find.
  datatype Mutation = Mutation(path: Path, expected: Option<Hash>)

  function Mutations(req: Request): seq<Mutation> {
    seq(|req.writes|, i requires 0 <= i < |req.writes| => Mutation(req.writes[i].path, req.writes[i].expected)) +
    seq(|req.deletes|, i requires 0 <= i < |req.deletes| => Mutation(req.deletes[i].path, Some(req.deletes[i].expected)))
  }

  ghost predicate Fresh(req: Request, files: Files) {
    && (forall w | w in req.writes :: At(files, w.path) == w.expected)
    && (forall d | d in req.deletes :: At(files, d.path) == Some(d.expected))
  }

  // A change syncApply may make: a write or a delete of the request at the hash it
  // expects, or the removal of whatever file stands where a directory should be removed.
  ghost predicate Requested(req: Request, c: Change) {
    || (exists w | w in req.writes :: c == Change(w.path, w.expected, Some(w.content)))
    || (exists d | d in req.deletes :: c == Change(d.path, Some(d.expected), None))
    || (c.path in req.deleteDirectories && c.before.Some? && c.after == None)
  }

  ghost predicate LogGrows(before: seq<Change>, after: seq<Change>, req: Request) {
    before <= after && forall i | |before| <= i < |after| :: Requested(req, after[i])
  }

  // What the part of a log that is new says.

  ghost predicate Made(before: seq<Change>, after: seq<Change>, c: Change) {
    exists i | |before| <= i < |after| :: after[i] == c
  }

  ghost predicate Unmade(before: seq<Change>, after: seq<Change>, p: Path) {
    forall i | |before| <= i < |after| :: after[i].path != p
  }

  ghost predicate GrowsBy(before: seq<Change>, after: seq<Change>, changes: set<Change>) {
    before <= after && forall i | |before| <= i < |after| :: after[i] in changes
  }

  ghost predicate GrowsWithin(before: seq<Change>, after: seq<Change>, paths: set<Path>) {
    before <= after && forall i | |before| <= i < |after| :: after[i].path in paths
  }

  lemma MadeStays(before: seq<Change>, mid: seq<Change>, after: seq<Change>, c: Change)
    requires Made(before, mid, c) && mid <= after
    ensures Made(before, after, c)
  {
    var i :| |before| <= i < |mid| && mid[i] == c;
    assert after[i] == c;
  }

  lemma UnmadeStays(before: seq<Change>, mid: seq<Change>, after: seq<Change>, p: Path, paths: set<Path>)
    requires Unmade(before, mid, p) && GrowsWithin(mid, after, paths) && p !in paths
    ensures Unmade(before, after, p)
  {
    forall i | |before| <= i < |after| ensures after[i].path != p {
      if i < |mid| {
        assert after[i] == mid[i];
      }
    }
  }

  // A tally that tells the truth about these changes: what it calls done was made, and what
  // met a conflict was not and the conflict is real. What failed may have been made, and
  // only the answer lost.
  ghost predicate Truthful(changes: set<Change>, before: seq<Change>, after: seq<Change>, tally: Tally) {
    && (forall c | c in changes && c.path in tally.done :: Made(before, after, c))
    && (forall c | c in changes && Conflicting(tally.conflicts, c.path) :: Unmade(before, after, c.path))
    && (forall x | x in tally.conflicts :: x.current != x.expected && exists c | c in changes :: c.path == x.path && c.before == x.expected)
  }

  ghost function PathsOf(changes: set<Change>): set<Path> {
    set c | c in changes :: c.path
  }

  // All of it: the tally accounts for these changes, truthfully, and nothing else was made.
  ghost predicate Accounts(changes: set<Change>, before: seq<Change>, after: seq<Change>, tally: Tally) {
    && Accounted(PathsOf(changes), tally)
    && GrowsBy(before, after, changes)
    && Truthful(changes, before, after, tally)
  }

  lemma AccountsNext(changes: set<Change>, next: set<Change>, before: seq<Change>, mid: seq<Change>, after: seq<Change>, tally: Tally,
                     c: Change, result: StepResult)
    requires Accounts(changes, before, mid, tally) && next == changes + {c} && c.path !in PathsOf(changes)
    requires StepTaken(c, result, mid, after)
    ensures Accounts(next, before, after, Record(tally, c.path, c.before, result))
  {
    assert PathsOf(changes + {c}) == PathsOf(changes) + {c.path};
    StaysTruthful(changes, before, mid, after, tally, c, result);
    AccountForOne(PathsOf(changes), tally, c.path, c.before, result);
  }

  // What one step on a change leaves in the log.
  ghost predicate StepTaken(c: Change, result: StepResult, before: seq<Change>, after: seq<Change>) {
    && (after == before || after == before + [c])
    && (result.Done? ==> after == before + [c])
    && (result.Refused? ==> after == before && result.current != c.before)
  }

  lemma StaysTruthful(changes: set<Change>, before: seq<Change>, mid: seq<Change>, after: seq<Change>, tally: Tally,
                      c: Change, result: StepResult)
    requires before <= mid && Truthful(changes, before, mid, tally) && GrowsBy(before, mid, changes)
    requires Accounted(PathsOf(changes), tally) && c.path !in PathsOf(changes)
    requires StepTaken(c, result, mid, after)
    ensures Truthful(changes + {c}, before, after, Record(tally, c.path, c.before, result))
  {
    var next := Record(tally, c.path, c.before, result);
    assert GrowsWithin(mid, after, {c.path});
    assert forall x | x in changes :: x.path in PathsOf(changes);
    if result.Refused? {
      ConflictingGrows(tally.conflicts, Conflict(c.path, c.before, result.current));
    }
    forall x | x in changes + {c}
      ensures x.path in next.done ==> Made(before, after, x)
      ensures Conflicting(next.conflicts, x.path) ==> Unmade(before, after, x.path)
    {
      if x in changes {
        assert x.path in PathsOf(changes);
        if x.path in tally.done {
          MadeStays(before, mid, after, x);
        }
        if Unmade(before, mid, x.path) {
          UnmadeStays(before, mid, after, x.path, {c.path});
        }
      } else if result.Done? {
        assert after[|mid|] == c;
      }
    }
    forall x | x in next.conflicts
      ensures x.current != x.expected && exists y | y in changes + {c} :: y.path == x.path && y.before == x.expected
    {
      if x in tally.conflicts {
        var y :| y in changes && y.path == x.path && y.before == x.expected;
        assert y in changes + {c};
      } else {
        assert c in changes + {c};
      }
    }
  }

  // A conflict is about a write or a delete of the request, whose hash was not found.
  ghost predicate Real(req: Request, c: Conflict) {
    c.current != c.expected && Mutation(c.path, c.expected) in Mutations(req)
  }

  // The outcome of the comparison made before anything is written.
  method Precheck(vault: Store, req: Request) returns (r: Result<seq<Conflict>>)
    requires vault.Valid()
    modifies vault`files, vault`dirs
    ensures vault.Valid()
    ensures r.Ok? ==> forall c | c in r.value :: Real(req, c)
    ensures !vault.shared ==> vault.files == old(vault.files) && vault.dirs == old(vault.dirs)
    ensures !vault.shared && r.Ok? ==>
              forall c :: c in r.value <==> exists m | m in Mutations(req) ::
                m.expected != At(vault.files, m.path) && c == Conflict(m.path, m.expected, At(vault.files, m.path))
    // On a healthy host it throws exactly where a path is a directory or lies beneath a file.
    ensures !vault.shared && !vault.faulty && (forall m | m in Mutations(req) :: CanHoldFile(vault.files, vault.dirs, m.path)) ==> r.Ok?
    ensures !vault.shared && r.Ok? ==> forall m | m in Mutations(req) :: CanHoldFile(vault.files, vault.dirs, m.path)
  {
    var mutations := Mutations(req);
    var conflicts: seq<Conflict> := [];
    for i := 0 to |mutations|
      invariant vault.Valid()
      invariant forall c | c in conflicts :: Real(req, c)
      invariant !vault.shared ==> vault.files == old(vault.files) && vault.dirs == old(vault.dirs)
      invariant !vault.shared ==>
                  forall c :: c in conflicts <==> exists j | 0 <= j < i ::
                    mutations[j].expected != At(vault.files, mutations[j].path) &&
                    c == Conflict(mutations[j].path, mutations[j].expected, At(vault.files, mutations[j].path))
      invariant !vault.shared ==> forall j | 0 <= j < i :: CanHoldFile(vault.files, vault.dirs, mutations[j].path)
    {
      vault.Disturb();
      var m := mutations[i];
      var read := vault.Read(m.path);
      if read.ReadFault? {
        return Err;
      }
      var current := if read.Found? then Some(read.hash) else None;
      if current != m.expected {
        conflicts := conflicts + [Conflict(m.path, m.expected, current)];
      }
    }
    r := Ok(conflicts);
  }

  lemma FreshMutations(req: Request, files: Files)
    ensures Fresh(req, files) <==> forall m | m in Mutations(req) :: At(files, m.path) == m.expected
  {
    var ms := Mutations(req);
    forall i | 0 <= i < |req.writes| ensures ms[i] == Mutation(req.writes[i].path, req.writes[i].expected) && ms[i] in ms {
    }
    forall i | 0 <= i < |req.deletes|
      ensures ms[|req.writes| + i] == Mutation(req.deletes[i].path, Some(req.deletes[i].expected)) && ms[|req.writes| + i] in ms
    {
    }
    if forall m | m in ms :: At(files, m.path) == m.expected {
      forall w | w in req.writes ensures At(files, w.path) == w.expected {
        var i :| 0 <= i < |req.writes| && req.writes[i] == w;
      }
      forall d | d in req.deletes ensures At(files, d.path) == Some(d.expected) {
        var i :| 0 <= i < |req.deletes| && req.deletes[i] == d;
      }
    }
  }

  // made are the directories the tree gains: those created, and some whose answer was lost.
  method CreateDirectories(vault: Store, directories: seq<Path>, existing: set<Path>)
    returns (created: seq<Path>, errors: seq<Path>, ghost made: set<Path>)
    requires vault.Valid() && NoRepeats(directories)
    modifies vault`files, vault`dirs
    ensures vault.Valid()
    ensures forall d | d in directories :: ExactlyOne(d in existing, d in created, d in errors)
    ensures forall d | d in created || d in errors :: d in directories
    ensures ElementsOf(created) <= made <= ElementsOf(created) + ElementsOf(errors)
    ensures !vault.faulty ==> made == ElementsOf(created)
    ensures !vault.shared ==> vault.files == old(vault.files) && vault.dirs == old(vault.dirs) + made + ParentsOf(made)
    ensures !vault.shared && errors == [] ==> forall d | d in directories && d !in existing :: CanHoldDirectory(old(vault.files), d)
    ensures !vault.shared && !vault.faulty && (forall d | d in directories :: CanHoldDirectory(old(vault.files), d)) ==> errors == []
  {
    created, errors, made := [], [], {};
    ghost var files0, dirs0 := vault.files, vault.dirs;
    for i := 0 to |directories|
      invariant vault.Valid()
      invariant DirectoriesTallied(directories[..i], existing, created, errors, made, vault.faulty)
      invariant !vault.shared ==>
                  Creating(directories, i, existing, files0, dirs0, vault.files, vault.dirs, made, errors == [], vault.faulty)
    {
      assert directories[..i + 1] == directories[..i] + [directories[i]] && directories[i] !in directories[..i];
      created, errors, made := CreateNext(vault, directories, i, existing, created, errors, made, files0, dirs0);
    }
    assert directories[..|directories|] == directories;
  }

  method CreateNext(vault: Store, directories: seq<Path>, i: nat, existing: set<Path>, created: seq<Path>, errors: seq<Path>,
                    ghost made: set<Path>, ghost files0: Files, ghost dirs0: set<Path>)
    returns (created': seq<Path>, errors': seq<Path>, ghost made': set<Path>)
    requires vault.Valid() && i < |directories| && directories[i] !in directories[..i]
    requires DirectoriesTallied(directories[..i], existing, created, errors, made, vault.faulty)
    requires !vault.shared ==> Creating(directories, i, existing, files0, dirs0, vault.files, vault.dirs, made, errors == [], vault.faulty)
    modifies vault`files, vault`dirs
    ensures vault.Valid()
    ensures DirectoriesTallied(directories[..i] + [directories[i]], existing, created', errors', made', vault.faulty)
    ensures !vault.shared ==>
              Creating(directories, i + 1, existing, files0, dirs0, vault.files, vault.dirs, made', errors' == [], vault.faulty)
  {
    created', errors', made' := created, errors, made;
    var d := directories[i];
    if d in existing {
      return;
    }
    var ok;
    ghost var took;
    ok, took := CreateDirectory(vault, d);
    ParentsOfMore(made, d);
    DirectoryTallied(directories[..i], existing, created, errors, made, vault.faulty, d, ok, took);
    made' := if took then made + {d} else made;
    if ok {
      created' := created + [d];
    } else {
      errors' := errors + [d];
    }
  }

  // Each of these directories existed, was created or failed.
  ghost predicate DirectoriesTallied(directories: seq<Path>, existing: set<Path>, created: seq<Path>, errors: seq<Path>, made: set<Path>, faulty: bool) {
    && (forall d | d in directories :: ExactlyOne(d in existing, d in created, d in errors))
    && (forall d | d in created || d in errors :: d in directories)
    && ElementsOf(created) <= made <= ElementsOf(created) + ElementsOf(errors)
    && (!faulty ==> made == ElementsOf(created))
  }

  lemma DirectoryTallied(directories: seq<Path>, existing: set<Path>, created: seq<Path>, errors: seq<Path>, made: set<Path>, faulty: bool,
                         d: Path, ok: bool, took: bool)
    requires DirectoriesTallied(directories, existing, created, errors, made, faulty) && d !in directories && d !in existing
    requires (ok ==> took) && (took && !faulty ==> ok)
    ensures DirectoriesTallied(directories + [d], existing, if ok then created + [d] else created, if ok then errors else errors + [d],
                               if took then made + {d} else made, faulty)
  {
    ElementsOfMore(created, d);
    ElementsOfMore(errors, d);
  }

  // The tree once the first i directories have had their turn.
  ghost predicate Creating(directories: seq<Path>, i: nat, existing: set<Path>, files0: Files, dirs0: set<Path>, files: Files, dirs: set<Path>,
                           made: set<Path>, clean: bool, faulty: bool)
    requires i <= |directories|
  {
    && files == files0 && dirs == dirs0 + made + ParentsOf(made)
    && (clean ==> forall j | 0 <= j < i && directories[j] !in existing :: CanHoldDirectory(files0, directories[j]))
    && (!faulty && (forall d | d in directories :: CanHoldDirectory(files0, d)) ==> clean)
  }

  lemma ParentsOfMore(paths: set<Path>, p: Path)
    ensures ParentsOf(paths + {p}) == ParentsOf(paths) + Ancestors(p)
  {
  }

  // took says whether the directory was made, whatever was answered.
  method CreateDirectory(vault: Store, d: Path) returns (ok: bool, ghost took: bool)
    requires vault.Valid()
    modifies vault`files, vault`dirs
    ensures vault.Valid() && (ok ==> took) && (took && !vault.faulty ==> ok)
    ensures !vault.shared ==>
              vault.files == old(vault.files) && vault.dirs == if took then old(vault.dirs) + Ancestors(d) + {d} else old(vault.dirs)
    ensures !vault.shared && ok ==> CanHoldDirectory(old(vault.files), d)
    ensures !vault.shared && !vault.faulty && CanHoldDirectory(old(vault.files), d) ==> ok
  {
    vault.Disturb();
    ghost var dirs1 := vault.dirs;
    ok := vault.Mkdir(d);
    took := ok || (vault.faulty && vault.dirs != dirs1);
  }

  // Every write fits the tree: it expects what is there, nothing obstructs it, and no
  // write lies beneath another.
  ghost predicate WritesFit(writes: seq<WriteRequest>, files: Files, dirs: set<Path>) {
    && (forall w | w in writes :: At(files, w.path) == w.expected && CanHoldFile(files, dirs, w.path))
    && (forall v, w | v in writes && w in writes :: !Under(v.path, w.path))
  }

  ghost function FirstPaths(writes: seq<WriteRequest>, n: nat): set<Path>
    requires n <= |writes|
  {
    if n == 0 then {} else FirstPaths(writes, n - 1) + {writes[n - 1].path}
  }

  ghost predicate WritesDiffer(writes: seq<WriteRequest>) {
    forall i, j | 0 <= i < j < |writes| :: writes[i].path != writes[j].path
  }

  function ChangeOf(w: WriteRequest): Change {
    Change(w.path, w.expected, Some(w.content))
  }

  // One guarded write, with the read that reports the new metadata.
  method ApplyWrite(vault: Store, w: WriteRequest) returns (r: StepResult)
    requires vault.Valid()
    modifies vault
    ensures vault.Valid()
    ensures StepTaken(ChangeOf(w), r, old(vault.log), vault.log)
    ensures !vault.shared ==> WriteTaken(w, r, vault.faulty, old(vault.files), old(vault.dirs), vault.files, vault.dirs)
  {
    vault.Disturb();
    var result := vault.Write(w.path, w.content, w.expected);
    match result {
      case WriteFault =>
        r := Failed;
      case Stale(current) =>
        r := Refused(current);
      case Written =>
        vault.Disturb();
        var refreshed := vault.Read(w.path);
        r := if refreshed.Found? then Done else Failed;
    }
  }

  // The tree after the first n writes were all made, and nothing else.
  ghost function FilesWritten(writes: seq<WriteRequest>, n: nat, files: Files): Files
    requires n <= |writes|
  {
    if n == 0 then files else FilesWritten(writes, n - 1, files)[writes[n - 1].path := writes[n - 1].content]
  }

  ghost function DirsWritten(writes: seq<WriteRequest>, n: nat, dirs: set<Path>): set<Path>
    requires n <= |writes|
  {
    if n == 0 then dirs else DirsWritten(writes, n - 1, dirs) + Ancestors(writes[n - 1].path)
  }

  lemma {:induction false} WrittenTree(writes: seq<WriteRequest>, n: nat, files: Files, dirs: set<Path>)
    requires n <= |writes| && WritesDiffer(writes)
    ensures forall j | 0 <= j < n :: At(FilesWritten(writes, n, files), writes[j].path) == Some(writes[j].content)
    ensures forall p | p !in FirstPaths(writes, n) :: At(FilesWritten(writes, n, files), p) == At(files, p)
    ensures DirsWritten(writes, n, dirs) == dirs + ParentsOf(FirstPaths(writes, n))
  {
    if n > 0 {
      WrittenTree(writes, n - 1, files, dirs);
      NextPathIsNew(writes, n - 1);
    }
  }

  // A write meets what it expects, and nothing is in its way.
  ghost predicate FitsAt(w: WriteRequest, files: Files, dirs: set<Path>) {
    At(files, w.path) == w.expected && CanHoldFile(files, dirs, w.path)
  }

  // While everything succeeds the tree is exactly the first n writes ahead and each of
  // them fitted the tree at the start; and on a healthy host writes that fit always succeed.
  ghost predicate OnCourse(writes: seq<WriteRequest>, n: nat, files0: Files, dirs0: set<Path>, files: Files, dirs: set<Path>,
                           clean: bool, faulty: bool)
    requires n <= |writes|
  {
    && (clean ==>
          && files == FilesWritten(writes, n, files0) && dirs == DirsWritten(writes, n, dirs0)
          && forall j | 0 <= j < n :: FitsAt(writes[j], files0, dirs0))
    && (!faulty && WritesFit(writes, files0, dirs0) ==> clean)
  }

  // The tree around one write, when nobody else is editing.
  ghost predicate WriteTaken(w: WriteRequest, result: StepResult, faulty: bool, files: Files, dirs: set<Path>, files': Files, dirs': set<Path>) {
    && (result.Done? ==> FitsAt(w, files, dirs) && files' == files[w.path := w.content] && dirs' == dirs + Ancestors(w.path))
    && (!faulty && FitsAt(w, files, dirs) ==> result.Done?)
    && Grown({w.path}, files.Keys, dirs, files'.Keys, dirs')
  }

  // Whatever became of the writes at these paths, nothing went, and nothing came but files
  // there and directories above.
  ghost predicate Grown(paths: set<Path>, files0: set<Path>, dirs0: set<Path>, files: set<Path>, dirs: set<Path>) {
    files0 <= files <= files0 + paths && dirs0 <= dirs <= dirs0 + ParentsOf(paths)
  }

  lemma GrownMore(paths: set<Path>, p: Path, files0: set<Path>, dirs0: set<Path>, files1: set<Path>, dirs1: set<Path>, files: set<Path>, dirs: set<Path>)
    requires Grown(paths, files0, dirs0, files1, dirs1) && Grown({p}, files1, dirs1, files, dirs)
    ensures Grown(paths + {p}, files0, dirs0, files, dirs)
  {
    ParentsOfMore(paths, p);
    ParentsOfMore({}, p);
    assert {} + {p} == {p};
  }

  lemma StaysOnCourse(writes: seq<WriteRequest>, i: nat, files0: Files, dirs0: set<Path>, files: Files, dirs: set<Path>,
                      files': Files, dirs': set<Path>, clean: bool, faulty: bool, result: StepResult)
    requires i < |writes| && WritesDiffer(writes)
    requires OnCourse(writes, i, files0, dirs0, files, dirs, clean, faulty)
    requires WriteTaken(writes[i], result, faulty, files, dirs, files', dirs')
    ensures OnCourse(writes, i + 1, files0, dirs0, files', dirs', clean && result.Done?, faulty)
  {
    if clean {
      FittedAtTheStart(writes, i, files0, dirs0);
      if WritesFit(writes, files0, dirs0) {
        NextWriteFits(writes, i, files0, dirs0);
      }
    }
  }

  // Earlier writes only add files and directories.
  lemma FittedAtTheStart(writes: seq<WriteRequest>, i: nat, files0: Files, dirs0: set<Path>)
    requires i < |writes| && WritesDiffer(writes)
    ensures FitsAt(writes[i], FilesWritten(writes, i, files0), DirsWritten(writes, i, dirs0)) ==> FitsAt(writes[i], files0, dirs0)
  {
    WrittenTree(writes, i, files0, dirs0);
    FirstPathsAre(writes, i);
    forall a | a in files0 ensures a in FilesWritten(writes, i, files0) {
      if a !in FirstPaths(writes, i) {
        assert At(FilesWritten(writes, i, files0), a) == At(files0, a);
      } else {
        var j :| 0 <= j < i && writes[j].path == a;
        assert At(FilesWritten(writes, i, files0), writes[j].path) == Some(writes[j].content);
      }
    }
    NextPathIsNew(writes, i);
    assert At(FilesWritten(writes, i, files0), writes[i].path) == At(files0, writes[i].path);
  }

  ghost function FirstChanges(writes: seq<WriteRequest>, n: nat): set<Change>
    requires n <= |writes|
  {
    set j | 0 <= j < n :: ChangeOf(writes[j])
  }

  ghost function WriteChanges(req: Request): set<Change> {
    set w | w in req.writes :: ChangeOf(w)
  }

  // How far the writes have come: the first i of them are accounted for, and with no other
  // editor the tree is on course.
  ghost predicate Underway(req: Request, i: nat, log0: seq<Change>, files0: Files, dirs0: set<Path>,
                           log: seq<Change>, files: Files, dirs: set<Path>, tally: Tally, shared: bool, faulty: bool)
    requires i <= |req.writes|
  {
    && Accounts(FirstChanges(req.writes, i), log0, log, tally)
    && (!shared ==> OnCourse(req.writes, i, files0, dirs0, files, dirs, tally.Clean(), faulty))
    && (!shared ==> Grown(FirstPaths(req.writes, i), files0.Keys, dirs0, files.Keys, dirs))
  }

  method ApplyNextWrite(vault: Store, req: Request, i: nat, tally: Tally, ghost log0: seq<Change>, ghost files0: Files, ghost dirs0: set<Path>)
    returns (next: Tally)
    requires vault.Valid() && WritesDiffer(req.writes) && i < |req.writes|
    requires Underway(req, i, log0, files0, dirs0, vault.log, vault.files, vault.dirs, tally, vault.shared, vault.faulty)
    modifies vault
    ensures vault.Valid()
    ensures Underway(req, i + 1, log0, files0, dirs0, vault.log, vault.files, vault.dirs, next, vault.shared, vault.faulty)
  {
    var w := req.writes[i];
    ghost var log1, files1, dirs1 := vault.log, vault.files, vault.dirs;
    var result := ApplyWrite(vault, w);
    next := Record(tally, w.path, w.expected, result);
    NextWriteAccounted(req.writes, i, log0, log1, vault.log, tally, result);
    RecordedClean(tally, w.path, w.expected, result);
    if !vault.shared {
      StaysOnCourse(req.writes, i, files0, dirs0, files1, dirs1, vault.files, vault.dirs, tally.Clean(), vault.faulty, result);
      GrownMore(FirstPaths(req.writes, i), w.path, files0.Keys, dirs0, files1.Keys, dirs1, vault.files.Keys, vault.dirs);
    }
  }

  method ApplyWrites(vault: Store, req: Request) returns (tally: Tally)
    requires vault.Valid() && WritesDiffer(req.writes)
    modifies vault
    ensures vault.Valid()
    ensures Accounts(WriteChanges(req), old(vault.log), vault.log, tally)
    ensures !vault.shared ==>
              && OnCourse(req.writes, |req.writes|, old(vault.files), old(vault.dirs), vault.files, vault.dirs, tally.Clean(), vault.faulty)
              && Grown(WritePaths(req), old(vault.files).Keys, old(vault.dirs), vault.files.Keys, vault.dirs)
  {
    tally := Tally([], [], []);
    ghost var log0, files0, dirs0 := vault.log, vault.files, vault.dirs;
    for i := 0 to |req.writes|
      invariant vault.Valid()
      invariant Underway(req, i, log0, files0, dirs0, vault.log, vault.files, vault.dirs, tally, vault.shared, vault.faulty)
    {
      tally := ApplyNextWrite(vault, req, i, tally, log0, files0, dirs0);
    }
    AllUnderway(req, log0, files0, dirs0, vault.log, vault.files, vault.dirs, tally, vault.shared, vault.faulty);
  }

  lemma AllUnderway(req: Request, log0: seq<Change>, files0: Files, dirs0: set<Path>,
                    log: seq<Change>, files: Files, dirs: set<Path>, tally: Tally, shared: bool, faulty: bool)
    requires Underway(req, |req.writes|, log0, files0, dirs0, log, files, dirs, tally, shared, faulty)
    ensures Accounts(WriteChanges(req), log0, log, tally)
    ensures !shared ==>
              && OnCourse(req.writes, |req.writes|, files0, dirs0, files, dirs, tally.Clean(), faulty)
              && Grown(WritePaths(req), files0.Keys, dirs0, files.Keys, dirs)
  {
    AllWriteChanges(req);
    FirstPathsAre(req.writes, |req.writes|);
    assert FirstPaths(req.writes, |req.writes|) == WritePaths(req);
  }

  lemma NextWriteAccounted(writes: seq<WriteRequest>, i: nat, before: seq<Change>, mid: seq<Change>, after: seq<Change>, tally: Tally,
                           result: StepResult)
    requires i < |writes| && WritesDiffer(writes)
    requires Accounts(FirstChanges(writes, i), before, mid, tally) && StepTaken(ChangeOf(writes[i]), result, mid, after)
    ensures Accounts(FirstChanges(writes, i + 1), before, after, Record(tally, writes[i].path, writes[i].expected, result))
  {
    AccountsNext(FirstChanges(writes, i), FirstChanges(writes, i + 1), before, mid, after, tally, ChangeOf(writes[i]), result);
  }

  lemma AllWriteChanges(req: Request)
    ensures FirstChanges(req.writes, |req.writes|) == WriteChanges(req)
    ensures PathsOf(WriteChanges(req)) == WritePaths(req)
    ensures forall c | c in WriteChanges(req) :: Requested(req, c) && c.path in WritePaths(req)
  {
    forall w | w in req.writes ensures ChangeOf(w) in FirstChanges(req.writes, |req.writes|) && w.path in PathsOf(WriteChanges(req)) {
      var j :| 0 <= j < |req.writes| && req.writes[j] == w;
      assert ChangeOf(w) in WriteChanges(req);
    }
  }

  lemma {:induction false} FirstPathsAre(writes: seq<WriteRequest>, n: nat)
    requires n <= |writes|
    ensures forall p :: p in FirstPaths(writes, n) <==> exists j | 0 <= j < n :: writes[j].path == p
  {
    if n > 0 {
      FirstPathsAre(writes, n - 1);
    }
  }

  lemma NextPathIsNew(writes: seq<WriteRequest>, i: nat)
    requires i < |writes| && WritesDiffer(writes)
    ensures writes[i].path !in FirstPaths(writes, i)
  {
    FirstPathsAre(writes, i);
  }

  lemma NextWriteFits(writes: seq<WriteRequest>, i: nat, files0: Files, dirs0: set<Path>)
    requires i < |writes| && WritesDiffer(writes) && WritesFit(writes, files0, dirs0)
    ensures At(FilesWritten(writes, i, files0), writes[i].path) == writes[i].expected
    ensures CanHoldFile(FilesWritten(writes, i, files0), DirsWritten(writes, i, dirs0), writes[i].path)
  {
    var p := writes[i].path;
    WrittenTree(writes, i, files0, dirs0);
    FirstPathsAre(writes, i);
    forall q | q in FirstPaths(writes, i) ensures p !in Ancestors(q) {
      AncestorsAreAbove(p, q);
    }
    forall a | a in Ancestors(p) ensures a !in FilesWritten(writes, i, files0) {
      AncestorsAreAbove(a, p);
      assert At(FilesWritten(writes, i, files0), a) == At(files0, a);
    }
  }

  function RemovalOf(d: DeleteRequest): Change {
    Change(d.path, Some(d.expected), None)
  }

  ghost function FirstRemovals(deletes: seq<DeleteRequest>, n: nat): set<Change>
    requires n <= |deletes|
  {
    set j | 0 <= j < n :: RemovalOf(deletes[j])
  }

  ghost function DeleteChanges(req: Request): set<Change> {
    set d | d in req.deletes :: RemovalOf(d)
  }

  ghost predicate DeletesFresh(req: Request, files: Files) {
    forall d | d in req.deletes :: At(files, d.path) == Some(d.expected)
  }

  // One guarded delete.
  method ApplyDelete(vault: Store, d: DeleteRequest) returns (r: StepResult)
    requires vault.Valid()
    modifies vault
    ensures vault.Valid()
    ensures StepTaken(RemovalOf(d), r, old(vault.log), vault.log)
    ensures !vault.shared ==>
              && vault.dirs == old(vault.dirs)
              && vault.files == if vault.log == old(vault.log) then old(vault.files) else old(vault.files) - {d.path}
    ensures !vault.shared && !vault.faulty && At(old(vault.files), d.path) == Some(d.expected) ==> r.Done?
  {
    vault.Disturb();
    var result := vault.CompareAndRemove(d.path, d.expected);
    match result {
      case Removed =>
        r := Done;
      case Mismatch(current) =>
        r := Refused(current);
      case _ =>
        r := Failed;
    }
  }

  method ApplyDeletes(vault: Store, req: Request) returns (tally: Tally)
    requires vault.Valid()
    requires forall i, j | 0 <= i < j < |req.deletes| :: req.deletes[i].path != req.deletes[j].path
    modifies vault
    ensures vault.Valid()
    ensures Accounts(DeleteChanges(req), old(vault.log), vault.log, tally)
    ensures !vault.shared ==> vault.dirs == old(vault.dirs) && WithoutMade(old(vault.log), vault.log, old(vault.files), vault.files)
    ensures !vault.shared && !vault.faulty && DeletesFresh(req, old(vault.files)) ==> tally.Clean()
  {
    tally := Tally([], [], []);
    ghost var log0, changes := vault.log, {};
    for i := 0 to |req.deletes|
      invariant vault.Valid()
      invariant changes == FirstRemovals(req.deletes, i) && Accounts(changes, log0, vault.log, tally)
      invariant !vault.shared ==> vault.dirs == old(vault.dirs) && WithoutMade(log0, vault.log, old(vault.files), vault.files)
      invariant !vault.shared && !vault.faulty && DeletesFresh(req, old(vault.files)) ==> tally.Clean()
    {
      var d := req.deletes[i];
      ghost var log1, files1, tally1 := vault.log, vault.files, tally;
      if !vault.shared {
        NotYetDeleted(req, i, log0, log1, old(vault.files), files1, tally1);
      }
      var result := ApplyDelete(vault, d);
      tally := Record(tally, d.path, Some(d.expected), result);
      NextDeleteAccounted(req.deletes, i, log0, log1, vault.log, tally1, result);
      if !vault.shared {
        WithoutMadeNext(log0, log1, vault.log, old(vault.files), files1, vault.files, RemovalOf(d));
      }
      changes := FirstRemovals(req.deletes, i + 1);
    }
    AllDeleteChanges(req);
  }

  // The files are those at the start, less the ones a change was made to.
  ghost predicate WithoutMade(before: seq<Change>, after: seq<Change>, files0: Files, files: Files) {
    forall p :: At(files, p) == if Unmade(before, after, p) then At(files0, p) else None
  }

  lemma WithoutMadeNext(before: seq<Change>, mid: seq<Change>, after: seq<Change>, files0: Files, files: Files, files': Files, c: Change)
    requires before <= mid && WithoutMade(before, mid, files0, files) && (after == mid || after == mid + [c])
    requires files' == if after == mid then files else files - {c.path}
    ensures WithoutMade(before, after, files0, files')
  {
    if after != mid {
      assert after[|mid|] == c;
      forall p ensures Unmade(before, after, p) <==> Unmade(before, mid, p) && p != c.path {
        if Unmade(before, after, p) {
          assert after[|mid|].path != p;
          forall i | |before| <= i < |mid| ensures mid[i].path != p {
            assert after[i] == mid[i];
          }
        }
      }
    }
  }

  lemma NotYetDeleted(req: Request, i: nat, before: seq<Change>, mid: seq<Change>, files0: Files, files: Files, tally: Tally)
    requires i < |req.deletes| && forall j, k | 0 <= j < k < |req.deletes| :: req.deletes[j].path != req.deletes[k].path
    requires Accounts(FirstRemovals(req.deletes, i), before, mid, tally) && WithoutMade(before, mid, files0, files)
    ensures At(files, req.deletes[i].path) == At(files0, req.deletes[i].path)
  {
    assert Unmade(before, mid, req.deletes[i].path);
  }

  // Whichever of them were made, no other file is gone.
  lemma OnlyDeletesGo(req: Request, before: seq<Change>, after: seq<Change>, files0: Files, files: Files, tally: Tally)
    requires Accounts(DeleteChanges(req), before, after, tally) && WithoutMade(before, after, files0, files)
    ensures files0.Keys - DeletePaths(req) <= files.Keys <= files0.Keys
  {
    AllDeleteChanges(req);
    forall p ensures p in files ==> p in files0 {
      assert At(files, p) == if Unmade(before, after, p) then At(files0, p) else None;
    }
    forall p | p in files0 && p !in DeletePaths(req) ensures p in files {
      assert Unmade(before, after, p);
    }
  }

  // When all of them were made, exactly these files are gone.
  lemma AllDeleted(req: Request, before: seq<Change>, after: seq<Change>, files0: Files, files: Files, tally: Tally)
    requires Accounts(DeleteChanges(req), before, after, tally) && tally.Clean() && WithoutMade(before, after, files0, files)
    ensures files == files0 - DeletePaths(req)
  {
    AllDeleteChanges(req);
    forall p ensures Unmade(before, after, p) <==> p !in DeletePaths(req) {
      if p in DeletePaths(req) {
        var d :| d in req.deletes && d.path == p;
        assert RemovalOf(d) in DeleteChanges(req) && Made(before, after, RemovalOf(d));
      }
    }
    assert forall p :: At(files, p) == At(files0 - DeletePaths(req), p);
    SameFiles(files, files0 - DeletePaths(req));
  }

  lemma SameFiles(files: Files, files': Files)
    requires forall p :: At(files, p) == At(files', p)
    ensures files == files'
  {
    assert forall p :: p in files <==> At(files, p).Some?;
    assert forall p :: p in files' <==> At(files', p).Some?;
    assert forall p | p in files :: files[p] == At(files, p).value == At(files', p).value == files'[p];
  }

  lemma NextDeleteAccounted(deletes: seq<DeleteRequest>, i: nat, before: seq<Change>, mid: seq<Change>, after: seq<Change>, tally: Tally,
                            result: StepResult)
    requires i < |deletes| && forall j, k | 0 <= j < k < |deletes| :: deletes[j].path != deletes[k].path
    requires Accounts(FirstRemovals(deletes, i), before, mid, tally) && StepTaken(RemovalOf(deletes[i]), result, mid, after)
    ensures Accounts(FirstRemovals(deletes, i + 1), before, after, Record(tally, deletes[i].path, Some(deletes[i].expected), result))
  {
    AccountsNext(FirstRemovals(deletes, i), FirstRemovals(deletes, i + 1), before, mid, after, tally, RemovalOf(deletes[i]), result);
  }

  lemma AllDeleteChanges(req: Request)
    ensures FirstRemovals(req.deletes, |req.deletes|) == DeleteChanges(req)
    ensures PathsOf(DeleteChanges(req)) == DeletePaths(req)
    ensures forall c | c in DeleteChanges(req) :: Requested(req, c) && c.path in DeletePaths(req)
  {
    forall d | d in req.deletes ensures RemovalOf(d) in FirstRemovals(req.deletes, |req.deletes|) && d.path in PathsOf(DeleteChanges(req)) {
      var j :| 0 <= j < |req.deletes| && req.deletes[j] == d;
      assert RemovalOf(d) in DeleteChanges(req);
    }
  }

  ghost predicate DeepestFirst(s: seq<Path>) {
    forall i, j | 0 <= i < j < |s| :: Depth(s[i]) >= Depth(s[j])
  }

  function SortDeepestFirst(directories: seq<Path>): (sorted: seq<Path>)
    ensures DeepestFirst(sorted)
    ensures multiset(sorted) == multiset(directories)
  {
    var leq := (a: Path, b: Path) => Depth(a) >= Depth(b);
    SortSorts(leq, directories, "");
    Sort(leq, directories)
  }

  // Whatever lies beneath one of these directories is itself one of them.
  ghost predicate OnlyEachOther(directories: set<Path>, files: Files, dirs: set<Path>) {
    forall d, p | d in directories && p in files.Keys + dirs && Under(d, p) :: p in directories
  }

  // These directories can all be removed: only the others lie beneath one of them, and no
  // file stands above one.
  ghost predicate Removable(directories: set<Path>, files: Files, dirs: set<Path>) {
    OnlyEachOther(directories, files, dirs) && forall d | d in directories :: NoFileAbove(files, d)
  }

  // Nothing was done but to remove files that stand at these paths.
  ghost predicate TakesAway(before: seq<Change>, after: seq<Change>, paths: set<Path>) {
    before <= after && forall i | |before| <= i < |after| :: after[i].path in paths && after[i].before.Some? && after[i].after.None?
  }

  // A removal that says no more than that d is a directory to remove.
  method RemoveDirectory(tree: Store, d: Path) returns (r: RemoveResult)
    requires tree.Valid()
    modifies tree
    ensures tree.Valid() && !r.Mismatch?
    ensures TakesAway(old(tree.log), tree.log, {d}) && (r.NotThere? || (r.RemoveFault? && !tree.faulty) ==> tree.log == old(tree.log))
    ensures !tree.shared && !r.RemoveFault? ==>
              && tree.files == old(tree.files) - {d} && tree.dirs == old(tree.dirs) - {d}
              && CanGo(d, old(tree.files), old(tree.dirs))
    ensures !tree.shared && !tree.faulty ==> (r.RemoveFault? <==> !CanGo(d, old(tree.files), old(tree.dirs)))
    ensures !tree.shared ==> RemovedAlone(d, r, old(tree.files).Keys, old(tree.dirs), tree.files.Keys, tree.dirs)
  {
    tree.Disturb();
    r := tree.Remove(d);
  }

  // No file stands above d, and if d is a directory it is empty.
  ghost predicate CanGo(d: Path, files: Files, dirs: set<Path>) {
    NoFileAbove(files, d) && (d in dirs ==> IsEmptyDirectory(files, dirs, d))
  }

  // What the removals report about the directories that have had their turn: what was
  // removed stood there and is gone, and whatever stood there was removed or failed. Nothing
  // else went.
  ghost predicate RemovalsTold(had: set<Path>, files0: set<Path>, dirs0: set<Path>, files: set<Path>, dirs: set<Path>,
                               removed: seq<Path>, errors: seq<Path>) {
    && files0 - had <= files <= files0 && dirs0 - had <= dirs <= dirs0
    && (forall d | d in removed :: d in files0 + dirs0 && d !in files + dirs)
    && (forall d | d in had && d in files0 + dirs0 :: d in removed || d in errors)
  }

  lemma RemovalTold(had: set<Path>, files0: set<Path>, dirs0: set<Path>, files1: set<Path>, dirs1: set<Path>, files: set<Path>, dirs: set<Path>,
                    removed: seq<Path>, errors: seq<Path>, d: Path, r: RemoveResult)
    requires RemovalsTold(had, files0, dirs0, files1, dirs1, removed, errors)
    requires RemovedAlone(d, r, files1, dirs1, files, dirs)
    ensures RemovalsTold(had + {d}, files0, dirs0, files, dirs, if r.Removed? then removed + [d] else removed,
                         if r.RemoveFault? then errors + [d] else errors)
  {
  }

  // One removal: it takes nothing but d, and when it says so d was there and is gone.
  ghost predicate RemovedAlone(d: Path, r: RemoveResult, files0: set<Path>, dirs0: set<Path>, files: set<Path>, dirs: set<Path>) {
    && files0 - {d} <= files <= files0 && dirs0 - {d} <= dirs <= dirs0 && !r.Mismatch?
    && (r.Removed? ==> d in files0 + dirs0 && d !in files + dirs)
    && (r.NotThere? ==> d !in files0 + dirs0)
  }

  // When none fails, each directory was empty at its turn, so nothing but the others lay
  // beneath it.
  method RemoveDirectories(vault: Store, req: Request) returns (removed: seq<Path>, errors: seq<Path>)
    requires vault.Valid() && NoRepeats(req.deleteDirectories)
    modifies vault
    ensures vault.Valid()
    ensures TakesAway(old(vault.log), vault.log, ElementsOf(removed) + ElementsOf(errors))
    ensures ElementsOf(removed) + ElementsOf(errors) <= OldDirs(req)
    ensures !vault.shared && errors == [] ==>
              && vault.files == old(vault.files) - OldDirs(req) && vault.dirs == old(vault.dirs) - OldDirs(req)
              && Removable(OldDirs(req), old(vault.files), old(vault.dirs))
    ensures !vault.shared && !vault.faulty && Removable(OldDirs(req), old(vault.files), old(vault.dirs)) ==> errors == []
    ensures !vault.shared ==> RemovalsTold(OldDirs(req), old(vault.files).Keys, old(vault.dirs), vault.files.Keys, vault.dirs, removed, errors)
  {
    removed, errors := [], [];
    var sorted := SortDeepestFirst(req.deleteDirectories);
    SortedElements(sorted, req.deleteDirectories);
    ghost var files0, dirs0, log0 := vault.files, vault.dirs, vault.log;
    for i := 0 to |sorted|
      invariant vault.Valid()
      invariant RemovalsUnderway(sorted, i, log0, files0, dirs0, vault.log, vault.files, vault.dirs, removed, errors, vault.shared, vault.faulty)
    {
      removed, errors := RemoveStep(vault, sorted, i, removed, errors, log0, files0, dirs0);
    }
    if !vault.shared {
      AllRemoved(sorted, files0, dirs0, vault.files, vault.dirs, errors == [], vault.faulty);
      assert sorted[..|sorted|] == sorted;
    }
  }

  // How far the removals have come.
  ghost predicate RemovalsUnderway(sorted: seq<Path>, i: nat, log0: seq<Change>, files0: Files, dirs0: set<Path>,
                                   log: seq<Change>, files: Files, dirs: set<Path>, removed: seq<Path>, errors: seq<Path>,
                                   shared: bool, faulty: bool)
    requires i <= |sorted|
  {
    && TakesAway(log0, log, ElementsOf(removed) + ElementsOf(errors))
    && ElementsOf(removed) + ElementsOf(errors) <= ElementsOf(sorted)
    && (!shared ==> Removing(sorted, i, files0, dirs0, files, dirs, errors == [], faulty))
    && (!shared ==> RemovalsTold(ElementsOf(sorted[..i]), files0.Keys, dirs0, files.Keys, dirs, removed, errors))
  }

  method RemoveStep(vault: Store, sorted: seq<Path>, i: nat, removed0: seq<Path>, errors0: seq<Path>,
                    ghost log0: seq<Change>, ghost files0: Files, ghost dirs0: set<Path>)
    returns (removed: seq<Path>, errors: seq<Path>)
    requires vault.Valid() && i < |sorted| && DeepestFirst(sorted)
    requires RemovalsUnderway(sorted, i, log0, files0, dirs0, vault.log, vault.files, vault.dirs, removed0, errors0, vault.shared, vault.faulty)
    modifies vault
    ensures vault.Valid()
    ensures RemovalsUnderway(sorted, i + 1, log0, files0, dirs0, vault.log, vault.files, vault.dirs, removed, errors, vault.shared, vault.faulty)
  {
    removed, errors := removed0, errors0;
    var d := sorted[i];
    assert d in ElementsOf(sorted);
    ghost var log1, files1, dirs1, gone := vault.log, vault.files, vault.dirs, ElementsOf(removed) + ElementsOf(errors);
    var result := RemoveNext(vault, sorted, i, errors == [], files0, dirs0);
    if !vault.shared {
      NextRemovalTold(sorted, i, files0.Keys, dirs0, files1.Keys, dirs1, vault.files.Keys, vault.dirs, removed, errors, result);
    }
    TakesAwayMore(log0, log1, vault.log, gone, d);
    ElementsOfMore(removed, d);
    ElementsOfMore(errors, d);
    if result.Removed? {
      removed := removed + [d];
      assert ElementsOf(removed) + ElementsOf(errors) == gone + {d};
    } else if result.RemoveFault? {
      errors := errors + [d];
      assert ElementsOf(removed) + ElementsOf(errors) == gone + {d};
    }
  }

  lemma NextRemovalTold(sorted: seq<Path>, i: nat, files0: set<Path>, dirs0: set<Path>, files1: set<Path>, dirs1: set<Path>,
                        files: set<Path>, dirs: set<Path>, removed: seq<Path>, errors: seq<Path>, r: RemoveResult)
    requires i < |sorted| && RemovalsTold(ElementsOf(sorted[..i]), files0, dirs0, files1, dirs1, removed, errors)
    requires RemovedAlone(sorted[i], r, files1, dirs1, files, dirs)
    ensures RemovalsTold(ElementsOf(sorted[..i + 1]), files0, dirs0, files, dirs, if r.Removed? then removed + [sorted[i]] else removed,
                         if r.RemoveFault? then errors + [sorted[i]] else errors)
  {
    assert ElementsOf(sorted[..i + 1]) == ElementsOf(sorted[..i]) + {sorted[i]};
    RemovalTold(ElementsOf(sorted[..i]), files0, dirs0, files1, dirs1, files, dirs, removed, errors, sorted[i], r);
  }

  lemma AllRemoved(sorted: seq<Path>, files0: Files, dirs0: set<Path>, files: Files, dirs: set<Path>, clean: bool, faulty: bool)
    requires Removing(sorted, |sorted|, files0, dirs0, files, dirs, clean, faulty)
    ensures clean ==>
              && files == files0 - ElementsOf(sorted) && dirs == dirs0 - ElementsOf(sorted)
              && Removable(ElementsOf(sorted), files0, dirs0)
    ensures !faulty && Removable(ElementsOf(sorted), files0, dirs0) ==> clean
  {
    assert sorted[..|sorted|] == sorted;
  }

  lemma ElementsOfMore<T>(s: seq<T>, x: T)
    ensures ElementsOf(s + [x]) == ElementsOf(s) + {x}
  {
  }

  // How far the removal has come: while nothing has failed the first i directories are gone,
  // and on a healthy host nothing fails that can be removed.
  ghost predicate Removing(sorted: seq<Path>, i: nat, files0: Files, dirs0: set<Path>, files: Files, dirs: set<Path>, clean: bool, faulty: bool)
    requires i <= |sorted|
  {
    && (clean ==> GoneSoFar(files0, dirs0, sorted, i, files, dirs))
    && (!faulty && Removable(ElementsOf(sorted), files0, dirs0) ==> clean)
  }

  method RemoveNext(tree: Store, sorted: seq<Path>, i: nat, ghost clean: bool, ghost files0: Files, ghost dirs0: set<Path>) returns (r: RemoveResult)
    requires tree.Valid() && i < |sorted| && DeepestFirst(sorted)
    requires !tree.shared ==> Removing(sorted, i, files0, dirs0, tree.files, tree.dirs, clean, tree.faulty)
    modifies tree
    ensures tree.Valid() && !r.Mismatch?
    ensures TakesAway(old(tree.log), tree.log, {sorted[i]})
    ensures r.NotThere? || (r.RemoveFault? && !tree.faulty) ==> tree.log == old(tree.log)
    ensures !tree.shared ==> Removing(sorted, i + 1, files0, dirs0, tree.files, tree.dirs, clean && !r.RemoveFault?, tree.faulty)
    ensures !tree.shared ==> RemovedAlone(sorted[i], r, old(tree.files).Keys, old(tree.dirs), tree.files.Keys, tree.dirs)
  {
    ghost var files1, dirs1 := tree.files, tree.dirs;
    if !tree.shared && clean && Removable(ElementsOf(sorted), files0, dirs0) {
      NextCanGo(sorted, i, files0, dirs0, files1, dirs1);
    }
    r := RemoveDirectory(tree, sorted[i]);
    if !tree.shared && clean && !r.RemoveFault? {
      OneMoreGone(files0, dirs0, sorted, i, files1, dirs1);
    }
  }

  lemma TakesAwayMore(before: seq<Change>, mid: seq<Change>, after: seq<Change>, paths: set<Path>, d: Path)
    requires TakesAway(before, mid, paths) && TakesAway(mid, after, {d})
    ensures TakesAway(before, after, paths + {d})
    ensures mid == after ==> TakesAway(before, after, paths)
  {
    forall i | |before| <= i < |after| ensures after[i].path in paths + {d} && after[i].before.Some? && after[i].after.None? {
      if i < |mid| {
        assert after[i] == mid[i];
      }
    }
  }

  // The first i directories are gone, and each of them could go.
  ghost predicate GoneSoFar(files0: Files, dirs0: set<Path>, sorted: seq<Path>, i: nat, files: Files, dirs: set<Path>)
    requires i <= |sorted|
  {
    Without(files0, dirs0, sorted[..i], files, dirs) && Removable(ElementsOf(sorted[..i]), files0, dirs0)
  }

  lemma OneMoreGone(files0: Files, dirs0: set<Path>, sorted: seq<Path>, i: nat, files: Files, dirs: set<Path>)
    requires i < |sorted| && DeepestFirst(sorted) && WellFormed(files, dirs)
    requires GoneSoFar(files0, dirs0, sorted, i, files, dirs) && CanGo(sorted[i], files, dirs)
    ensures GoneSoFar(files0, dirs0, sorted, i + 1, files - {sorted[i]}, dirs - {sorted[i]})
  {
    WithoutNext(files0, dirs0, sorted, i, files, dirs);
    NothingWasBeneath(sorted, i, files0, dirs0, files, dirs);
    AboveStays(sorted, i, files0, files);
    assert ElementsOf(sorted[..i + 1]) == ElementsOf(sorted[..i]) + {sorted[i]};
  }

  // What stands above a directory is less deep, so it is still there at its turn.
  lemma AboveStays(sorted: seq<Path>, i: nat, files0: Files, files: Files)
    requires i < |sorted| && DeepestFirst(sorted) && files == files0 - ElementsOf(sorted[..i])
    ensures NoFileAbove(files, sorted[i]) <==> NoFileAbove(files0, sorted[i])
  {
    forall a | a in Ancestors(sorted[i]) ensures a !in sorted[..i] {
      AncestorsAreAbove(a, sorted[i]);
      UnderIsDeeper(a, sorted[i]);
    }
  }

  // A directory that could go had nothing beneath it but what went before it.
  lemma NothingWasBeneath(sorted: seq<Path>, i: nat, files0: Files, dirs0: set<Path>, files: Files, dirs: set<Path>)
    requires i < |sorted| && WellFormed(files, dirs) && Without(files0, dirs0, sorted[..i], files, dirs)
    requires sorted[i] in dirs ==> IsEmptyDirectory(files, dirs, sorted[i])
    requires OnlyEachOther(ElementsOf(sorted[..i]), files0, dirs0)
    ensures OnlyEachOther(ElementsOf(sorted[..i + 1]), files0, dirs0)
  {
    var gone, d := ElementsOf(sorted[..i]), sorted[i];
    assert ElementsOf(sorted[..i + 1]) == gone + {d};
    forall p | p in files0.Keys + dirs0 && Under(d, p) ensures p in gone {
      if p in files || p in dirs {
        WellFormedAbove(files, dirs, d, p);
      }
    }
  }

  // The tree is what it was without these directories.
  ghost predicate Without(files0: Files, dirs0: set<Path>, gone: seq<Path>, files: Files, dirs: set<Path>) {
    files == files0 - ElementsOf(gone) && dirs == dirs0 - ElementsOf(gone)
  }

  lemma WithoutNext(files0: Files, dirs0: set<Path>, sorted: seq<Path>, i: nat, files: Files, dirs: set<Path>)
    requires i < |sorted| && Without(files0, dirs0, sorted[..i], files, dirs)
    ensures Without(files0, dirs0, sorted[..i + 1], files - {sorted[i]}, dirs - {sorted[i]})
  {
    assert ElementsOf(sorted[..i + 1]) == ElementsOf(sorted[..i]) + {sorted[i]};
  }

  lemma SortedElements(sorted: seq<Path>, directories: seq<Path>)
    requires multiset(sorted) == multiset(directories)
    ensures ElementsOf(sorted) == ElementsOf(directories)
    ensures |sorted| == |directories|
  {
    assert |multiset(sorted)| == |multiset(directories)|;
    forall p ensures p in sorted <==> p in directories {
      assert p in sorted <==> p in multiset(sorted);
      assert p in directories <==> p in multiset(directories);
    }
  }

  lemma NextCanGo(sorted: seq<Path>, i: nat, files0: Files, dirs0: set<Path>, files: Files, dirs: set<Path>)
    requires i < |sorted| && DeepestFirst(sorted) && Removable(ElementsOf(sorted), files0, dirs0)
    requires Without(files0, dirs0, sorted[..i], files, dirs)
    ensures CanGo(sorted[i], files, dirs)
  {
    NextIsEmpty(sorted, i, files0, dirs0, files, dirs);
    AboveStays(sorted, i, files0, files);
    assert sorted[i] in ElementsOf(sorted);
  }

  // Deepest first, each directory is empty when its turn comes.
  lemma NextIsEmpty(sorted: seq<Path>, i: nat, files0: Files, dirs0: set<Path>, files: Files, dirs: set<Path>)
    requires i < |sorted| && DeepestFirst(sorted)
    requires OnlyEachOther(ElementsOf(sorted), files0, dirs0)
    requires Without(files0, dirs0, sorted[..i], files, dirs)
    ensures sorted[i] in dirs ==> IsEmptyDirectory(files, dirs, sorted[i])
  {
    var d := sorted[i];
    forall p | p in files.Keys + dirs ensures !Under(d, p) {
      if p in sorted {
        var j :| 0 <= j < |sorted| && sorted[j] == p;
        assert i <= j by {
          assert p !in sorted[..i];
        }
        assert Depth(d) >= Depth(p);
        if Under(d, p) {
          UnderIsDeeper(d, p);
        }
      }
    }
  }

  // The vault after every write, delete and directory change of the request.
  ghost predicate Performed(req: Request, files0: Files, dirs0: set<Path>, files: Files, dirs: set<Path>) {
    && (forall w | w in req.writes :: At(files, w.path) == Some(w.content))
    && (forall p | p in DeletePaths(req) || p in OldDirs(req) :: p !in files)
    && (forall p | p !in WritePaths(req) && p !in DeletePaths(req) && p !in OldDirs(req) :: At(files, p) == At(files0, p))
    && dirs == dirs0 + NewDirs(req) + ParentsOf(NewDirs(req)) + ParentsOf(WritePaths(req)) - OldDirs(req)
  }

  // Nothing is created beneath a directory that is deleted.
  ghost predicate NoneBeneath(req: Request) {
    forall d, p | d in OldDirs(req) && p in WritePaths(req) + NewDirs(req) :: !Under(d, p)
  }

  // The whole tree, listed or not, is in the way of nothing the request does: new
  // directories and written files have room, what lies beneath a deleted directory is
  // deleted with it, and no file stands above one.
  ghost predicate Unobstructed(req: Request, files: Files, dirs: set<Path>) {
    HasRoom(req, files, dirs) && Emptied(req, files, dirs)
  }

  ghost predicate Emptied(req: Request, files: Files, dirs: set<Path>) {
    && (forall d, p | d in OldDirs(req) && p in files.Keys + dirs && Under(d, p) :: p in DeletePaths(req) || p in OldDirs(req))
    && (forall d | d in OldDirs(req) :: NoFileAbove(files, d))
  }

  ghost predicate HasRoom(req: Request, files: Files, dirs: set<Path>) {
    && (forall d | d in NewDirs(req) :: CanHoldDirectory(files, d))
    && (forall w | w in req.writes :: CanHoldFile(files, dirs, w.path))
  }

  // A directory that is there already has room.
  lemma ThereIsRoom(files: Files, dirs: set<Path>, d: Path)
    requires WellFormed(files, dirs) && d in dirs
    ensures CanHoldDirectory(files, d)
  {
    NothingAboveWhatIsThere(files, dirs, d);
  }

  // The new directories take no room from the writes.
  lemma RoomAfterDirectories(req: Request, files: Files, dirs: set<Path>)
    requires ValidTree(RequestEntries(req)) && Fresh(req, files)
    ensures HasRoom(req, files, dirs) ==> WritesFit(req.writes, files, dirs + NewDirs(req) + ParentsOf(NewDirs(req)))
  {
    RequestSets(req);
    forall w, d | w in req.writes && d in NewDirs(req) ensures w.path !in Ancestors(d) {
      assert w.path in WritePaths(req);
      AncestorsAreAbove(w.path, d);
    }
    forall v, w | v in req.writes && w in req.writes ensures !Under(v.path, w.path) {
      assert v.path in WritePaths(req) && w.path in WritePaths(req);
    }
    forall w | w in req.writes ensures w.path !in NewDirs(req) {
      assert w.path in WritePaths(req);
    }
  }

  // When the directories are removed, only directories that are removed with them are left
  // beneath them, exactly when the request deletes everything else that was there.
  lemma OnlyScheduledRemain(req: Request, files0: Files, dirs0: set<Path>, files: Files, dirs: set<Path>)
    requires ValidTree(RequestEntries(req)) && NoneBeneath(req)
    requires files.Keys == files0.Keys - DeletePaths(req) + WritePaths(req)
    requires dirs == dirs0 + NewDirs(req) + ParentsOf(NewDirs(req)) + ParentsOf(WritePaths(req))
    requires DeletePaths(req) !! dirs0
    ensures OnlyEachOther(OldDirs(req), files, dirs) <==>
            forall d, p | d in OldDirs(req) && p in files0.Keys + dirs0 && Under(d, p) :: p in DeletePaths(req) || p in OldDirs(req)
  {
    RequestSets(req);
    forall d, p | d in OldDirs(req) && p in files.Keys + dirs && Under(d, p)
      ensures p in files0.Keys - DeletePaths(req) + dirs0
    {
      forall q | q in NewDirs(req) || q in WritePaths(req) ensures p !in Ancestors(q) {
        AncestorsAreAbove(p, q);
        if Under(p, q) {
          UnderTransitive(d, p, q);
        }
      }
    }
    if OnlyEachOther(OldDirs(req), files, dirs) {
      forall d, p | d in OldDirs(req) && p in files0.Keys + dirs0 && Under(d, p)
        ensures p in DeletePaths(req) || p in OldDirs(req)
      {
        assert p !in DeletePaths(req) ==> p in files.Keys + dirs;
      }
    }
  }

  // Each write and each delete is in exactly one list of the report.
  ghost predicate Reported(req: Request, r: Report) {
    && (forall p | p in WritePaths(req) :: ExactlyOne(p in r.written, Conflicting(r.conflicts, p), p in r.errors))
    && (forall p | p in DeletePaths(req) :: ExactlyOne(p in r.deleted, Conflicting(r.conflicts, p), p in r.errors))
  }

  // What a report says as a whole: everything was applied; or nothing was, because of
  // conflicts alone; or else it is partial.
  ghost predicate RightOutcome(r: Report) {
    var nothingDone := r.written == [] && r.deleted == [] && r.createdDirectories == [] && r.deletedDirectories == [];
    && (r.outcome == Applied <==> r.conflicts == [] && r.errors == [])
    && (r.outcome == Conflicted <==> r.conflicts != [] && r.errors == [] && nothingDone)
  }

  // Each directory to create was in the listing, was created or failed, and no other is
  // listed as created; those listed as deleted are directories to delete.
  ghost predicate DirectoriesReported(req: Request, existing: set<Path>, r: Report) {
    && (forall d | d in NewDirs(req) :: ExactlyOne(d in existing, d in r.createdDirectories, d in r.errors))
    && (forall d | d in r.createdDirectories :: d in NewDirs(req))
    && (forall d | d in r.deletedDirectories :: d in OldDirs(req))
  }

  // And the tree bears it out: what was created is there, what was deleted stood there and
  // is gone, whatever stood where a directory was to be deleted is accounted for, and no
  // other directory came or went.
  ghost predicate DirectoriesTold(req: Request, r: Report, files0: set<Path>, dirs0: set<Path>, files: set<Path>, dirs: set<Path>) {
    && (forall d | d in r.createdDirectories :: d in dirs)
    && (forall d | d in r.deletedDirectories :: d in files0 + dirs0 && d !in files + dirs)
    && (forall d | d in OldDirs(req) && d in files0 + dirs0 :: d in r.deletedDirectories || d in r.errors)
    && dirs0 - OldDirs(req) <= dirs <= WrittenDirs(req, dirs0)
  }

  function MakeReport(writes: Tally, deletes: Tally, created: seq<Path>, removed: seq<Path>, directoryErrors: seq<Path>): (r: Report)
    ensures r.outcome == Applied <==> writes.Clean() && deletes.Clean() && directoryErrors == []
    ensures RightOutcome(r)
  {
    var errors := writes.errors + deletes.errors + directoryErrors;
    var conflicts := writes.conflicts + deletes.conflicts;
    var applied := |writes.done| + |deletes.done| + |created| + |removed|;
    Report(
      if |errors| > 0 || (|conflicts| > 0 && applied > 0) then Partial else if |conflicts| > 0 then Conflicted else Applied,
      writes.done, deletes.done, created, removed, conflicts, errors)
  }

  lemma ReportAccounts(req: Request, writes: Tally, deletes: Tally, created: seq<Path>, removed: seq<Path>, directoryErrors: seq<Path>)
    requires ValidTree(RequestEntries(req))
    requires Accounted(WritePaths(req), writes) && Accounted(DeletePaths(req), deletes)
    requires forall d | d in directoryErrors :: d in NewDirs(req) || d in OldDirs(req)
    ensures Reported(req, MakeReport(writes, deletes, created, removed, directoryErrors))
  {
    RequestSets(req);
    var r := MakeReport(writes, deletes, created, removed, directoryErrors);
    assert forall p :: Conflicting(r.conflicts, p) <==> Conflicting(writes.conflicts, p) || Conflicting(deletes.conflicts, p) by {
      assert forall c :: c in r.conflicts <==> c in writes.conflicts || c in deletes.conflicts;
    }
    assert forall p :: p in r.errors <==> p in writes.errors || p in deletes.errors || p in directoryErrors;
  }

  // The vault after the directories and the writes, and after the deletes too.
  ghost function WrittenFiles(req: Request, files: Files): Files {
    FilesWritten(req.writes, |req.writes|, files)
  }

  ghost function WrittenDirs(req: Request, dirs: set<Path>): set<Path> {
    dirs + NewDirs(req) + ParentsOf(NewDirs(req)) + ParentsOf(WritePaths(req))
  }

  ghost function FinalFiles(req: Request, files: Files): Files {
    WrittenFiles(req, files) - DeletePaths(req) - OldDirs(req)
  }

  lemma FinalTree(req: Request, files: Files, dirs: set<Path>)
    requires ValidTree(RequestEntries(req))
    ensures Performed(req, files, dirs, FinalFiles(req, files), WrittenDirs(req, dirs) - OldDirs(req))
  {
    RequestPartsDisjoint(req);
    WrittenPaths(req, files, dirs);
    forall w | w in req.writes ensures At(FinalFiles(req, files), w.path) == Some(w.content) {
      WrittenContent(req, files, dirs, w);
      assert w.path in WritePaths(req);
    }
  }

  lemma WrittenContent(req: Request, files: Files, dirs: set<Path>, w: WriteRequest)
    requires ValidTree(RequestEntries(req)) && w in req.writes
    ensures At(WrittenFiles(req, files), w.path) == Some(w.content)
  {
    RequestPartsHaveNoRepeats(req);
    WrittenTree(req.writes, |req.writes|, files, dirs);
    var j :| 0 <= j < |req.writes| && req.writes[j] == w;
    assert At(WrittenFiles(req, files), req.writes[j].path) == Some(req.writes[j].content);
  }

  lemma KnownDirectoriesAddNothing(req: Request, existing: set<Path>, files: Files, dirs: set<Path>)
    requires WellFormed(files, dirs) && existing <= dirs
    ensures dirs + (NewDirs(req) - existing) + ParentsOf(NewDirs(req) - existing) == dirs + NewDirs(req) + ParentsOf(NewDirs(req))
  {
    forall d, a | d in NewDirs(req) && d in dirs && a in Ancestors(d) ensures a in dirs {
      AncestorsAreAbove(a, d);
      WellFormedAbove(files, dirs, a, d);
    }
  }

  lemma WrittenDirsAre(req: Request, existing: set<Path>, files: Files, dirs: set<Path>)
    requires WellFormed(files, dirs) && ValidTree(RequestEntries(req)) && existing <= dirs
    ensures var created := NewDirs(req) - existing;
            DirsWritten(req.writes, |req.writes|, dirs + created + ParentsOf(created)) == WrittenDirs(req, dirs)
  {
    RequestPartsHaveNoRepeats(req);
    var created := NewDirs(req) - existing;
    KnownDirectoriesAddNothing(req, existing, files, dirs);
    WrittenTree(req.writes, |req.writes|, files, dirs + created + ParentsOf(created));
    FirstPathsAre(req.writes, |req.writes|);
    assert FirstPaths(req.writes, |req.writes|) == WritePaths(req);
  }

  // Everything went well exactly when there was room for it.
  lemma CreatedInRoom(req: Request, existing: set<Path>, files: Files, dirs: set<Path>)
    requires WellFormed(files, dirs) && existing <= dirs
    requires forall d | d in req.directories && d !in existing :: CanHoldDirectory(files, d)
    requires forall j | 0 <= j < |req.writes| :: FitsAt(req.writes[j], files, dirs + NewDirs(req) + ParentsOf(NewDirs(req)))
    ensures HasRoom(req, files, dirs)
  {
    forall d | d in NewDirs(req) ensures CanHoldDirectory(files, d) {
      if d in existing {
        ThereIsRoom(files, dirs, d);
      }
    }
    forall w | w in req.writes ensures CanHoldFile(files, dirs, w.path) {
      var j :| 0 <= j < |req.writes| && req.writes[j] == w;
      assert FitsAt(req.writes[j], files, dirs + NewDirs(req) + ParentsOf(NewDirs(req)));
    }
  }

  ghost predicate CreationsReported(req: Request, existing: set<Path>, created: seq<Path>, errors: seq<Path>) {
    && (forall d | d in NewDirs(req) :: ExactlyOne(d in existing, d in created, d in errors))
    && (forall d | d in created + errors :: d in NewDirs(req))
  }

  // The tree after the new directories and the writes, whatever has failed.
  ghost predicate CreationsMade(req: Request, created: seq<Path>, files0: set<Path>, dirs0: set<Path>, files: set<Path>, dirs: set<Path>) {
    files0 <= files <= files0 + WritePaths(req) && dirs0 + ElementsOf(created) <= dirs <= WrittenDirs(req, dirs0)
  }

  lemma CreationsStay(req: Request, created: seq<Path>, made: set<Path>, files0: set<Path>, dirs0: set<Path>, files: set<Path>, dirs: set<Path>)
    requires ElementsOf(created) <= made <= NewDirs(req)
    requires Grown(WritePaths(req), files0, dirs0 + made + ParentsOf(made), files, dirs)
    ensures CreationsMade(req, created, files0, dirs0, files, dirs)
  {
  }

  method Create(vault: Store, req: Request, existing: set<Path>) returns (created: seq<Path>, errors: seq<Path>, tally: Tally)
    requires vault.Valid() && ValidTree(RequestEntries(req))
    requires !vault.shared ==> existing <= vault.dirs
    modifies vault
    ensures vault.Valid()
    ensures LogGrows(old(vault.log), vault.log, req)
    ensures Accounts(WriteChanges(req), old(vault.log), vault.log, tally) && forall d | d in errors :: d in NewDirs(req)
    ensures CreationsReported(req, existing, created, errors)
    ensures !vault.shared ==> CreationsMade(req, created, old(vault.files).Keys, old(vault.dirs), vault.files.Keys, vault.dirs)
    ensures !vault.shared && errors == [] && tally.Clean() ==>
              && vault.files == WrittenFiles(req, old(vault.files)) && vault.dirs == WrittenDirs(req, old(vault.dirs))
              && HasRoom(req, old(vault.files), old(vault.dirs))
    ensures !vault.shared && !vault.faulty && Fresh(req, old(vault.files)) && HasRoom(req, old(vault.files), old(vault.dirs)) ==>
              errors == [] && tally.Clean()
  {
    ghost var files0, dirs0 := vault.files, vault.dirs;
    RequestPartsHaveNoRepeats(req);
    ghost var made;
    created, errors, made := CreateDirectories(vault, req.directories, existing);
    ghost var madeAll := !vault.shared && errors == [];
    if madeAll {
      assert ElementsOf(errors) == {};
      assert made == ElementsOf(created) == NewDirs(req) - existing;
      KnownDirectoriesAddNothing(req, existing, files0, dirs0);
      WrittenDirsAre(req, existing, files0, dirs0);
      assert vault.dirs == dirs0 + NewDirs(req) + ParentsOf(NewDirs(req));
    }
    if Fresh(req, files0) {
      RoomAfterDirectories(req, files0, dirs0);
    }
    assert ElementsOf(created) + ElementsOf(errors) <= NewDirs(req);
    tally := ApplyWrites(vault, req);
    AllWriteChanges(req);
    if !vault.shared {
      CreationsStay(req, created, made, files0.Keys, dirs0, vault.files.Keys, vault.dirs);
    }
    if madeAll && tally.Clean() {
      CreatedInRoom(req, existing, files0, dirs0);
    }
  }

  // First the deletes were made, then what was removed.
  ghost predicate RemovalsLogged(req: Request, before: seq<Change>, after: seq<Change>, tally: Tally, gone: set<Path>) {
    exists mid | before <= mid <= after :: Accounts(DeleteChanges(req), before, mid, tally) && TakesAway(mid, after, gone)
  }

  // The tree after the deletes and the removals, whatever has failed.
  ghost predicate RemovalsMade(req: Request, removed: seq<Path>, errors: seq<Path>, files0: set<Path>, dirs0: set<Path>, files: set<Path>, dirs: set<Path>) {
    && dirs0 - OldDirs(req) <= dirs <= dirs0
    && (forall d | d in removed :: d in files0 + dirs0 && d !in files + dirs)
    && (forall d | d in OldDirs(req) && d in (files0 - DeletePaths(req)) + dirs0 :: d in removed || d in errors)
  }

  method Destroy(vault: Store, req: Request) returns (removed: seq<Path>, errors: seq<Path>, tally: Tally)
    requires vault.Valid() && ValidTree(RequestEntries(req))
    modifies vault
    ensures vault.Valid()
    ensures LogGrows(old(vault.log), vault.log, req)
    ensures ElementsOf(removed) + ElementsOf(errors) <= OldDirs(req)
    ensures !vault.shared ==> RemovalsMade(req, removed, errors, old(vault.files).Keys, old(vault.dirs), vault.files.Keys, vault.dirs)
    ensures RemovalsLogged(req, old(vault.log), vault.log, tally, ElementsOf(removed) + ElementsOf(errors))
    ensures !vault.shared && errors == [] && tally.Clean() ==>
              && vault.files == old(vault.files) - DeletePaths(req) - OldDirs(req) && vault.dirs == old(vault.dirs) - OldDirs(req)
              && Removable(OldDirs(req), old(vault.files) - DeletePaths(req), old(vault.dirs))
    ensures !vault.shared && !vault.faulty ==>
              DeletesFresh(req, old(vault.files)) && Removable(OldDirs(req), old(vault.files) - DeletePaths(req), old(vault.dirs)) ==>
                errors == [] && tally.Clean()
  {
    RequestPartsHaveNoRepeats(req);
    tally := ApplyDeletes(vault, req);
    ghost var mid := vault.log;
    AllDeleteChanges(req);
    if !vault.shared && tally.Clean() {
      AllDeleted(req, old(vault.log), mid, old(vault.files), vault.files, tally);
    }
    ghost var files1 := vault.files;
    if !vault.shared {
      OnlyDeletesGo(req, old(vault.log), mid, old(vault.files), files1, tally);
    }
    removed, errors := RemoveDirectories(vault, req);
    assert old(vault.log) <= mid <= vault.log;
  }

  // After the writes, the deletes are still fresh and the directories still to be emptied
  // by them alone.
  lemma RemovalAfterWrites(req: Request, files: Files, dirs: set<Path>)
    requires ValidTree(RequestEntries(req)) && NoneBeneath(req) && Fresh(req, files) && DeletePaths(req) !! dirs
    ensures DeletesFresh(req, WrittenFiles(req, files))
    ensures Removable(OldDirs(req), WrittenFiles(req, files) - DeletePaths(req), WrittenDirs(req, dirs)) <==> Emptied(req, files, dirs)
  {
    RequestSets(req);
    WrittenPaths(req, files, dirs);
    forall d | d in req.deletes ensures At(WrittenFiles(req, files), d.path) == Some(d.expected) {
      assert d.path in DeletePaths(req);
    }
    OnlyScheduledRemain(req, files, dirs, WrittenFiles(req, files) - DeletePaths(req), WrittenDirs(req, dirs));
    SameAboveOldDirs(req, files, WrittenFiles(req, files) - DeletePaths(req));
  }

  // No write and no delete of a request stands above a directory it deletes.
  lemma SameAboveOldDirs(req: Request, files0: Files, files: Files)
    requires ValidTree(RequestEntries(req)) && files.Keys == files0.Keys - DeletePaths(req) + WritePaths(req)
    ensures forall d | d in OldDirs(req) :: NoFileAbove(files, d) <==> NoFileAbove(files0, d)
  {
    RequestSets(req);
    forall d, a | d in OldDirs(req) && a in Ancestors(d) ensures a !in DeletePaths(req) && a !in WritePaths(req) {
      AncestorsAreAbove(a, d);
    }
  }

  lemma WrittenPaths(req: Request, files: Files, dirs: set<Path>)
    requires ValidTree(RequestEntries(req))
    ensures WrittenFiles(req, files).Keys == files.Keys + WritePaths(req)
    ensures forall p | p !in WritePaths(req) :: At(WrittenFiles(req, files), p) == At(files, p)
  {
    RequestPartsHaveNoRepeats(req);
    WrittenTree(req.writes, |req.writes|, files, dirs);
    FirstPathsAre(req.writes, |req.writes|);
    assert FirstPaths(req.writes, |req.writes|) == WritePaths(req);
    forall p ensures p in WrittenFiles(req, files) <==> p in files.Keys + WritePaths(req) {
      if p in WritePaths(req) {
        var j :| 0 <= j < |req.writes| && req.writes[j].path == p;
        assert At(WrittenFiles(req, files), req.writes[j].path) == Some(req.writes[j].content);
      } else {
        assert At(WrittenFiles(req, files), p) == At(files, p);
      }
    }
  }

  // The report against what the log says was done: each write and delete it lists as done
  // was made at its expected hash, none that met a conflict was, every conflict is real, and
  // whatever was changed is listed as done, or as failed when its answer was lost.
  ghost predicate Backed(req: Request, before: seq<Change>, after: seq<Change>, r: Report) {
    && (forall w | w in req.writes && w.path in r.written :: Made(before, after, ChangeOf(w)))
    && (forall d | d in req.deletes && d.path in r.deleted :: Made(before, after, RemovalOf(d)))
    && (forall p | p in WritePaths(req) + DeletePaths(req) && Conflicting(r.conflicts, p) :: Unmade(before, after, p))
    && (forall c | c in r.conflicts :: Real(req, c))
    && (forall i | |before| <= i < |after| :: InReport(r, after[i].path))
  }

  ghost predicate InReport(r: Report, p: Path) {
    p in r.written || p in r.deleted || p in r.deletedDirectories || p in r.errors
  }

  // Every write and every delete was made.
  ghost predicate AllMade(req: Request, before: seq<Change>, after: seq<Change>) {
    && (forall w | w in req.writes :: Made(before, after, ChangeOf(w)))
    && (forall d | d in req.deletes :: Made(before, after, RemovalOf(d)))
  }

  lemma ReportIsBacked(req: Request, log0: seq<Change>, log1: seq<Change>, log2: seq<Change>, log3: seq<Change>,
                       writes: Tally, deletes: Tally, created: seq<Path>, removed: seq<Path>, directoryErrors: seq<Path>)
    requires ValidTree(RequestEntries(req)) && forall d | d in directoryErrors :: d in NewDirs(req) || d in OldDirs(req)
    requires Accounts(WriteChanges(req), log0, log1, writes) && Accounts(DeleteChanges(req), log1, log2, deletes)
    requires GrowsWithin(log2, log3, ElementsOf(removed) + ElementsOf(directoryErrors)) && GrowsWithin(log2, log3, OldDirs(req))
    ensures Backed(req, log0, log3, MakeReport(writes, deletes, created, removed, directoryErrors))
  {
    AllWriteChanges(req);
    AllDeleteChanges(req);
    RequestPartsDisjoint(req);
    var r := MakeReport(writes, deletes, created, removed, directoryErrors);
    forall w | w in req.writes && w.path in r.written ensures Made(log0, log3, ChangeOf(w)) {
      assert ChangeOf(w) in WriteChanges(req);
      MadeStays(log0, log1, log3, ChangeOf(w));
    }
    forall d | d in req.deletes && d.path in r.deleted ensures Made(log0, log3, RemovalOf(d)) {
      assert RemovalOf(d) in DeleteChanges(req);
      MadeLater(log0, log1, log2, RemovalOf(d));
      MadeStays(log0, log2, log3, RemovalOf(d));
    }
    forall p | p in WritePaths(req) && Conflicting(r.conflicts, p) ensures Unmade(log0, log3, p) {
      WriteUnmade(req, log0, log1, log2, log3, writes, deletes, r, p);
    }
    forall p | p in DeletePaths(req) && Conflicting(r.conflicts, p) ensures Unmade(log0, log3, p) {
      DeleteUnmade(req, log0, log1, log2, log3, writes, deletes, r, p);
    }
    forall c | c in r.conflicts ensures Real(req, c) {
      ConflictIsReal(req, log0, log1, log2, writes, deletes, c);
    }
    forall i | |log0| <= i < |log3| ensures InReport(r, log3[i].path) {
      ChangeIsInReport(req, log0, log1, log2, log3, writes, deletes, created, removed, directoryErrors, i);
    }
  }

  // What was changed was done, or failed: a conflict is not among it.
  lemma ChangeIsInReport(req: Request, log0: seq<Change>, log1: seq<Change>, log2: seq<Change>, log3: seq<Change>,
                         writes: Tally, deletes: Tally, created: seq<Path>, removed: seq<Path>, directoryErrors: seq<Path>, i: nat)
    requires Accounts(WriteChanges(req), log0, log1, writes) && Accounts(DeleteChanges(req), log1, log2, deletes)
    requires GrowsWithin(log2, log3, ElementsOf(removed) + ElementsOf(directoryErrors)) && |log0| <= i < |log3|
    ensures InReport(MakeReport(writes, deletes, created, removed, directoryErrors), log3[i].path)
  {
    if i < |log1| {
      assert log3[i] == log1[i];
      TallyHasChange(WriteChanges(req), log0, log1, writes, i);
    } else if i < |log2| {
      assert log3[i] == log2[i];
      TallyHasChange(DeleteChanges(req), log1, log2, deletes, i);
    }
  }

  lemma TallyHasChange(changes: set<Change>, before: seq<Change>, after: seq<Change>, tally: Tally, i: nat)
    requires Accounts(changes, before, after, tally) && |before| <= i < |after|
    ensures after[i].path in tally.done || after[i].path in tally.errors
  {
    assert after[i] in changes && after[i].path in PathsOf(changes);
  }

  lemma MadeLater(before: seq<Change>, mid: seq<Change>, after: seq<Change>, c: Change)
    requires before <= mid && Made(mid, after, c)
    ensures Made(before, after, c)
  {
  }

  lemma UnmadeEarlier(before: seq<Change>, mid: seq<Change>, after: seq<Change>, p: Path, paths: set<Path>)
    requires GrowsWithin(before, mid, paths) && p !in paths && mid <= after && Unmade(mid, after, p)
    ensures Unmade(before, after, p)
  {
    forall i | |before| <= i < |after| ensures after[i].path != p {
      if i < |mid| {
        assert after[i] == mid[i];
      }
    }
  }

  lemma WriteUnmade(req: Request, log0: seq<Change>, log1: seq<Change>, log2: seq<Change>, log3: seq<Change>,
                    writes: Tally, deletes: Tally, r: Report, p: Path)
    requires Accounts(WriteChanges(req), log0, log1, writes) && Accounts(DeleteChanges(req), log1, log2, deletes)
    requires GrowsWithin(log2, log3, OldDirs(req)) && WritePaths(req) !! DeletePaths(req) !! OldDirs(req)
    requires r.conflicts == writes.conflicts + deletes.conflicts && p in WritePaths(req) && Conflicting(r.conflicts, p)
    ensures Unmade(log0, log3, p)
  {
    AllWriteChanges(req);
    AllDeleteChanges(req);
    assert Conflicting(writes.conflicts, p) by {
      var c :| c in r.conflicts && c.path == p;
      assert c !in deletes.conflicts;
    }
    assert Unmade(log0, log1, p) by {
      var w :| w in req.writes && w.path == p;
      assert ChangeOf(w) in WriteChanges(req);
    }
    UnmadeStays(log0, log1, log2, p, DeletePaths(req));
    UnmadeStays(log0, log2, log3, p, OldDirs(req));
  }

  lemma DeleteUnmade(req: Request, log0: seq<Change>, log1: seq<Change>, log2: seq<Change>, log3: seq<Change>,
                     writes: Tally, deletes: Tally, r: Report, p: Path)
    requires Accounts(WriteChanges(req), log0, log1, writes) && Accounts(DeleteChanges(req), log1, log2, deletes)
    requires GrowsWithin(log2, log3, OldDirs(req)) && WritePaths(req) !! DeletePaths(req) !! OldDirs(req)
    requires r.conflicts == writes.conflicts + deletes.conflicts && p in DeletePaths(req) && Conflicting(r.conflicts, p)
    ensures Unmade(log0, log3, p)
  {
    AllWriteChanges(req);
    AllDeleteChanges(req);
    assert Conflicting(deletes.conflicts, p) by {
      var c :| c in r.conflicts && c.path == p;
      assert c !in writes.conflicts;
    }
    var d :| d in req.deletes && d.path == p;
    assert RemovalOf(d) in DeleteChanges(req);
    UnmadeEarlier(log0, log1, log2, p, WritePaths(req));
    UnmadeStays(log0, log2, log3, p, OldDirs(req));
  }

  lemma ConflictIsReal(req: Request, log0: seq<Change>, log1: seq<Change>, log2: seq<Change>, writes: Tally, deletes: Tally, c: Conflict)
    requires Accounts(WriteChanges(req), log0, log1, writes) && Accounts(DeleteChanges(req), log1, log2, deletes)
    requires c in writes.conflicts || c in deletes.conflicts
    ensures Real(req, c)
  {
    var ms := Mutations(req);
    if c in writes.conflicts {
      var x :| x in WriteChanges(req) && x.path == c.path && x.before == c.expected;
      var i :| 0 <= i < |req.writes| && ChangeOf(req.writes[i]) == x;
      assert ms[i] == Mutation(c.path, c.expected);
    } else {
      var x :| x in DeleteChanges(req) && x.path == c.path && x.before == c.expected;
      var i :| 0 <= i < |req.deletes| && RemovalOf(req.deletes[i]) == x;
      assert ms[|req.writes| + i] == Mutation(c.path, c.expected);
    }
  }

  // A report without conflicts and errors has everything in its lists of what was done.
  lemma AppliedMeansAllMade(req: Request, before: seq<Change>, after: seq<Change>, r: Report)
    requires Reported(req, r) && Backed(req, before, after, r) && r.conflicts == [] && r.errors == []
    ensures AllMade(req, before, after)
  {
    forall w | w in req.writes ensures Made(before, after, ChangeOf(w)) {
      assert w.path in WritePaths(req);
    }
    forall d | d in req.deletes ensures Made(before, after, RemovalOf(d)) {
      assert d.path in DeletePaths(req);
    }
  }

  method Perform(vault: Store, req: Request, existing: set<Path>) returns (r: Report)
    requires vault.Valid() && ValidTree(RequestEntries(req)) && NoneBeneath(req)
    requires !vault.shared ==> existing <= vault.dirs
    modifies vault
    ensures vault.Valid()
    ensures LogGrows(old(vault.log), vault.log, req)
    ensures Reported(req, r) && Backed(req, old(vault.log), vault.log, r)
    ensures RightOutcome(r) && (r.outcome == Applied ==> AllMade(req, old(vault.log), vault.log))
    ensures DirectoriesReported(req, existing, r)
    ensures !vault.shared ==> DirectoriesTold(req, r, old(vault.files).Keys, old(vault.dirs), vault.files.Keys, vault.dirs)
    ensures !vault.shared && r.outcome == Applied ==> Performed(req, old(vault.files), old(vault.dirs), vault.files, vault.dirs)
    ensures !vault.shared && !vault.faulty && Fresh(req, old(vault.files)) && DeletePaths(req) !! old(vault.dirs) ==>
              (r.outcome == Applied <==> Unobstructed(req, old(vault.files), old(vault.dirs)))
  {
    ghost var files0, dirs0, log0 := vault.files, vault.dirs, vault.log;
    var created, mkdirErrors, writes := Create(vault, req, existing);
    ghost var log1, files1, dirs1 := vault.log, vault.files, vault.dirs;
    if Fresh(req, files0) && DeletePaths(req) !! dirs0 {
      RemovalAfterWrites(req, files0, dirs0);
    }
    var removed, rmdirErrors, deletes := Destroy(vault, req);
    r := MakeReport(writes, deletes, created, removed, mkdirErrors + rmdirErrors);
    ReportTellsAll(req, existing, log0, log1, vault.log, writes, deletes, created, removed, mkdirErrors, rmdirErrors);
    if !vault.shared {
      TreeTellsDirectories(req, r, files0.Keys, dirs0, files1.Keys, dirs1, vault.files.Keys, vault.dirs, rmdirErrors);
    }
    if !vault.shared && r.outcome == Applied {
      FinalTree(req, files0, dirs0);
    }
  }

  lemma ReportTellsDirectories(req: Request, existing: set<Path>, writes: Tally, deletes: Tally, created: seq<Path>, removed: seq<Path>,
                               mkdirErrors: seq<Path>, rmdirErrors: seq<Path>)
    requires ValidTree(RequestEntries(req))
    requires Accounted(WritePaths(req), writes) && Accounted(DeletePaths(req), deletes)
    requires CreationsReported(req, existing, created, mkdirErrors) && ElementsOf(removed) + ElementsOf(rmdirErrors) <= OldDirs(req)
    ensures DirectoriesReported(req, existing, MakeReport(writes, deletes, created, removed, mkdirErrors + rmdirErrors))
  {
    RequestPartsDisjoint(req);
    forall d | d in NewDirs(req) ensures d !in writes.errors && d !in deletes.errors && d !in rmdirErrors {
      assert d in rmdirErrors ==> d in ElementsOf(rmdirErrors);
    }
    forall d | d in created ensures d in NewDirs(req) {
      assert d in created + mkdirErrors;
    }
    forall d | d in removed ensures d in OldDirs(req) {
      assert d in ElementsOf(removed);
    }
  }

  // The new directories are out of the way of the deletes and removals, and the deleted
  // directories out of the way of what is created.
  lemma TreeTellsDirectories(req: Request, r: Report, files0: set<Path>, dirs0: set<Path>, files1: set<Path>, dirs1: set<Path>,
                             files: set<Path>, dirs: set<Path>, rmdirErrors: seq<Path>)
    requires ValidTree(RequestEntries(req)) && NoneBeneath(req)
    requires CreationsMade(req, r.createdDirectories, files0, dirs0, files1, dirs1)
    requires RemovalsMade(req, r.deletedDirectories, rmdirErrors, files1, dirs1, files, dirs)
    requires forall d | d in r.createdDirectories :: d in NewDirs(req)
    requires forall d | d in r.deletedDirectories :: d in OldDirs(req)
    requires forall d | d in rmdirErrors :: d in r.errors
    ensures DirectoriesTold(req, r, files0, dirs0, files, dirs)
  {
    RequestPartsDisjoint(req);
    forall d | d in r.createdDirectories ensures d in dirs {
      assert d in ElementsOf(r.createdDirectories);
    }
    forall d | d in OldDirs(req) ensures d in files0 + dirs0 <==> d in files1 + dirs1 {
      OldDirsAreNotMade(req, d);
    }
    assert WrittenDirs(req, dirs0) >= dirs1 >= dirs;
  }

  lemma OldDirsAreNotMade(req: Request, d: Path)
    requires ValidTree(RequestEntries(req)) && NoneBeneath(req) && d in OldDirs(req)
    ensures d !in WritePaths(req) && d !in DeletePaths(req) && d !in NewDirs(req) + ParentsOf(NewDirs(req)) + ParentsOf(WritePaths(req))
  {
    RequestPartsDisjoint(req);
    forall p | p in WritePaths(req) + NewDirs(req) ensures d !in Ancestors(p) {
      AncestorsAreAbove(d, p);
    }
  }

  lemma ReportTellsAll(req: Request, existing: set<Path>, log0: seq<Change>, log1: seq<Change>, log3: seq<Change>,
                       writes: Tally, deletes: Tally, created: seq<Path>, removed: seq<Path>, mkdirErrors: seq<Path>, rmdirErrors: seq<Path>)
    requires ValidTree(RequestEntries(req))
    requires Accounts(WriteChanges(req), log0, log1, writes)
    requires RemovalsLogged(req, log1, log3, deletes, ElementsOf(removed) + ElementsOf(rmdirErrors))
    requires CreationsReported(req, existing, created, mkdirErrors) && ElementsOf(removed) + ElementsOf(rmdirErrors) <= OldDirs(req)
    ensures var r := MakeReport(writes, deletes, created, removed, mkdirErrors + rmdirErrors);
            && Reported(req, r) && Backed(req, log0, log3, r) && (r.outcome == Applied ==> AllMade(req, log0, log3))
            && DirectoriesReported(req, existing, r)
  {
    var log2 :| log1 <= log2 <= log3 &&
      Accounts(DeleteChanges(req), log1, log2, deletes) && TakesAway(log2, log3, ElementsOf(removed) + ElementsOf(rmdirErrors));
    forall d | d in mkdirErrors ensures d in NewDirs(req) {
      assert d in created + mkdirErrors;
    }
    var r, directoryErrors := MakeReport(writes, deletes, created, removed, mkdirErrors + rmdirErrors), mkdirErrors + rmdirErrors;
    AllWriteChanges(req);
    AllDeleteChanges(req);
    forall d | d in directoryErrors ensures d in NewDirs(req) || d in OldDirs(req) {
      assert d in rmdirErrors ==> d in ElementsOf(rmdirErrors);
    }
    ReportAccounts(req, writes, deletes, created, removed, directoryErrors);
    ReportTellsDirectories(req, existing, writes, deletes, created, removed, mkdirErrors, rmdirErrors);
    ReportIsBacked(req, log0, log1, log2, log3, writes, deletes, created, removed, directoryErrors);
    if r.outcome == Applied {
      AppliedMeansAllMade(req, log0, log3, r);
    }
  }

  // What the request and the listing must satisfy for syncApply to go ahead at all.
  ghost predicate Admissible(req: Request, files: Files, dirs: set<Path>) {
    && AllVaultPaths(req)
    && |ListedFiles(files)| + |ListedDirs(dirs)| <= MAX_TREE_ENTRIES
    && (forall p | p in ListedFiles(files).Keys + ListedDirs(dirs) :: IsVaultPath(p))
    && Acceptable(req, ListedFiles(files).Keys, ListedDirs(dirs))
    && (forall p | p in WritePaths(req) + DeletePaths(req) :: CanHoldFile(files, dirs, p))
  }

  function Stopped(outcome: Outcome, conflicts: seq<Conflict>): Report {
    Report(outcome, [], [], [], [], conflicts, [])
  }

  // The checks; Ok holds the directories the listing showed.
  method Admit(vault: Store, req: Request) returns (r: Result<set<Path>>)
    requires vault.Valid()
    modifies vault`files, vault`dirs
    ensures vault.Valid()
    ensures !vault.shared ==> vault.files == old(vault.files) && vault.dirs == old(vault.dirs)
    ensures r.Ok? ==> AllVaultPaths(req) && ValidTree(RequestEntries(req)) && NoneBeneath(req)
    ensures r.Ok? && !vault.shared ==> r.value == ListedDirs(vault.dirs)
    ensures !vault.shared && r.Ok? ==> Acceptable(req, ListedFiles(vault.files).Keys, ListedDirs(vault.dirs))
    ensures !vault.shared && r.Ok? && (forall p | p in WritePaths(req) + DeletePaths(req) :: CanHoldFile(vault.files, vault.dirs, p)) ==>
              Admissible(req, vault.files, vault.dirs)
    ensures !vault.shared && !vault.faulty && Admissible(req, vault.files, vault.dirs) ==> r.Ok?
  {
    if !AllVaultPaths(req) {
      return Err;
    }
    vault.Disturb();
    ghost var listed, listedDirs := ListedFiles(vault.files), ListedDirs(vault.dirs);
    var listing := vault.ListPaths();
    if listing.Err? || |listing.value| > MAX_TREE_ENTRIES || exists e | e in listing.value :: !IsVaultPath(e.path) {
      assert listing.Ok? ==> forall e | e in listing.value :: e.path in listed.Keys + listedDirs;
      return Err;
    }
    var current := listing.value;
    ListingSets(current, listed.Keys, listedDirs);
    var ok := CheckRequest(req, current);
    if !ok {
      return Err;
    }
    forall p | p in listed.Keys + listedDirs ensures IsVaultPath(p) {
      assert Entry(p, p in listed) in current;
    }
    forall d, p | d in OldDirs(req) && p in WritePaths(req) + NewDirs(req) ensures !Under(d, p) {
      assert EmptiedBy(req, listed.Keys, listedDirs, d);
    }
    r := Ok(set e | e in current && !e.isFile :: e.path);
  }

  lemma ListingSets(es: seq<Entry>, files: set<Path>, dirs: set<Path>)
    requires IsListing(es, files, dirs)
    ensures FilesOf(es) == files && DirsOf(es) == dirs
  {
    forall p ensures p in files <==> Entry(p, true) in es {}
    forall p ensures p in dirs <==> Entry(p, false) in es {}
  }

  // The directories a listing showed, and the conflicts found before anything is written.
  datatype Checked = Checked(existing: set<Path>, conflicts: seq<Conflict>)

  // Everything before the first change.
  method Check(vault: Store, req: Request) returns (r: Result<Checked>)
    requires vault.Valid()
    modifies vault`files, vault`dirs
    ensures vault.Valid()
    ensures r.Ok? ==> ValidTree(RequestEntries(req)) && NoneBeneath(req) && forall c | c in r.value.conflicts :: Real(req, c)
    ensures !vault.shared ==> vault.files == old(vault.files) && vault.dirs == old(vault.dirs)
    ensures !vault.shared && r.Ok? ==>
              && Admissible(req, vault.files, vault.dirs) && r.value.existing == ListedDirs(vault.dirs)
              && (r.value.conflicts == [] <==> Fresh(req, vault.files))
              && forall c :: c in r.value.conflicts <==> exists m | m in Mutations(req) ::
                   m.expected != At(vault.files, m.path) && c == Conflict(m.path, m.expected, At(vault.files, m.path))
    ensures !vault.shared && !vault.faulty ==> (r.Ok? <==> Admissible(req, vault.files, vault.dirs))
  {
    var admitted := Admit(vault, req);
    if admitted.Err? {
      return Err;
    }
    FreshMutations(req, old(vault.files));
    MutationPaths(req);
    var conflicts := Precheck(vault, req);
    if conflicts.Err? {
      return Err;
    }
    if !vault.shared {
      if conflicts.value == [] {
        forall m | m in Mutations(req) ensures m.expected == At(vault.files, m.path) {
          assert Conflict(m.path, m.expected, At(vault.files, m.path)) !in conflicts.value;
        }
      } else {
        assert conflicts.value[0] in conflicts.value;
      }
    }
    r := Ok(Checked(admitted.value, conflicts.value));
  }

  method Apply(vault: Store, req: Request) returns (r: Result<Report>)
    requires vault.Valid()
    modifies vault
    ensures vault.Valid()
    // Every change was asked for, and none is made by a refused request or a dry run.
    ensures LogGrows(old(vault.log), vault.log, req)
    ensures r.Err? || req.dryRun ==> vault.log == old(vault.log)
    // Either the comparison stops everything, or every mutation is accounted for; and
    // whoever else edits, the report tells the truth about what was done.
    ensures r.Ok? && !req.dryRun ==>
              || (Reported(req, r.value) && exists listed :: DirectoriesReported(req, listed, r.value))
              || (vault.log == old(vault.log) && r.value.conflicts != [] && r.value == Stopped(Conflicted, r.value.conflicts))
    ensures r.Ok? ==> Backed(req, old(vault.log), vault.log, r.value) && RightOutcome(r.value)
    ensures r.Ok? && r.value.outcome == Applied && !req.dryRun ==> AllMade(req, old(vault.log), vault.log)
    // With no other editor, the outcome is decided by the vault as it was.
    ensures !vault.shared && r.Ok? ==> Admissible(req, old(vault.files), old(vault.dirs))
    ensures !vault.shared && (r.Err? || req.dryRun || !Fresh(req, old(vault.files))) ==>
              vault.files == old(vault.files) && vault.dirs == old(vault.dirs) && vault.log == old(vault.log)
    ensures !vault.shared && r.Ok? && !Fresh(req, old(vault.files)) ==>
              && r.value == Stopped(Conflicted, r.value.conflicts)
              && forall c :: c in r.value.conflicts <==> exists m | m in Mutations(req) ::
                   m.expected != At(old(vault.files), m.path) && c == Conflict(m.path, m.expected, At(old(vault.files), m.path))
    ensures !vault.shared && r.Ok? && !req.dryRun && Fresh(req, old(vault.files)) ==>
              && DirectoriesReported(req, ListedDirs(old(vault.dirs)), r.value)
              && DirectoriesTold(req, r.value, old(vault.files).Keys, old(vault.dirs), vault.files.Keys, vault.dirs)
    ensures !vault.shared && r.Ok? && !req.dryRun && r.value.outcome == Applied ==>
              Fresh(req, old(vault.files)) && Performed(req, old(vault.files), old(vault.dirs), vault.files, vault.dirs)
    // On a healthy host it goes ahead exactly when it is admissible, and is then applied
    // exactly when it is fresh and nothing in the whole tree is in its way.
    ensures !vault.shared && !vault.faulty ==> (r.Ok? <==> Admissible(req, old(vault.files), old(vault.dirs)))
    ensures !vault.shared && !vault.faulty && r.Ok? && !req.dryRun ==>
              (r.value.outcome == Applied <==> Fresh(req, old(vault.files)) && Unobstructed(req, old(vault.files), old(vault.dirs)))
  {
    var checked := Check(vault, req);
    if checked.Err? {
      return Err;
    }
    if |checked.value.conflicts| > 0 {
      return Ok(Stopped(Conflicted, checked.value.conflicts));
    }
    if req.dryRun {
      return Ok(Stopped(Applied, []));
    }
    var report := Perform(vault, req, checked.value.existing);
    assert DirectoriesReported(req, checked.value.existing, report);
    r := Ok(report);
  }

  lemma MutationPaths(req: Request)
    ensures forall m | m in Mutations(req) :: m.path in WritePaths(req) + DeletePaths(req)
    ensures forall p | p in WritePaths(req) + DeletePaths(req) :: exists m | m in Mutations(req) :: m.path == p
  {
    var ms := Mutations(req);
    forall m | m in ms ensures m.path in WritePaths(req) + DeletePaths(req) {
      var i :| 0 <= i < |ms| && ms[i] == m;
      assert if i < |req.writes| then req.writes[i] in req.writes else req.deletes[i - |req.writes|] in req.deletes;
    }
    forall p | p in WritePaths(req) + DeletePaths(req) ensures exists m | m in ms :: m.path == p {
      if p in WritePaths(req) {
        var i :| 0 <= i < |req.writes| && req.writes[i].path == p;
        assert ms[i] in ms;
      } else {
        var i :| 0 <= i < |req.deletes| && req.deletes[i].path == p;
        assert ms[|req.writes| + i] in ms;
      }
    }
  }
}
