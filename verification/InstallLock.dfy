// acquireLock: a lock file that any number of callers, in any number of processes, fight
// over. Each filesystem call is one step, and steps of different callers interleave freely.

module InstallLock {
  import opened Wrappers
  import opened Machines

  const LOCK_STALE_MS := 20 * 60_000
  const LOCK_INIT_GRACE_MS := 10_000

  // One call of acquireLock; its token makes it unique.
  type Caller = nat
  type Pid = nat

  // A file as a caller sees it: inode, time of its last write, and the caller whose
  // "pid token" text it holds. None is text that names nobody, such as a half-written file.
  datatype LockFile = LockFile(ino: nat, mtime: nat, writer: Option<Caller>)

  datatype Pc =
    | Trying
    | Writing
    | Claimed(claim: LockFile)
    | Linked(file: LockFile)
    | Holding(file: LockFile)
    | Checking(file: LockFile)
    | Releasing(file: LockFile)
    | Blocked
    | Seen(ino: nat, mtime: nat, age: int)
    | Owned(ino: nat, mtime: nat, age: int, holder: Option<Pid>)
    | Stale(ino: nat, mtime: nat, holder: Option<Pid>)
    | Restatted(file: LockFile, holder: Option<Pid>)
    | Rechecked(file: LockFile, holder: Option<Pid>)
    | Waiting
    | Ended

  datatype State = State(now: nat, lock: Option<LockFile>, pcs: map<Caller, Pc>, pids: map<Caller, Pid>, alive: set<Pid>) {
    // lockOwner: the pid a lock file names.
    function OwnerOf(file: LockFile): Option<Pid> {
      if file.writer.Some? && file.writer.value in pids then Some(pids[file.writer.value]) else None
    }

    predicate Live(c: Caller) {
      c in pcs && c in pids && pids[c] in alive
    }

    // From the moment the link exists until the lock file is gone again.
    predicate Holds(c: Caller) {
      Live(c) && (pcs[c].Linked? || pcs[c].Holding? || pcs[c].Checking? || pcs[c].Releasing?)
    }

    function At(c: Caller, pc: Pc): State {
      this.(pcs := pcs[c := pc])
    }
  }

  datatype Action =
    | Tick(to: nat)
    | Crash(pid: Pid)
    | OpenClaim(c: Caller)
    | FinishClaim(c: Caller, ino: nat)
    | Link(c: Caller)
    | KeepLock(c: Caller)
    | GiveUp(c: Caller)
    | StatLock(c: Caller)
    | ReadOwner(c: Caller)
    | Judge(c: Caller)
    | StatAgain(c: Caller)
    | ReadAgain(c: Caller)
    | UnlinkStale(c: Caller)
    | Wake(c: Caller)
    | StatOwn(c: Caller)
    | ReadOwn(c: Caller)
    | UnlinkOwn(c: Caller)

  predicate Enabled(s: State, a: Action) {
    match a
    case Tick(to) => s.now <= to
    case Crash(pid) => pid in s.alive
    case OpenClaim(c) => s.Live(c) && s.pcs[c].Trying?
    case FinishClaim(c, _) => s.Live(c) && s.pcs[c].Writing?
    case Link(c) => s.Live(c) && s.pcs[c].Claimed?
    case KeepLock(c) => s.Live(c) && s.pcs[c].Linked?
    // An abort, or a filesystem error that is thrown on.
    case GiveUp(c) => s.Live(c) && (s.pcs[c].Trying? || s.pcs[c].Writing? || s.pcs[c].Claimed? || s.pcs[c].Linked? || s.pcs[c].Waiting?)
    case StatLock(c) => s.Live(c) && s.pcs[c].Blocked?
    case ReadOwner(c) => s.Live(c) && s.pcs[c].Seen?
    case Judge(c) => s.Live(c) && s.pcs[c].Owned?
    case StatAgain(c) => s.Live(c) && s.pcs[c].Stale?
    case ReadAgain(c) => s.Live(c) && s.pcs[c].Restatted?
    case UnlinkStale(c) => s.Live(c) && s.pcs[c].Rechecked?
    case Wake(c) => s.Live(c) && s.pcs[c].Waiting?
    case StatOwn(c) => s.Live(c) && s.pcs[c].Holding?
    case ReadOwn(c) => s.Live(c) && s.pcs[c].Checking?
    case UnlinkOwn(c) => s.Live(c) && s.pcs[c].Releasing?
  }

  // The decision the holder's age and liveness allow. A caller never probes its own process.
  predicate IsStale(s: State, c: Caller, age: int, holder: Option<Pid>)
    requires s.Live(c)
  {
    if age > LOCK_STALE_MS then true
    else if holder.None? then age > LOCK_INIT_GRACE_MS
    else holder.value != s.pids[c] && holder.value !in s.alive
  }

  function Do(s: State, a: Action): State
    requires Enabled(s, a)
  {
    match a
    case Tick(to) => s.(now := to)
    case Crash(pid) => s.(alive := s.alive - {pid})
    case OpenClaim(c) => s.At(c, Writing)
    case FinishClaim(c, ino) => s.At(c, Claimed(LockFile(ino, s.now, Some(c))))
    case Link(c) =>
      // link(2) fails when the path exists; the claim is removed before looking further.
      if s.lock.None? then s.At(c, Linked(s.pcs[c].claim)).(lock := Some(s.pcs[c].claim)) else s.At(c, Blocked)
    case KeepLock(c) => s.At(c, Holding(s.pcs[c].file))
    case GiveUp(c) => s.At(c, Ended)
    case StatLock(c) =>
      if s.lock.None? then s.At(c, Trying)
      else s.At(c, Seen(s.lock.value.ino, s.lock.value.mtime, s.now - s.lock.value.mtime))
    case ReadOwner(c) =>
      var seen := s.pcs[c];
      if s.lock.None? then s.At(c, Trying)
      else s.At(c, Owned(seen.ino, seen.mtime, seen.age, s.OwnerOf(s.lock.value)))
    case Judge(c) =>
      var seen := s.pcs[c];
      if IsStale(s, c, seen.age, seen.holder) then s.At(c, Stale(seen.ino, seen.mtime, seen.holder)) else s.At(c, Waiting)
    case StatAgain(c) =>
      var seen := s.pcs[c];
      if s.lock.Some? && s.lock.value.ino == seen.ino && s.lock.value.mtime == seen.mtime
      then s.At(c, Restatted(s.lock.value, seen.holder)) else s.At(c, Trying)
    case ReadAgain(c) =>
      var seen := s.pcs[c];
      if s.lock.Some? && s.OwnerOf(s.lock.value) == seen.holder then s.At(c, Rechecked(seen.file, seen.holder)) else s.At(c, Trying)
    case UnlinkStale(c) => s.At(c, Trying).(lock := None)
    case Wake(c) => s.At(c, Trying)
    case StatOwn(c) =>
      var held := s.pcs[c].file;
      if s.lock.Some? && s.lock.value.ino == held.ino then s.At(c, Checking(held)) else s.At(c, Ended)
    case ReadOwn(c) =>
      if s.lock.Some? && s.lock.value.writer == Some(c) then s.At(c, Releasing(s.pcs[c].file)) else s.At(c, Ended)
    case UnlinkOwn(c) => s.At(c, Ended).(lock := None)
  }

  // Nobody holds the lock at the start; a file left behind by an earlier process may be there.
  ghost predicate Init(s: State) {
    && (forall c | c in s.pcs :: s.pcs[c] == Trying)
    && (s.lock.Some? ==> s.lock.value.mtime <= s.now && (s.lock.value.writer.Some? ==> s.lock.value.writer.value !in s.pcs))
  }

  // A live holder's lock file is never older than the stale age.
  ghost predicate Punctual(s: State) {
    forall c | s.Holds(c) :: s.now - s.pcs[c].file.mtime <= LOCK_STALE_MS
  }

  // The recheck of a stale file is a stat and a read, and its unlink a third call; by then
  // the path can name another file, one that a caller holds.
  ghost predicate StealsHeldLock(s: State, a: Action) {
    a.UnlinkStale? && exists c :: s.Holds(c)
  }

  // No live caller can be holding this file: it is too old, names nobody, or names a process that is gone.
  ghost predicate Abandoned(s: State, mtime: nat, holder: Option<Pid>) {
    s.now - mtime > LOCK_STALE_MS || holder.None? || holder.value !in s.alive
  }

  ghost predicate SoundAt(s: State, c: Caller)
    requires c in s.pcs
  {
    match s.pcs[c]
    case Claimed(claim) => claim.writer == Some(c)
    case Linked(file) => file.writer == Some(c)
    case Holding(file) => file.writer == Some(c)
    case Checking(file) => file.writer == Some(c)
    case Releasing(file) => file.writer == Some(c)
    case Seen(_, mtime, age) => age <= s.now - mtime
    case Owned(_, mtime, age, _) => age <= s.now - mtime
    case Stale(_, mtime, holder) => Abandoned(s, mtime, holder)
    case Restatted(file, holder) => Abandoned(s, file.mtime, holder)
    case Rechecked(file, holder) => Abandoned(s, file.mtime, holder)
    case _ => true
  }

  ghost predicate Inv(s: State) {
    && (forall c | c in s.pcs :: SoundAt(s, c))
    && (forall c | s.Holds(c) :: s.lock == Some(s.pcs[c].file))
  }

  lemma StepKeepsSound(s: State, a: Action, c: Caller)
    requires c in s.pcs && Enabled(s, a) && SoundAt(s, c)
    ensures SoundAt(Do(s, a), c)
  {
  }

  lemma StepKeepsHolder(s: State, a: Action, c: Caller)
    requires Inv(s) && Enabled(s, a) && !StealsHeldLock(s, a)
    requires c in s.pcs
    ensures Do(s, a).Holds(c) ==> Do(s, a).lock == Some(Do(s, a).pcs[c].file)
  {
    assert SoundAt(s, c);
    if a.UnlinkStale? {
      assert !s.Holds(c);
    } else if a.UnlinkOwn? {
      assert SoundAt(s, a.c) && s.Holds(a.c);
    }
  }

  // A step keeps the invariant exactly when it does not steal a lock that is held.
  lemma StepKeepsInvExactlyWhen(s: State, a: Action)
    requires Inv(s) && Enabled(s, a)
    ensures Inv(Do(s, a)) <==> !StealsHeldLock(s, a)
  {
    if StealsHeldLock(s, a) {
      var c :| s.Holds(c);
      assert Do(s, a).Holds(c);
    } else {
      forall c | c in Do(s, a).pcs ensures SoundAt(Do(s, a), c) {
        StepKeepsSound(s, a, c);
      }
      forall c | Do(s, a).Holds(c) ensures Do(s, a).lock == Some(Do(s, a).pcs[c].file) {
        StepKeepsHolder(s, a, c);
      }
    }
  }

  // At the read and at the unlink the path still names the file of the stat, or nothing. It
  // must at the read too: what is read there can be the file of another caller in the
  // process that left the stale one.
  ghost predicate Undisturbed(s: State, a: Action) {
    (a.ReadAgain? || a.UnlinkStale?) && a.c in s.pcs && (s.pcs[a.c].Restatted? || s.pcs[a.c].Rechecked?) ==>
      s.lock == None || s.lock == Some(s.pcs[a.c].file)
  }

  // What a caller has reread is what the file of its stat says.
  ghost predicate Reread(s: State) {
    forall c | c in s.pcs && s.pcs[c].Rechecked? :: s.OwnerOf(s.pcs[c].file) == s.pcs[c].holder
  }

  // No such steal while holders are punctual and nobody comes between a stat and its unlink.
  lemma UndisturbedStealIsHarmless(s: State, a: Action)
    requires Inv(s) && Reread(s) && Punctual(s) && Enabled(s, a) && Undisturbed(s, a)
    ensures !StealsHeldLock(s, a) && Reread(Do(s, a))
  {
    if a.UnlinkStale? {
      assert SoundAt(s, a.c);
      forall c | c in s.pcs ensures !s.Holds(c) {
        assert SoundAt(s, c);
      }
    }
  }

  // The run never steals a lock that is held.
  ghost predicate Orderly(s: State, actions: seq<Action>)
    requires Runs(Do, s, actions)
    decreases |actions|
  {
    actions != [] ==> !StealsHeldLock(s, actions[0]) && Orderly(Do(s, actions[0]), actions[1..])
  }

  ghost predicate PunctualAndUndisturbed(s: State, actions: seq<Action>)
    requires Runs(Do, s, actions)
    decreases |actions|
  {
    actions != [] ==> Punctual(s) && Undisturbed(s, actions[0]) && PunctualAndUndisturbed(Do(s, actions[0]), actions[1..])
  }

  lemma {:induction false} UndisturbedRunIsOrderly(s: State, actions: seq<Action>)
    requires Inv(s) && Reread(s) && Runs(Do, s, actions) && PunctualAndUndisturbed(s, actions)
    ensures Orderly(s, actions)
    decreases |actions|
  {
    if actions != [] {
      UndisturbedStealIsHarmless(s, actions[0]);
      StepKeepsInvExactlyWhen(s, actions[0]);
      UndisturbedRunIsOrderly(Do(s, actions[0]), actions[1..]);
    }
  }

  // At most one live caller holds the lock; the lock file, unless it was there from the
  // start, names its writer; and a release removes nothing but the releasing caller's own
  // file, and undisturbed it does remove that.
  ghost predicate SafeAt(s: State, first: Option<LockFile>) {
    && (forall c, d | s.Holds(c) && s.Holds(d) :: c == d)
    && (s.lock.Some? && s.lock != first ==> s.lock.value.writer.Some?)
    && (forall c | s.Live(c) && s.pcs[c].Releasing? :: s.lock == Some(s.pcs[c].file) && s.pcs[c].file.writer == Some(c))
    && (forall c | s.Live(c) && s.pcs[c].Holding? ::
          EndsIn(s, [StatOwn(c), ReadOwn(c), UnlinkOwn(c)], s.(lock := None, pcs := s.pcs[c := Ended])))
  }

  lemma InvIsSafe(s: State, first: Option<LockFile>)
    requires Inv(s) && (s.lock.Some? && s.lock != first ==> s.lock.value.writer.Some?)
    ensures SafeAt(s, first)
  {
    forall c, d | s.Holds(c) && s.Holds(d) ensures c == d {
      assert SoundAt(s, c) && SoundAt(s, d);
    }
    forall c | s.Live(c) && s.pcs[c].Releasing? ensures s.lock == Some(s.pcs[c].file) && s.pcs[c].file.writer == Some(c) {
      assert SoundAt(s, c) && s.Holds(c);
    }
    forall c | s.Live(c) && s.pcs[c].Holding?
      ensures EndsIn(s, [StatOwn(c), ReadOwn(c), UnlinkOwn(c)], s.(lock := None, pcs := s.pcs[c := Ended]))
    {
      ReleaseFreesTheLock(s, c);
    }
  }

  lemma {:induction false} LockIsSafe(s: State, actions: seq<Action>, first: Option<LockFile>)
    requires Inv(s) && (s.lock.Some? && s.lock != first ==> s.lock.value.writer.Some?)
    requires Runs(Do, s, actions) && Orderly(s, actions)
    ensures SafeAt(StateAfter(Do, s, actions), first)
    decreases |actions|
  {
    if actions == [] {
      InvIsSafe(s, first);
    } else {
      StepKeepsInvExactlyWhen(s, actions[0]);
      if actions[0].Link? {
        assert SoundAt(s, actions[0].c);
      }
      LockIsSafe(Do(s, actions[0]), actions[1..], first);
    }
  }

  // From a fresh start, whatever file an earlier process left behind.
  lemma MutualExclusion(s: State, actions: seq<Action>)
    requires Init(s) && Runs(Do, s, actions) && Orderly(s, actions)
    ensures SafeAt(StateAfter(Do, s, actions), s.lock)
  {
    LockIsSafe(s, actions, s.lock);
  }

  // One step more at the end of a run.
  lemma {:induction false} RunsOn(s: State, actions: seq<Action>, a: Action)
    requires Runs(Do, s, actions) && Enabled(StateAfter(Do, s, actions), a)
    ensures Runs(Do, s, actions + [a]) && StateAfter(Do, s, actions + [a]) == Do(StateAfter(Do, s, actions), a)
    decreases |actions|
  {
    var more := actions + [a];
    if actions == [] {
      assert more[0] == a && more[1..] == [];
    } else {
      assert more[0] == actions[0] && more[1..] == actions[1..] + [a];
      RunsOn(Do(s, actions[0]), actions[1..], a);
    }
  }

  // The steps of a run, taken one after the other, end in t.
  ghost predicate EndsIn(s: State, actions: seq<Action>, t: State) {
    Runs(Do, s, actions) && StateAfter(Do, s, actions) == t
  }

  lemma EndsOn(s: State, actions: seq<Action>, t: State, a: Action, u: State)
    requires EndsIn(s, actions, t) && Enabled(t, a) && Do(t, a) == u
    ensures EndsIn(s, actions + [a], u)
  {
    RunsOn(s, actions, a);
  }

  lemma EndsAtOnce(s: State, a: Action, u: State)
    requires Enabled(s, a) && Do(s, a) == u
    ensures EndsIn(s, [a], u)
  {
    assert EndsIn(s, [], s) && [] + [a] == [a];
    EndsOn(s, [], s, a, u);
  }

  // A holder's release, undisturbed, leaves the path free.
  lemma ReleaseFreesTheLock(s: State, c: Caller)
    requires Inv(s) && s.Live(c) && s.pcs[c].Holding?
    ensures EndsIn(s, [StatOwn(c), ReadOwn(c), UnlinkOwn(c)], s.(lock := None, pcs := s.pcs[c := Ended]))
  {
    var file := s.pcs[c].file;
    assert SoundAt(s, c) && s.Holds(c);
    var checking, releasing := s.(pcs := s.pcs[c := Checking(file)]), s.(pcs := s.pcs[c := Releasing(file)]);
    EndsAtOnce(s, StatOwn(c), checking);
    EndsOn(s, [StatOwn(c)], checking, ReadOwn(c), releasing);
    EndsOn(s, [StatOwn(c)] + [ReadOwn(c)], releasing, UnlinkOwn(c), s.(lock := None, pcs := s.pcs[c := Ended]));
    assert [StatOwn(c)] + [ReadOwn(c)] + [UnlinkOwn(c)] == [StatOwn(c), ReadOwn(c), UnlinkOwn(c)];
  }

  // A release that finds another file than the one it linked, or none, removes nothing.
  lemma ReleaseLeavesOtherFiles(s: State, c: Caller)
    requires s.Live(c) && s.pcs[c].Holding?
    requires s.lock.None? || s.lock.value.ino != s.pcs[c].file.ino || s.lock.value.writer != Some(c)
    ensures || EndsIn(s, [StatOwn(c)], s.(pcs := s.pcs[c := Ended]))
            || EndsIn(s, [StatOwn(c), ReadOwn(c)], s.(pcs := s.pcs[c := Ended]))
  {
    var ended := s.(pcs := s.pcs[c := Ended]);
    if s.lock.Some? && s.lock.value.ino == s.pcs[c].file.ino {
      var checking := s.(pcs := s.pcs[c := Checking(s.pcs[c].file)]);
      EndsAtOnce(s, StatOwn(c), checking);
      EndsOn(s, [StatOwn(c)], checking, ReadOwn(c), ended);
      assert [StatOwn(c)] + [ReadOwn(c)] == [StatOwn(c), ReadOwn(c)];
    } else {
      EndsAtOnce(s, StatOwn(c), ended);
    }
  }

  // A caller with its claim written takes the lock where the path is free.
  lemma ClaimTakesTheFreeLock(s: State, c: Caller)
    requires s.Live(c) && s.pcs[c].Claimed? && s.lock == None
    ensures var file := s.pcs[c].claim;
            EndsIn(s, [Link(c), KeepLock(c)], s.(lock := Some(file), pcs := s.pcs[c := Holding(file)]))
  {
    var file := s.pcs[c].claim;
    var linked := s.(lock := Some(file), pcs := s.pcs[c := Linked(file)]);
    EndsAtOnce(s, Link(c), linked);
    EndsOn(s, [Link(c)], linked, KeepLock(c), s.(lock := Some(file), pcs := s.pcs[c := Holding(file)]));
    assert [Link(c)] + [KeepLock(c)] == [Link(c), KeepLock(c)];
  }

  // One caller's release and the next caller's link: the lock is handed on.
  lemma ReleasedLockIsTakenNext(s: State, c: Caller, d: Caller)
    requires Inv(s) && s.Live(c) && s.pcs[c].Holding? && s.Live(d) && s.pcs[d].Claimed?
    ensures var released := s.(lock := None, pcs := s.pcs[c := Ended]);
            && EndsIn(s, [StatOwn(c), ReadOwn(c), UnlinkOwn(c)], released)
            && EndsIn(released, [Link(d), KeepLock(d)],
                      s.(lock := Some(s.pcs[d].claim), pcs := s.pcs[c := Ended][d := Holding(s.pcs[d].claim)]))
  {
    ReleaseFreesTheLock(s, c);
    ClaimTakesTheFreeLock(s.(lock := None, pcs := s.pcs[c := Ended]), d);
  }

  // A lock file nobody needs to wait for: older than twenty minutes, or naming nobody for
  // more than ten seconds, or naming a process that is gone.
  ghost predicate Deserted(s: State, file: LockFile) {
    || s.now - file.mtime > 1_200_000
    || ((file.writer.None? || file.writer.value !in s.pids) && s.now - file.mtime > 10_000)
    || (file.writer.Some? && file.writer.value in s.pids && s.pids[file.writer.value] !in s.alive)
  }

  // So no lock stays for ever: when its holder dies, and at the latest when twenty minutes
  // have passed, its file is one.
  lemma EveryLockIsDesertedInTime(s: State, c: Caller, to: nat)
    requires Inv(s) && s.Holds(c) && to >= s.now && to > s.pcs[c].file.mtime + 1_200_000
    ensures Enabled(s, Crash(s.pids[c])) && Do(s, Crash(s.pids[c])).lock == s.lock && Deserted(Do(s, Crash(s.pids[c])), s.lock.value)
    ensures Enabled(s, Tick(to)) && Do(s, Tick(to)).lock == s.lock && Deserted(Do(s, Tick(to)), s.lock.value)
  {
    assert SoundAt(s, c);
  }

  // The steps of one attempt, as far as the decision about the file that is in its way.
  function Attempt(c: Caller, ino: nat): seq<Action> {
    [OpenClaim(c)] + [FinishClaim(c, ino)] + [Link(c)] + [StatLock(c)] + [ReadOwner(c)] + [Judge(c)]
  }

  function LooksAt(file: LockFile, now: nat): Pc {
    Seen(file.ino, file.mtime, now - file.mtime)
  }

  lemma AttemptLooks(s: State, c: Caller, ino: nat, file: LockFile)
    requires s.Live(c) && s.pcs[c] == Trying && s.lock == Some(file)
    ensures EndsIn(s, [OpenClaim(c)] + [FinishClaim(c, ino)] + [Link(c)] + [StatLock(c)], s.(pcs := s.pcs[c := LooksAt(file, s.now)]))
  {
    var claimed := s.(pcs := s.pcs[c := Claimed(LockFile(ino, s.now, Some(c)))]);
    EndsAtOnce(s, OpenClaim(c), s.(pcs := s.pcs[c := Writing]));
    EndsOn(s, [OpenClaim(c)], s.(pcs := s.pcs[c := Writing]), FinishClaim(c, ino), claimed);
    var actions := [OpenClaim(c)] + [FinishClaim(c, ino)];
    EndsOn(s, actions, claimed, Link(c), s.(pcs := s.pcs[c := Blocked]));
    EndsOn(s, actions + [Link(c)], s.(pcs := s.pcs[c := Blocked]), StatLock(c), s.(pcs := s.pcs[c := LooksAt(file, s.now)]));
  }

  // A caller judges a file stale exactly when it is deserted.
  lemma AttemptJudges(s: State, c: Caller, ino: nat, file: LockFile)
    requires s.Live(c) && s.pcs[c] == Trying && s.lock == Some(file)
    ensures var judged := if Deserted(s, file) then Stale(file.ino, file.mtime, s.OwnerOf(file)) else Waiting;
            EndsIn(s, Attempt(c, ino), s.(pcs := s.pcs[c := judged]))
  {
    var seen, owned := LooksAt(file, s.now), Owned(file.ino, file.mtime, s.now - file.mtime, s.OwnerOf(file));
    var judged := if Deserted(s, file) then Stale(file.ino, file.mtime, s.OwnerOf(file)) else Waiting;
    AttemptLooks(s, c, ino, file);
    var actions := [OpenClaim(c)] + [FinishClaim(c, ino)] + [Link(c)] + [StatLock(c)];
    EndsOn(s, actions, s.(pcs := s.pcs[c := seen]), ReadOwner(c), s.(pcs := s.pcs[c := owned]));
    EndsOn(s, actions + [ReadOwner(c)], s.(pcs := s.pcs[c := owned]), Judge(c), s.(pcs := s.pcs[c := judged]));
  }

  // A deserted file is removed by the caller that finds it, undisturbed, and a file that is
  // not is left in place and waited for; after the wait the caller tries again.
  lemma DesertedLockIsRemoved(s: State, c: Caller, ino: nat, file: LockFile)
    requires s.Live(c) && s.pcs[c] == Trying && s.lock == Some(file)
    ensures Deserted(s, file) ==>
              EndsIn(s, Attempt(c, ino) + [StatAgain(c)] + [ReadAgain(c)] + [UnlinkStale(c)], s.(lock := None))
    ensures !Deserted(s, file) ==>
              EndsIn(s, Attempt(c, ino), s.(pcs := s.pcs[c := Waiting])) && EndsIn(s, Attempt(c, ino) + [Wake(c)], s)
  {
    AttemptJudges(s, c, ino, file);
    assert s.pcs[c := Trying] == s.pcs;
    var holder := s.OwnerOf(file);
    if Deserted(s, file) {
      var stale, restatted, rechecked := Stale(file.ino, file.mtime, holder), Restatted(file, holder), Rechecked(file, holder);
      EndsOn(s, Attempt(c, ino), s.(pcs := s.pcs[c := stale]), StatAgain(c), s.(pcs := s.pcs[c := restatted]));
      EndsOn(s, Attempt(c, ino) + [StatAgain(c)], s.(pcs := s.pcs[c := restatted]), ReadAgain(c), s.(pcs := s.pcs[c := rechecked]));
      EndsOn(s, Attempt(c, ino) + [StatAgain(c)] + [ReadAgain(c)], s.(pcs := s.pcs[c := rechecked]), UnlinkStale(c), s.(lock := None));
    } else {
      EndsOn(s, Attempt(c, ino), s.(pcs := s.pcs[c := Waiting]), Wake(c), s);
    }
  }

  // The recheck: a file that is no longer the one that was judged stays where it is.
  lemma ReplacedFileIsLeftAlone(s: State, c: Caller)
    requires s.Live(c) && s.pcs[c].Stale?
    requires || s.lock.None?
             || s.lock.value.ino != s.pcs[c].ino
             || s.lock.value.mtime != s.pcs[c].mtime
             || s.OwnerOf(s.lock.value) != s.pcs[c].holder
    ensures || EndsIn(s, [StatAgain(c)], s.(pcs := s.pcs[c := Trying]))
            || EndsIn(s, [StatAgain(c), ReadAgain(c)], s.(pcs := s.pcs[c := Trying]))
  {
    var seen, trying := s.pcs[c], s.(pcs := s.pcs[c := Trying]);
    if s.lock.Some? && s.lock.value.ino == seen.ino && s.lock.value.mtime == seen.mtime {
      var restatted := s.(pcs := s.pcs[c := Restatted(s.lock.value, seen.holder)]);
      EndsAtOnce(s, StatAgain(c), restatted);
      EndsOn(s, [StatAgain(c)], restatted, ReadAgain(c), trying);
      assert [StatAgain(c)] + [ReadAgain(c)] == [StatAgain(c), ReadAgain(c)];
    } else {
      EndsAtOnce(s, StatAgain(c), trying);
    }
  }

  // t can follow from s in some number of steps, with every state on the way punctual.
  ghost predicate Leads(s: State, t: State) {
    exists states :: IsChain(states) && states[0] == s && states[|states| - 1] == t
  }

  ghost predicate IsChain(states: seq<State>) {
    && states != []
    && (forall i | 0 <= i < |states| :: Punctual(states[i]))
    && (forall i | 0 <= i < |states| - 1 :: Follows(states[i], states[i + 1]))
  }

  ghost predicate Follows(s: State, t: State) {
    exists a :: Enabled(s, a) && t == Do(s, a)
  }

  lemma LeadsOn(s: State, t: State, a: Action)
    requires Leads(s, t) && Enabled(t, a) && Punctual(Do(t, a))
    ensures Leads(s, Do(t, a))
  {
    var states :| IsChain(states) && states[0] == s && states[|states| - 1] == t;
    assert Follows(t, Do(t, a));
    assert IsChain(states + [Do(t, a)]);
  }

  // A caller that finds a lock file looks at it.
  lemma Looks(s0: State, s: State, c: Caller, left: LockFile)
    requires Leads(s0, s) && s.Live(c) && s.pcs[c] == Trying && s.lock == Some(left)
    requires forall d :: !s.Holds(d)
    ensures Leads(s0, s.At(c, Seen(left.ino, left.mtime, s.now - left.mtime)))
  {
    var t1, t2, t3 := s.At(c, Writing), s.At(c, Claimed(LockFile(0, s.now, Some(c)))), s.At(c, Blocked);
    LeadsOn(s0, s, OpenClaim(c));
    assert t1.At(c, Claimed(LockFile(0, s.now, Some(c)))) == t2;
    LeadsOn(s0, t1, FinishClaim(c, 0));
    assert t2.At(c, Blocked) == t3;
    LeadsOn(s0, t2, Link(c));
    assert t3.At(c, Seen(left.ino, left.mtime, s.now - left.mtime)) == s.At(c, Seen(left.ino, left.mtime, s.now - left.mtime));
    LeadsOn(s0, t3, StatLock(c));
  }

  // A caller that finds a file left by a dead process judges it to be stale.
  lemma Judges(s0: State, s: State, c: Caller, left: LockFile)
    requires Leads(s0, s) && s.Live(c) && s.pcs[c] == Trying && s.lock == Some(left)
    requires s.OwnerOf(left).Some? && s.OwnerOf(left).value !in s.alive
    requires forall d :: !s.Holds(d)
    ensures Leads(s0, s.At(c, Stale(left.ino, left.mtime, s.OwnerOf(left))))
  {
    var age, holder := s.now - left.mtime, s.OwnerOf(left);
    Looks(s0, s, c, left);
    var t4, t5 := s.At(c, Seen(left.ino, left.mtime, age)), s.At(c, Owned(left.ino, left.mtime, age, holder));
    assert t4.At(c, Owned(left.ino, left.mtime, age, holder)) == t5;
    LeadsOn(s0, t4, ReadOwner(c));
    assert t5.At(c, Stale(left.ino, left.mtime, holder)) == s.At(c, Stale(left.ino, left.mtime, holder));
    LeadsOn(s0, t5, Judge(c));
  }

  // And it gets as far as the unlink.
  lemma LooksAndJudges(s0: State, s: State, c: Caller, left: LockFile)
    requires Leads(s0, s) && s.Live(c) && s.pcs[c] == Trying && s.lock == Some(left)
    requires s.OwnerOf(left).Some? && s.OwnerOf(left).value !in s.alive
    requires forall d :: !s.Holds(d)
    ensures Leads(s0, s.At(c, Rechecked(left, s.OwnerOf(left))))
  {
    var holder := s.OwnerOf(left);
    Judges(s0, s, c, left);
    var t6, t7 := s.At(c, Stale(left.ino, left.mtime, holder)), s.At(c, Restatted(left, holder));
    assert t6.At(c, Restatted(left, holder)) == t7;
    LeadsOn(s0, t6, StatAgain(c));
    assert t7.At(c, Rechecked(left, holder)) == s.At(c, Rechecked(left, holder));
    LeadsOn(s0, t7, ReadAgain(c));
  }

  // A caller that finds no lock file takes the lock.
  lemma TakesTheLock(s0: State, s: State, c: Caller)
    requires Leads(s0, s) && s.Live(c) && s.pcs[c] == Trying && s.lock == None
    requires Punctual(s)
    ensures var file := LockFile(0, s.now, Some(c));
            Leads(s0, s.At(c, Linked(file)).(lock := Some(file)))
  {
    var file := LockFile(0, s.now, Some(c));
    var t1, t2 := s.At(c, Writing), s.At(c, Claimed(file));
    LeadsOn(s0, s, OpenClaim(c));
    assert t1.At(c, Claimed(file)) == t2;
    LeadsOn(s0, t1, FinishClaim(c, 0));
    assert t2.At(c, Linked(file)).(lock := Some(file)) == s.At(c, Linked(file)).(lock := Some(file));
    LeadsOn(s0, t2, Link(c));
  }

  // After any steal of a held lock, the caller that stole it can take the lock while the
  // other still holds it, with every holder punctual all the way.
  lemma StolenLockIsTakenTwice(s: State, a: Action)
    requires Inv(s) && Punctual(s) && Enabled(s, a) && StealsHeldLock(s, a)
    ensures exists t, d :: Leads(s, t) && d != a.c && t.Holds(a.c) && t.Holds(d)
  {
    var d :| s.Holds(d);
    assert IsChain([s]);
    LeadsOn(s, s, a);
    var t := Do(s, a);
    TakesTheLock(s, t, a.c);
    var file := LockFile(0, t.now, Some(a.c));
    var t' := t.At(a.c, Linked(file)).(lock := Some(file));
    assert d != a.c && t'.Holds(a.c) && t'.Holds(d);
  }

  // It happens: two callers recheck the same abandoned file, the first removes it and takes
  // the lock, and the second then removes the first one's lock and takes it too. No time
  // passes and nobody crashes.
  lemma DisturbedStealBreaksExclusion()
    ensures exists s, t :: Init(s) && Leads(s, t) && t.Holds(1) && t.Holds(2)
  {
    var left := LockFile(0, 0, Some(9));
    var s := State(0, Some(left), map[1 := Trying, 2 := Trying], map[1 := 11, 2 := 12, 9 := 99], {11, 12});
    assert IsChain([s]);
    LooksAndJudges(s, s, 1, left);
    LooksAndJudges(s, s.At(1, Rechecked(left, Some(99))), 2, left);
    BothSteal(s, left);
  }

  lemma BothSteal(s: State, left: LockFile)
    requires s == State(0, Some(left), map[1 := Trying, 2 := Trying], map[1 := 11, 2 := 12, 9 := 99], {11, 12})
    requires Leads(s, s.At(1, Rechecked(left, Some(99))).At(2, Rechecked(left, Some(99))))
    ensures exists t :: Leads(s, t) && t.Holds(1) && t.Holds(2)
  {
    var file1, file2 := LockFile(0, 0, Some(1)), LockFile(0, 0, Some(2));
    var t2 := s.At(1, Rechecked(left, Some(99))).At(2, Rechecked(left, Some(99)));
    LeadsOn(s, t2, UnlinkStale(1));
    var t3 := t2.At(1, Trying).(lock := None);
    TakesTheLock(s, t3, 1);
    var t4 := t3.At(1, Linked(file1)).(lock := Some(file1));
    LeadsOn(s, t4, UnlinkStale(2));
    var t5 := t4.At(2, Trying).(lock := None);
    TakesTheLock(s, t5, 2);
    var t6 := t5.At(2, Linked(file2)).(lock := Some(file2));
    assert t6.Holds(1) && t6.Holds(2);
  }
}
