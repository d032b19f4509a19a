// attachRuntime: one install job shared by the requests that wait for it, aborted some
// time after the last of them has left.

module InstallJob {
  import opened Wrappers
  import opened Machines

  type JobId = nat
  type Request = nat

  // The timer handle of a job: the source clears it in attach and in cleanup, but a timer
  // that has fired leaves its handle behind.
  datatype Timer = NoTimer | Pending | Fired

  datatype Job = Job(
    waiters: int,
    timer: Timer,
    aborted: bool,
    settled: bool,
    disposals: nat)       // how often its worker lease was disposed

  datatype State = State(
    job: Option<JobId>,
    jobs: map<JobId, Job>,
    created: nat,
    attached: map<Request, JobId>,     // requests that have attached and not detached
    cleaned: set<JobId>)
  {
    ghost function AttachedTo(j: JobId): set<Request> {
      set r | r in attached && attached[r] == j
    }

    function Current(): (s: State)
    {
      if job.Some? then this
      else this.(job := Some(created), jobs := jobs[created := Job(0, NoTimer, false, false, 0)], created := created + 1)
    }
  }

  datatype Event =
    | Attach(r: Request)
    | Detach(r: Request)       // a finally block or the abort of the request, whichever comes first
    | TimerFires(j: JobId)
    | Settle(j: JobId)         // the job's promise resolves or rejects
    | CleanUp(j: JobId)        // the finally of the job's promise
    | Dispose

  predicate Possible(s: State, e: Event) {
    match e
    case Attach(r) => r !in s.attached
    case TimerFires(j) => j in s.jobs && s.jobs[j].timer.Pending?
    case Settle(j) => j in s.jobs && !s.jobs[j].settled
    case CleanUp(j) => j in s.jobs && s.jobs[j].settled && j !in s.cleaned
    case _ => true
  }

  function After(s: State, e: Event): State
    requires Possible(s, e)
    requires Linked(s)
  {
    match e
    case Attach(r) =>
      var t := s.Current();
      var current := t.job.value;
      var job := t.jobs[current];
      t.(jobs := t.jobs[current := job.(waiters := job.waiters + 1, timer := NoTimer)], attached := t.attached[r := current])
    case Detach(r) =>
      if r !in s.attached then s
      else
        var current := s.attached[r];
        var left := s.jobs[current].(waiters := s.jobs[current].waiters - 1);
        s.(attached := s.attached - {r},
           jobs := s.jobs[current := if left.waiters > 0 || s.job != Some(current) || !left.timer.NoTimer? then left else left.(timer := Pending)])
    case TimerFires(j) =>
      var fired := s.jobs[j].(timer := Fired);
      s.(jobs := s.jobs[j := if fired.waiters == 0 && s.job == Some(j) then fired.(aborted := true) else fired])
    case Settle(j) => s.(jobs := s.jobs[j := s.jobs[j].(settled := true)])
    case CleanUp(j) =>
      s.(job := if s.job == Some(j) then None else s.job,
         jobs := s.jobs[j := s.jobs[j].(timer := NoTimer, disposals := s.jobs[j].disposals + 1)],
         cleaned := s.cleaned + {j})
    case Dispose =>
      if s.job.Some? then s.(jobs := s.jobs[s.job.value := s.jobs[s.job.value].(aborted := true)]) else s
  }

  // Every reference is to a job that exists.
  predicate Linked(s: State) {
    && (s.job.Some? ==> s.job.value in s.jobs)
    && (forall r | r in s.attached :: s.attached[r] in s.jobs)
  }

  function Fresh(): State {
    State(None, map[], 0, map[], {})
  }

  ghost predicate JobInv(s: State, j: JobId)
    requires j in s.jobs
  {
    var job := s.jobs[j];
    // The waiter count is the number of attached requests, so it is never negative.
    && job.waiters == |s.AttachedTo(j)|
    // A pending timer means nobody is attached, and the job is still the current one.
    && (job.timer.Pending? ==> job.waiters == 0 && s.job == Some(j))
    && (job.timer.Fired? ==> job.aborted)
    // A current job nobody waits for is about to be aborted, or was.
    && (s.job == Some(j) && job.waiters == 0 ==> !job.timer.NoTimer?)
    // The lease is disposed once, by the cleanup.
    && job.disposals == (if j in s.cleaned then 1 else 0)
    && (j in s.cleaned ==> job.settled && s.job != Some(j))
  }

  ghost predicate Inv(s: State) {
    && Linked(s)
    && (forall j | j in s.jobs :: j < s.created && JobInv(s, j))
    && (forall j | j in s.cleaned :: j in s.jobs)
  }

  lemma AttachCreates(s: State, r: Request)
    requires Inv(s) && r !in s.attached && s.job.None?
    ensures var s' := After(s, Attach(r)); s'.job == Some(s.created) && JobInv(s', s.created)
  {
    var s' := After(s, Attach(r));
    assert s.created !in s.jobs && s.created !in s.cleaned;
    assert s'.AttachedTo(s.created) == {r};
    assert s'.jobs[s.created] == Job(1, NoTimer, false, false, 0);
  }

  lemma AttachJoins(s: State, r: Request)
    requires Inv(s) && r !in s.attached && s.job.Some?
    ensures var s' := After(s, Attach(r)); s'.job == s.job && JobInv(s', s.job.value)
  {
    var s', j := After(s, Attach(r)), s.job.value;
    assert JobInv(s, j);
    assert s'.AttachedTo(j) == s.AttachedTo(j) + {r};
    assert s'.jobs[j] == s.jobs[j].(waiters := s.jobs[j].waiters + 1, timer := NoTimer);
  }

  lemma AttachSpares(s: State, r: Request, j: JobId)
    requires Inv(s) && r !in s.attached && j in s.jobs && s.job != Some(j)
    ensures JobInv(After(s, Attach(r)), j)
  {
    var s' := After(s, Attach(r));
    assert JobInv(s, j);
    assert s'.AttachedTo(j) == s.AttachedTo(j);
    assert s'.jobs[j] == s.jobs[j];
  }

  lemma AttachKeepsJob(s: State, r: Request, j: JobId)
    requires Inv(s) && r !in s.attached && j in After(s, Attach(r)).jobs
    ensures j < After(s, Attach(r)).created && JobInv(After(s, Attach(r)), j)
  {
    if j !in s.jobs {
      AttachCreates(s, r);
    } else if s.job == Some(j) {
      AttachJoins(s, r);
    } else {
      AttachSpares(s, r, j);
    }
  }

  lemma DetachKeepsJob(s: State, r: Request, j: JobId)
    requires Inv(s) && r in s.attached && j in s.jobs
    ensures JobInv(After(s, Detach(r)), j)
  {
    var s' := After(s, Detach(r));
    assert r in s.AttachedTo(s.attached[r]);
    assert s'.AttachedTo(j) == s.AttachedTo(j) - if j == s.attached[r] then {r} else {};
    assert JobInv(s, j);
  }

  lemma OtherEventKeepsJob(s: State, e: Event, j: JobId)
    requires Inv(s) && Possible(s, e) && !e.Attach? && !e.Detach? && j in s.jobs
    ensures j in After(s, e).jobs && JobInv(After(s, e), j)
  {
    assert After(s, e).AttachedTo(j) == s.AttachedTo(j);
    assert JobInv(s, j);
  }

  lemma EventKeepsInv(s: State, e: Event)
    requires Inv(s) && Possible(s, e)
    ensures Inv(After(s, e))
  {
    forall j | j in After(s, e).jobs ensures j < After(s, e).created && JobInv(After(s, e), j) {
      match e {
        case Attach(r) => AttachKeepsJob(s, r, j);
        case Detach(r) =>
          if r in s.attached {
            DetachKeepsJob(s, r, j);
          }
        case _ => OtherEventKeepsJob(s, e, j);
      }
    }
  }

  // What each callback means to its caller.

  // The request waits for the current job, a new one if there was none, and that job is not
  // about to be abandoned; no other request and no other job notices.
  ghost predicate Joined(s: State, r: Request, s': State) {
    && s'.job.Some? && (if s.job.Some? then s'.job == s.job else s'.job.value !in s.jobs)
    && s'.attached == s.attached[r := s'.job.value]
    && s'.job.value in s'.jobs && s'.jobs[s'.job.value].timer.NoTimer? && s'.jobs[s'.job.value].waiters >= 1
    && (forall j | j in s.jobs && s.job != Some(j) :: j in s'.jobs && s'.jobs[j] == s.jobs[j])
  }

  // A request leaves once. The last one to leave the current job starts its timer, or finds
  // it fired; while others stay nothing about the job changes but the count.
  ghost predicate Left(s: State, r: Request, s': State) {
    && s'.attached == s.attached - {r} && s'.job == s.job
    && (r !in s.attached ==> s' == s)
    && (r in s.attached ==>
          var j := s.attached[r];
          && j in s.jobs && j in s'.jobs && s'.jobs[j].waiters == s.jobs[j].waiters - 1 == |s'.AttachedTo(j)|
          && (s.job == Some(j) && s'.AttachedTo(j) == {} ==> !s'.jobs[j].timer.NoTimer?)
          && (s'.AttachedTo(j) != {} ==> !s'.jobs[j].timer.Pending? && s'.jobs[j].timer == s.jobs[j].timer))
  }

  // The current job is aborted, and nobody waits for it.
  ghost predicate Abandoned(s: State, j: JobId, s': State) {
    s.job == s'.job == Some(j) && s'.AttachedTo(j) == {} && j in s'.jobs && s'.jobs[j].aborted
  }

  // The lease of the job is disposed for the first and last time, no timer of it is left,
  // and the next request gets a new job.
  ghost predicate CleanedUp(s: State, j: JobId, s': State) {
    && j in s.jobs && j in s'.jobs && s.jobs[j].disposals == 0 && s'.jobs[j].disposals == 1 && s'.jobs[j].timer.NoTimer?
    && s'.job == (if s.job == Some(j) then None else s.job)
  }

  lemma AttachJoinsRequest(s: State, r: Request)
    requires Inv(s) && r !in s.attached
    ensures Inv(After(s, Attach(r))) && Joined(s, r, After(s, Attach(r)))
  {
    EventKeepsInv(s, Attach(r));
    var s' := After(s, Attach(r));
    assert r in s'.AttachedTo(s'.job.value) && JobInv(s', s'.job.value);
  }

  lemma DetachLeaves(s: State, r: Request)
    requires Inv(s)
    ensures Inv(After(s, Detach(r))) && Left(s, r, After(s, Detach(r)))
  {
    EventKeepsInv(s, Detach(r));
    if r in s.attached {
      assert JobInv(s, s.attached[r]) && JobInv(After(s, Detach(r)), s.attached[r]);
    } else {
      assert s.attached - {r} == s.attached;
    }
  }

  lemma TimerAbandons(s: State, j: JobId)
    requires Inv(s) && Possible(s, TimerFires(j))
    ensures Inv(After(s, TimerFires(j))) && Abandoned(s, j, After(s, TimerFires(j)))
  {
    EventKeepsInv(s, TimerFires(j));
    assert JobInv(s, j);
  }

  lemma CleanupDisposes(s: State, j: JobId)
    requires Inv(s) && Possible(s, CleanUp(j))
    ensures Inv(After(s, CleanUp(j))) && CleanedUp(s, j, After(s, CleanUp(j)))
  {
    EventKeepsInv(s, CleanUp(j));
    assert JobInv(s, j);
  }

  // The variables of the source, as its callbacks change them.
  class RuntimeHost {
    var job: Option<JobId>
    var jobs: map<JobId, Job>
    var created: nat
    var attached: map<Request, JobId>
    var cleaned: set<JobId>

    function View(): State
      reads this
    {
      State(job, jobs, created, attached, cleaned)
    }

    ghost predicate Valid()
      reads this
    {
      Inv(View())
    }

    constructor ()
      ensures Valid() && View() == Fresh()
    {
      job, jobs, created, attached, cleaned := None, map[], 0, map[], {};
    }

    // The part of attachRuntime after the check of an already resolved runtime.
    method AttachRuntime(r: Request)
      requires Valid() && r !in attached
      modifies this
      ensures View() == After(old(View()), Attach(r))
      ensures Valid() && Joined(old(View()), r, View())
    {
      AttachJoinsRequest(View(), r);
      if job.None? {
        jobs := jobs[created := Job(0, NoTimer, false, false, 0)];
        job := Some(created);
        created := created + 1;
      }
      var current := job.value;
      jobs := jobs[current := jobs[current].(waiters := jobs[current].waiters + 1)];
      if !jobs[current].timer.NoTimer? {
        jobs := jobs[current := jobs[current].(timer := NoTimer)];
      }
      attached := attached[r := current];
    }

    method DetachRequest(r: Request)
      requires Valid()
      modifies this
      ensures View() == After(old(View()), Detach(r))
      ensures Valid() && Left(old(View()), r, View())
    {
      DetachLeaves(View(), r);
      if r !in attached {
        return;
      }
      var current := attached[r];
      attached := attached - {r};
      jobs := jobs[current := jobs[current].(waiters := jobs[current].waiters - 1)];
      if jobs[current].waiters > 0 || job != Some(current) || !jobs[current].timer.NoTimer? {
        return;
      }
      jobs := jobs[current := jobs[current].(timer := Pending)];
    }

    method AbandonTimer(j: JobId)
      requires Valid() && j in jobs && jobs[j].timer.Pending?
      modifies this
      ensures View() == After(old(View()), TimerFires(j))
      ensures Valid() && Abandoned(old(View()), j, View())
    {
      TimerAbandons(View(), j);
      jobs := jobs[j := jobs[j].(timer := Fired)];
      if jobs[j].waiters == 0 && job == Some(j) {
        jobs := jobs[j := jobs[j].(aborted := true)];
      }
    }

    method Cleanup(j: JobId)
      requires Valid() && j in jobs && jobs[j].settled && j !in cleaned
      modifies this
      ensures View() == After(old(View()), CleanUp(j))
      ensures Valid() && CleanedUp(old(View()), j, View())
    {
      CleanupDisposes(View(), j);
      if job == Some(j) {
        job := None;
      }
      jobs := jobs[j := jobs[j].(timer := NoTimer, disposals := jobs[j].disposals + 1)];
      cleaned := cleaned + {j};
    }
  }

  // After every interleaving of the events: each job's count is the number of requests that
  // have attached to it and not left, its lease was disposed at most once and only by the
  // cleanup, and a job some request waits for has no timer pending.
  lemma JobsAreAccountedFor(events: seq<Event>, j: JobId)
    requires Runs(After, Fresh(), events) && j in StateAfter(After, Fresh(), events).jobs
    ensures var s := StateAfter(After, Fresh(), events);
            && s.jobs[j].waiters == |s.AttachedTo(j)|
            && s.jobs[j].disposals == (if j in s.cleaned then 1 else 0)
            && (s.AttachedTo(j) != {} ==> !s.jobs[j].timer.Pending?)
            && (s.job == Some(j) ==> j !in s.cleaned && (s.AttachedTo(j) == {} ==> !s.jobs[j].timer.NoTimer?))
  {
    FromTheStart(events);
    assert JobInv(StateAfter(After, Fresh(), events), j);
  }

  // A job is aborted by its own timer and by the end of the host, and by nothing else.
  lemma AbortedExactlyBy(s: State, e: Event, j: JobId)
    requires Inv(s) && Possible(s, e) && j in s.jobs && !s.jobs[j].aborted
    ensures j in After(s, e).jobs
    ensures After(s, e).jobs[j].aborted <==> e == TimerFires(j) || (e == Dispose && s.job == Some(j))
  {
    assert JobInv(s, j);
  }

  // Every job there is can still come to its end, and then its lease is given back once and
  // the next request starts another job.
  lemma EveryJobCanEnd(s: State, j: JobId, r: Request)
    requires Inv(s) && j in s.jobs && j !in s.cleaned && r !in s.attached
    ensures var t := if s.jobs[j].settled then s else s.(jobs := s.jobs[j := s.jobs[j].(settled := true)]);
            && (t == s || (Possible(s, Settle(j)) && After(s, Settle(j)) == t))
            && Inv(t) && Possible(t, CleanUp(j))
            && var u := After(t, CleanUp(j));
               && Inv(u) && u.jobs[j].disposals == 1 && u.job != Some(j)
               && Possible(u, Attach(r)) && After(u, Attach(r)).attached[r] != j
  {
    var t := if s.jobs[j].settled then s else s.(jobs := s.jobs[j := s.jobs[j].(settled := true)]);
    if t != s {
      EventKeepsInv(s, Settle(j));
    }
    EventKeepsInv(t, CleanUp(j));
    assert JobInv(t, j);
  }

  lemma FromTheStart(events: seq<Event>)
    requires Runs(After, Fresh(), events)
    ensures Inv(StateAfter(After, Fresh(), events))
  {
    forall s, e | Inv(s) && After.requires(s, e) ensures Inv(After(s, e)) {
      EventKeepsInv(s, e);
    }
    EveryRunKeeps(After, Inv, Fresh(), events);
  }

  // The timer aborts a job only when nobody is attached to it, and always does.
  lemma TimerAbortsOnlyTheAbandoned(events: seq<Event>, j: JobId)
    requires Runs(After, Fresh(), events) && Possible(StateAfter(After, Fresh(), events), TimerFires(j))
    ensures var s := StateAfter(After, Fresh(), events);
            s.AttachedTo(j) == {} && Linked(s) && After(s, TimerFires(j)).jobs[j].aborted
  {
    FromTheStart(events);
    assert JobInv(StateAfter(After, Fresh(), events), j);
  }
}
