// The Keep Awake host worker: one caffeinate child, restarted a moment after it ends,
// while the plugin wants the machine awake.

module KeepAwakeHost {
  import opened Wrappers
  import opened Machines

  type ChildId = nat
  type LeaseId = nat
  type SignalId = nat

  // What the worker has done to the outside world, and what the outside world has done.
  datatype World = World(
    spawned: nat,                  // children are numbered in order of spawning
    ended: set<ChildId>,
    terminated: set<ChildId>,      // sent SIGTERM
    leases: nat,                   // leases are numbered in order of retaining
    disposed: multiset<LeaseId>,
    bound: set<SignalId>,          // signals whose abort disposes the state
    aborted: set<SignalId>)

  datatype State = State(
    darwin: bool,
    child: Option<ChildId>,
    lifecycle: Option<SignalId>,
    desired: bool,
    timer: bool,
    lease: Option<LeaseId>,
    world: World)
  {
    predicate LifecycleAborted() {
      lifecycle.Some? && lifecycle.value in world.aborted
    }

    function Stopped(): State {
      this.(child := None, world := if child.Some? then world.(terminated := world.terminated + {child.value}) else world)
    }

    function Released(): State {
      this.(lease := None, world := if lease.Some? then world.(disposed := world.disposed + multiset{lease.value}) else world)
    }

    function Off(): State {
      this.(desired := false, timer := false).Stopped().Released()
    }

    function RestartScheduled(): State {
      if desired && !LifecycleAborted() then this.(timer := true) else this
    }

    // spawnOk: whether the spawn call succeeds.
    function Started(spawnOk: bool): State {
      if child.Some? || timer || !desired || !darwin || LifecycleAborted() then this
      else if spawnOk then this.(child := Some(world.spawned), world := world.(spawned := world.spawned + 1))
      else RestartScheduled()
    }
  }

  datatype Event =
    | SetEnabled(signal: SignalId, enabled: bool, spawnOk: bool)
    | TimerFires(spawnOk: bool)
    | ChildEnds(id: ChildId)
    | Abort(signal: SignalId)
    | Dispose

  predicate Possible(s: State, e: Event) {
    match e
    case TimerFires(_) => s.timer
    case ChildEnds(id) => id < s.world.spawned && id !in s.world.ended
    case Abort(signal) => signal !in s.world.aborted
    case _ => true
  }

  // The state after an event.
  function After(s: State, e: Event): State
    requires Possible(s, e)
  {
    match e
    case SetEnabled(signal, enabled, spawnOk) =>
      var bound := s.(lifecycle := Some(signal), world := s.world.(bound := s.world.bound + {signal}));
      if !(s.darwin && enabled) then bound.Off()
      else
        var leased := if bound.lease.Some? then bound
                      else bound.(lease := Some(bound.world.leases), world := bound.world.(leases := bound.world.leases + 1));
        leased.(desired := true).Started(spawnOk)
    case TimerFires(spawnOk) => s.(timer := false).Started(spawnOk)
    case ChildEnds(id) =>
      var gone := s.(world := s.world.(ended := s.world.ended + {id}));
      if s.child == Some(id) then gone.(child := None).RestartScheduled() else gone
    case Abort(signal) =>
      var late := s.(world := s.world.(aborted := s.world.aborted + {signal}));
      if signal in s.world.bound then late.Off() else late
    case Dispose => s.Off()
  }

  function Fresh(darwin: bool): State {
    State(darwin, None, None, false, false, None, World(0, {}, {}, 0, multiset{}, {}, {}))
  }

  // What holds in the middle of a handler too.
  ghost predicate Kept(s: State) {
    // A pending restart and a tracked child exclude each other.
    && (s.timer ==> s.child.None?)
    // Not wanted: nothing is kept.
    && (!s.desired ==> s.child.None? && !s.timer && s.lease.None?)
    // Wanted: a lease that keeps the worker up.
    && (s.desired ==> s.darwin && s.lease.Some?)
    && ChildrenKept(s.child, s.world) && LeasesKept(s.lease, s.world)
    && (s.lifecycle.Some? ==> s.lifecycle.value in s.world.bound)
  }

  // No child is forgotten.
  ghost predicate ChildrenKept(child: Option<ChildId>, world: World) {
    && (forall id | 0 <= id < world.spawned && id !in world.ended :: child == Some(id) || id in world.terminated)
    && (child.Some? ==> child.value < world.spawned && child.value !in world.ended && child.value !in world.terminated)
    && (forall id | id in world.terminated || id in world.ended :: id < world.spawned)
  }

  // Every lease is held or was given back, once.
  ghost predicate LeasesKept(lease: Option<LeaseId>, world: World) {
    && (forall l | 0 <= l < world.leases :: lease == Some(l) || l in world.disposed)
    && (forall l | l in world.disposed :: l < world.leases && world.disposed[l] == 1)
    && (lease.Some? ==> lease.value < world.leases && lease.value !in world.disposed)
  }

  // Between handlers: wanted, and still alive, there is a child, or one to come.
  ghost predicate Inv(s: State) {
    Kept(s) && (s.desired && !s.LifecycleAborted() ==> s.child.Some? || s.timer)
  }

  lemma ChildForgotten(child: Option<ChildId>, world: World)
    requires ChildrenKept(child, world)
    ensures ChildrenKept(None, if child.Some? then world.(terminated := world.terminated + {child.value}) else world)
  {
  }

  lemma LeaseForgotten(lease: Option<LeaseId>, world: World)
    requires LeasesKept(lease, world)
    ensures LeasesKept(None, if lease.Some? then world.(disposed := world.disposed + multiset{lease.value}) else world)
  {
  }

  // What the handlers mean to the machine that is to be kept awake.

  // Nothing is kept, and what was kept was told to stop and given back.
  ghost predicate SwitchedOff(s: State, s': State) {
    && !s'.desired && s'.child.None? && !s'.timer && s'.lease.None?
    && (s.child.Some? ==> s.child.value in s'.world.terminated)
    && (s.lease.Some? ==> s'.world.disposed[s.lease.value] == 1)
    && s'.world.spawned == s.world.spawned && s'.world.leases == s.world.leases
  }

  // A child runs or will, and a lease is held; what was there already stays.
  ghost predicate SwitchedOn(s: State, s': State) {
    && s'.desired && s'.lease.Some? && (s'.LifecycleAborted() || s'.child.Some? || s'.timer)
    && (s.child.Some? ==> s'.child == s.child) && (s.timer ==> s'.timer) && (s.lease.Some? ==> s'.lease == s.lease)
    && s'.world.terminated == s.world.terminated && s'.world.disposed == s.world.disposed
    && s'.world.spawned <= s.world.spawned + 1 && (s.child.Some? || s.timer ==> s'.world.spawned == s.world.spawned)
  }

  lemma OffKeepsInv(s: State)
    requires Kept(s)
    ensures Inv(s.Off()) && SwitchedOff(s, s.Off())
  {
    ChildForgotten(s.child, s.world);
    LeaseForgotten(s.lease, s.world);
  }

  lemma StartKeepsInv(s: State, spawnOk: bool)
    requires Kept(s)
    ensures var s' := s.Started(spawnOk);
            && Inv(s')
            && (s.desired ==> SwitchedOn(s, s'))
            && (!s.desired || s.LifecycleAborted() ==> s' == s)
            && (spawnOk && s.desired && !s.LifecycleAborted() && !s.timer ==> s'.child.Some? && !s'.timer)
  {
    forall id | 0 <= id < s.world.spawned + 1 && id !in s.world.ended
      ensures id == s.world.spawned || s.child == Some(id) || id in s.world.terminated
    {
    }
  }

  lemma SetEnabledKeepsInv(s: State, signal: SignalId, enabled: bool, spawnOk: bool)
    requires Inv(s)
    ensures var s' := After(s, SetEnabled(signal, enabled, spawnOk));
            Inv(s') && if s.darwin && enabled then SwitchedOn(s, s') else SwitchedOff(s, s')
  {
    var bound := s.(lifecycle := Some(signal), world := s.world.(bound := s.world.bound + {signal}));
    if s.darwin && enabled {
      var leased := if bound.lease.Some? then bound
                    else bound.(lease := Some(bound.world.leases), world := bound.world.(leases := bound.world.leases + 1));
      assert LeasesKept(leased.lease, leased.world);
      assert ChildrenKept(leased.child, leased.world);
      StartKeepsInv(leased.(desired := true), spawnOk);
    } else {
      OffKeepsInv(bound);
    }
  }

  lemma TimerKeepsInv(s: State, spawnOk: bool)
    requires Inv(s) && s.timer
    ensures var s' := After(s, TimerFires(spawnOk));
            && Inv(s') && s'.desired && s'.lease == s.lease
            && (s.LifecycleAborted() ==> s'.child.None? && !s'.timer)
            && (!s.LifecycleAborted() ==> if spawnOk then s'.child == Some(s.world.spawned) && !s'.timer else s'.child.None? && s'.timer)
  {
    StartKeepsInv(s.(timer := false), spawnOk);
  }

  // The end of the tracked child: a restart is scheduled, unless the lifecycle is over. The
  // end of any other child is only recorded.
  ghost predicate Ended(s: State, id: ChildId, s': State) {
    var gone := s.(world := s.world.(ended := s.world.ended + {id}));
    s' == if s.child == Some(id) then gone.(child := None, timer := !s.LifecycleAborted()) else gone
  }

  lemma ChildEndKeepsInv(s: State, id: ChildId)
    requires Inv(s) && Possible(s, ChildEnds(id))
    ensures Inv(After(s, ChildEnds(id))) && Ended(s, id, After(s, ChildEnds(id)))
  {
  }

  lemma AbortKeepsInv(s: State, signal: SignalId)
    requires Inv(s) && Possible(s, Abort(signal))
    ensures var s' := After(s, Abort(signal));
            && Inv(s')
            && if signal in s.world.bound then SwitchedOff(s, s')
               else s' == s.(world := s.world.(aborted := s.world.aborted + {signal}))
  {
    var late := s.(world := s.world.(aborted := s.world.aborted + {signal}));
    assert ChildrenKept(late.child, late.world) && LeasesKept(late.lease, late.world);
    if signal in s.world.bound {
      OffKeepsInv(late);
    }
  }

  lemma EventKeepsInv(s: State, e: Event)
    requires Inv(s) && Possible(s, e)
    ensures Inv(After(s, e))
  {
    match e {
      case SetEnabled(signal, enabled, spawnOk) => SetEnabledKeepsInv(s, signal, enabled, spawnOk);
      case TimerFires(spawnOk) => TimerKeepsInv(s, spawnOk);
      case ChildEnds(id) => ChildEndKeepsInv(s, id);
      case Abort(signal) => AbortKeepsInv(s, signal);
      case Dispose => OffKeepsInv(s);
    }
  }

  // The worker as the source has it: variables that its callbacks change.
  class Supervisor {
    const darwin: bool
    var child: Option<ChildId>
    var lifecycleSignal: Option<SignalId>
    var desiredEnabled: bool
    var restartTimer: bool
    var workerLease: Option<LeaseId>
    var world: World

    function View(): State
      reads this
    {
      State(darwin, child, lifecycleSignal, desiredEnabled, restartTimer, workerLease, world)
    }

    ghost predicate Valid()
      reads this
    {
      Inv(View())
    }

    constructor (darwin: bool)
      ensures View() == Fresh(darwin) && Valid()
    {
      this.darwin := darwin;
      child, lifecycleSignal, desiredEnabled, restartTimer, workerLease := None, None, false, false, None;
      world := World(0, {}, {}, 0, multiset{}, {}, {});
    }

    method Stop()
      modifies this
      ensures View() == old(View()).Stopped()
    {
      var active := child;
      child := None;
      if active.Some? {
        world := world.(terminated := world.terminated + {active.value});
      }
    }

    method ReleaseWorkerLease()
      modifies this
      ensures View() == old(View()).Released()
    {
      var lease := workerLease;
      workerLease := None;
      if lease.Some? {
        world := world.(disposed := world.disposed + multiset{lease.value});
      }
    }

    method ScheduleRestart()
      modifies this
      ensures View() == old(View()).RestartScheduled()
    {
      if restartTimer || !desiredEnabled || (lifecycleSignal.Some? && lifecycleSignal.value in world.aborted) {
        return;
      }
      restartTimer := true;
    }

    // Brings a wanted worker to where a child runs or will; with one of the two there
    // already, or unwanted, it does nothing.
    method Start(spawnOk: bool)
      requires Kept(View())
      modifies this
      ensures View() == old(View()).Started(spawnOk)
      ensures Valid() && (desiredEnabled ==> SwitchedOn(old(View()), View()))
      ensures !desiredEnabled || old(View()).LifecycleAborted() ==> View() == old(View())
      ensures spawnOk && desiredEnabled && !old(View()).LifecycleAborted() && !old(restartTimer) ==> child.Some? && !restartTimer
    {
      StartKeepsInv(View(), spawnOk);
      if child.Some? || restartTimer || !desiredEnabled || !darwin || (lifecycleSignal.Some? && lifecycleSignal.value in world.aborted) {
        return;
      }
      if !spawnOk {
        ScheduleRestart();
        return;
      }
      child := Some(world.spawned);
      world := world.(spawned := world.spawned + 1);
    }

    method DisposeState()
      requires Kept(View())
      modifies this
      ensures View() == old(View()).Off()
      ensures Valid() && SwitchedOff(old(View()), View())
    {
      OffKeepsInv(View());
      desiredEnabled := false;
      restartTimer := false;
      Stop();
      ReleaseWorkerLease();
    }

    method BindLifecycle(signal: SignalId)
      requires Valid()
      modifies this
      ensures View() == old(View()).(lifecycle := Some(signal), world := old(world).(bound := old(world).bound + {signal}))
    {
      if lifecycleSignal == Some(signal) {
        assert world.bound + {signal} == world.bound;
        return;
      }
      lifecycleSignal := Some(signal);
      world := world.(bound := world.bound + {signal});
    }

    // The answer says whether a child is tracked.
    method HandleSetEnabled(signal: SignalId, enabled: bool, spawnOk: bool) returns (tracked: bool)
      requires Valid()
      modifies this
      ensures View() == After(old(View()), SetEnabled(signal, enabled, spawnOk)) && tracked == child.Some?
      ensures Valid() && if darwin && enabled then SwitchedOn(old(View()), View()) else SwitchedOff(old(View()), View())
      // With a lifecycle that has not ended, "enabled" is answered when asked for, unless a
      // spawn failed or a restart is still to come.
      ensures darwin && enabled && spawnOk && !old(restartTimer) && signal !in world.aborted ==> tracked
      ensures !enabled ==> !tracked
    {
      ghost var s := View();
      SetEnabledKeepsInv(s, signal, enabled, spawnOk);
      BindLifecycle(signal);
      desiredEnabled := darwin && enabled;
      if !desiredEnabled {
        restartTimer := false;
        Stop();
        ReleaseWorkerLease();
        return child.Some?;
      }
      if workerLease.None? {
        workerLease := Some(world.leases);
        world := world.(leases := world.leases + 1);
      }
      Start(spawnOk);
      tracked := child.Some?;
    }

    // Unless the lifecycle is over, a new child is tracked, or, when the spawn fails, the
    // next restart is pending.
    method HandleTimer(spawnOk: bool)
      requires Valid() && restartTimer
      modifies this
      ensures View() == After(old(View()), TimerFires(spawnOk))
      ensures Valid() && desiredEnabled && workerLease == old(workerLease)
      ensures !View().LifecycleAborted() ==>
                if spawnOk then child == Some(old(world).spawned) && !restartTimer else child.None? && restartTimer
    {
      TimerKeepsInv(View(), spawnOk);
      restartTimer := false;
      Start(spawnOk);
    }

    // The listener of one child's error and exit events.
    method HandleChildEnd(next: ChildId)
      requires Valid() && next < world.spawned && next !in world.ended
      modifies this
      ensures View() == After(old(View()), ChildEnds(next))
      ensures Valid() && Ended(old(View()), next, View())
    {
      ChildEndKeepsInv(View(), next);
      world := world.(ended := world.ended + {next});
      if child != Some(next) {
        return;
      }
      child := None;
      ScheduleRestart();
    }

    method HandleAbort(signal: SignalId)
      requires Valid() && signal !in world.aborted
      modifies this
      ensures View() == After(old(View()), Abort(signal))
      ensures Valid() && (signal in old(world).bound ==> SwitchedOff(old(View()), View()))
      ensures signal !in old(world).bound ==> View() == old(View()).(world := old(world).(aborted := old(world).aborted + {signal}))
    {
      AbortKeepsInv(View(), signal);
      world := world.(aborted := world.aborted + {signal});
      if signal in world.bound {
        DisposeState();
      }
    }
  }

  lemma FromTheStart(darwin: bool, events: seq<Event>)
    requires Runs(After, Fresh(darwin), events)
    ensures Inv(StateAfter(After, Fresh(darwin), events))
  {
    forall s, e | Inv(s) && After.requires(s, e) ensures Inv(After(s, e)) {
      EventKeepsInv(s, e);
    }
    EveryRunKeeps(After, Inv, Fresh(darwin), events);
  }

  // What the invariant means for the machine: at most one child that was not told to stop
  // is running, and none once Keep Awake is off.
  lemma AtMostOneRunning(darwin: bool, events: seq<Event>, a: ChildId, b: ChildId)
    requires Runs(After, Fresh(darwin), events)
    ensures var s := StateAfter(After, Fresh(darwin), events);
            var running := set id | 0 <= id < s.world.spawned && id !in s.world.ended && id !in s.world.terminated;
            && (a in running && b in running ==> a == b)
            && (!s.desired ==> running == {} && forall l | 0 <= l < s.world.leases :: s.world.disposed[l] == 1)
            && (running != {} ==> !s.timer)
  {
    FromTheStart(darwin, events);
  }

  // A late exit of a child that is no longer tracked changes nothing but the record of it.
  lemma LateExitChangesNothing(s: State, id: ChildId)
    requires Inv(s) && Possible(s, ChildEnds(id)) && id in s.world.terminated
    ensures After(s, ChildEnds(id)) == s.(world := s.world.(ended := s.world.ended + {id}))
  {
  }
}
