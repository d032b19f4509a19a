// The Keep Awake reconciler: a loop that runs passes over the hosts and parks between
// them, and callbacks that raise flags and wake it.

module KeepAwakeReconciler {
  import opened Machines

  const RETRY_MIN_MS := 1_000
  const RETRY_MAX_MS := 30_000

  type ConfigurationId = nat

  // Where the service loop is. Resuming is a parked loop whose promise has been resolved
  // and whose continuation has not run yet.
  datatype Phase = NotStarted | InPass | Parked | Resuming | Stopped

  datatype State = State(
    configuration: ConfigurationId,
    reconcileRequested: bool,
    retryRequested: bool,
    waiter: bool,            // wakeWaiter is set
    timer: bool,             // the retry timer of the current wait is armed
    aborted: bool,
    retryMs: int,
    retryPending: bool,      // of the current wait
    phase: Phase,
    // About the last pass: the configuration it read, how it ended, and whether a worker
    // has exited since it began.
    passConfiguration: ConfigurationId,
    passWantsRetry: bool,
    workerExited: bool)
  {
    function Finished(): State {
      if phase.Parked? then this.(phase := Resuming, waiter := false, timer := false) else this
    }

    // The wake callback, when one is installed.
    function Woken(): State {
      if !waiter then this
      else if aborted || reconcileRequested then Finished()
      else if retryRequested then this.(timer := true)
      else this
    }

    // The top of the loop: a pass begins with clear flags, on the configuration of now.
    function LoopTop(): State {
      if aborted then this.(phase := Stopped, waiter := false)
      else this.(phase := InPass, reconcileRequested := false, retryRequested := false,
                 passConfiguration := configuration, workerExited := false)
    }

    // waitForReconcile, up to its first suspension.
    function Waiting(): State {
      if aborted || reconcileRequested then this.(phase := Resuming, waiter := false, timer := false)
      else this.(phase := Parked, waiter := true, timer := retryPending).Woken()
    }
  }

  datatype Event =
    | Start
    | SaveConfiguration(next: ConfigurationId)
    | HostConnected
    | WorkerExit
    | Abort
    | TimerFires
    | PassEnds(retry: bool)
    | Resume

  predicate Possible(s: State, e: Event) {
    match e
    case Start => s.phase.NotStarted?
    case TimerFires => s.timer && s.phase.Parked?
    case PassEnds(_) => s.phase.InPass?
    case Resume => s.phase.Resuming?
    case _ => true
  }

  function After(s: State, e: Event): State
    requires Possible(s, e)
  {
    match e
    case Start => s.(retryMs := RETRY_MIN_MS).LoopTop()
    case SaveConfiguration(next) => s.(configuration := next, reconcileRequested := true).Woken()
    case HostConnected => s.(reconcileRequested := true).Woken()
    case WorkerExit => s.(retryRequested := true, workerExited := true).Woken()
    case Abort => if s.aborted then s else s.(aborted := true).Finished()
    case TimerFires => s.Finished()
    case PassEnds(retry) =>
      var ended := s.(passWantsRetry := retry);
      if s.aborted then ended.(phase := Stopped, waiter := false)
      else if s.reconcileRequested then ended.LoopTop()
      else
        var pending := retry || s.retryRequested;
        ended.(retryPending := pending, retryMs := if pending then s.retryMs else RETRY_MIN_MS).Waiting()
    case Resume =>
      var backedOff := if s.retryPending || s.retryRequested
                       then s.(retryMs := if s.retryMs * 2 < RETRY_MAX_MS then s.retryMs * 2 else RETRY_MAX_MS) else s;
      backedOff.LoopTop()
  }

  function Initial(configuration: ConfigurationId): State {
    State(configuration, true, false, false, false, false, RETRY_MIN_MS, false, NotStarted, configuration, false, false)
  }

  // Nothing that asks for a pass is ever forgotten.
  ghost predicate Inv(s: State) {
    && RETRY_MIN_MS <= s.retryMs <= RETRY_MAX_MS
    && (s.waiter <==> s.phase.Parked?)
    && (s.timer ==> s.phase.Parked?)
    && (s.phase.Stopped? ==> s.aborted)
    // A configuration the last pass did not read has a request outstanding.
    && (s.configuration != s.passConfiguration ==> s.reconcileRequested || s.phase == Resuming || s.phase == Stopped)
    && (s.workerExited ==> s.retryRequested)
    // Parked: no request waits, the pass ran on the current configuration, and a retry that
    // was asked for is coming.
    && (s.phase.Parked? ==>
          && !s.aborted && !s.reconcileRequested && s.passConfiguration == s.configuration
          && (s.passWantsRetry || s.workerExited ==> s.timer))
  }

  lemma EventKeepsInv(s: State, e: Event)
    requires Inv(s) && Possible(s, e)
    ensures Inv(After(s, e))
  {
  }

  // The loop is in a new pass, on the configuration of now and with clear flags, or over.
  ghost predicate NewPass(s: State) {
    if s.aborted then s.phase.Stopped?
    else s.phase.InPass? && s.passConfiguration == s.configuration && !s.reconcileRequested && !s.retryRequested && !s.workerExited
  }

  // The variables of the plugin and of its service loop.
  class Reconciler {
    var configuration: ConfigurationId
    var reconcileRequested: bool
    var retryRequested: bool
    var wakeWaiter: bool
    var timer: bool
    var aborted: bool
    var retryMs: int
    var retryPending: bool
    var phase: Phase
    var passConfiguration: ConfigurationId
    var passWantsRetry: bool
    var workerExited: bool

    function View(): State
      reads this
    {
      State(configuration, reconcileRequested, retryRequested, wakeWaiter, timer, aborted, retryMs, retryPending, phase,
            passConfiguration, passWantsRetry, workerExited)
    }

    ghost predicate Valid()
      reads this
    {
      Inv(View())
    }

    constructor (stored: ConfigurationId)
      ensures View() == Initial(stored) && Valid()
    {
      configuration, reconcileRequested, retryRequested := stored, true, false;
      wakeWaiter, timer, aborted, retryMs, retryPending := false, false, false, RETRY_MIN_MS, false;
      phase, passConfiguration, passWantsRetry, workerExited := NotStarted, stored, false, false;
    }

    method Finish()
      modifies this
      ensures View() == old(View()).Finished()
    {
      if phase.Parked? {
        phase, wakeWaiter, timer := Resuming, false, false;
      }
    }

    // A parked loop does not stay parked over a request, nor without its timer over a retry.
    method Wake()
      requires wakeWaiter <==> phase.Parked?
      modifies this
      ensures View() == old(View()).Woken()
      ensures phase.Parked? <==> old(phase).Parked? && !aborted && !reconcileRequested
      ensures phase.Parked? && retryRequested ==> timer
      ensures !old(phase).Parked? ==> View() == old(View())
    {
      if wakeWaiter {
        if aborted || reconcileRequested {
          Finish();
        } else if retryRequested {
          timer := true;
        }
      }
    }

    // The request stays until a pass begins, and the loop is on its way to that pass: it is
    // not parked.
    method RequestReconcile()
      requires wakeWaiter <==> phase.Parked?
      modifies this
      ensures View() == After(old(View()), HostConnected)
      ensures reconcileRequested && !phase.Parked? && (old(Valid()) ==> Valid())
    {
      reconcileRequested := true;
      Wake();
    }

    // A worker exited: a parked loop now has its timer armed.
    method RequestRetry()
      requires Valid()
      modifies this
      ensures View() == After(old(View()), WorkerExit)
      ensures Valid() && retryRequested && (phase.Parked? <==> old(phase).Parked?) && (phase.Parked? ==> timer)
    {
      retryRequested, workerExited := true, true;
      Wake();
    }

    method SaveConfiguration(next: ConfigurationId)
      requires Valid()
      modifies this
      ensures View() == After(old(View()), Event.SaveConfiguration(next))
      ensures Valid() && configuration == next && reconcileRequested && !phase.Parked?
    {
      configuration := next;
      RequestReconcile();
    }

    // The loop condition and what follows it up to the pass's first suspension.
    method BeginPass()
      requires Valid() && !phase.Parked?
      modifies this
      ensures View() == old(View()).LoopTop()
      ensures Valid() && NewPass(View())
    {
      if aborted {
        phase, wakeWaiter := Stopped, false;
        return;
      }
      reconcileRequested := false;
      retryRequested := false;
      phase, passConfiguration, workerExited := InPass, configuration, false;
    }

    method StartService()
      requires Valid() && phase.NotStarted?
      modifies this
      ensures View() == After(old(View()), Start)
      ensures Valid() && NewPass(View())
    {
      retryMs := RETRY_MIN_MS;
      BeginPass();
    }

    // The loop parks exactly when it was not aborted and nothing was requested since the
    // pass began, and then its timer is armed exactly when a retry is wanted.
    method WaitForReconcile()
      modifies this
      ensures View() == old(View()).Waiting()
      ensures phase == (if !aborted && !reconcileRequested then Parked else Resuming)
      ensures wakeWaiter == phase.Parked? && timer == (phase.Parked? && (retryPending || retryRequested))
    {
      timer, wakeWaiter := false, false;
      if aborted || reconcileRequested {
        phase := Resuming;
        return;
      }
      phase, wakeWaiter := Parked, true;
      if retryPending {
        timer := true;
      }
      Wake();
    }

    // A request made during the pass starts another at once, on the configuration of now;
    // otherwise the loop parks, for a while if the pass or a worker's exit asks for a retry
    // and until it is woken if not.
    method EndPass(outcomeRetry: bool)
      requires Valid() && phase.InPass?
      modifies this
      ensures View() == After(old(View()), PassEnds(outcomeRetry))
      ensures Valid() && (aborted || old(reconcileRequested) ==> NewPass(View()))
      ensures !aborted && !old(reconcileRequested) ==>
                phase.Parked? && configuration == passConfiguration && (timer <==> outcomeRetry || old(retryRequested))
      // The delay starts again from the least one when the loop parks without a retry.
      ensures retryMs == if phase.Parked? && !timer then RETRY_MIN_MS else old(retryMs)
    {
      EventKeepsInv(View(), PassEnds(outcomeRetry));
      passWantsRetry := outcomeRetry;
      if aborted {
        phase, wakeWaiter := Stopped, false;
        return;
      }
      if reconcileRequested {
        BeginPass();
        return;
      }
      retryPending := outcomeRetry || retryRequested;
      if !retryPending {
        retryMs := RETRY_MIN_MS;
      }
      WaitForReconcile();
    }

    // The delay doubles, up to its maximum, exactly when the wait was for a retry.
    method ResumeLoop()
      requires Valid() && phase.Resuming?
      modifies this
      ensures View() == After(old(View()), Resume)
      ensures Valid() && NewPass(View())
      ensures old(retryPending || retryRequested) ==>
                retryMs == old(retryMs) * 2 || (retryMs == RETRY_MAX_MS && old(retryMs) * 2 >= RETRY_MAX_MS)
      ensures !old(retryPending || retryRequested) ==> retryMs == old(retryMs)
    {
      if retryPending || retryRequested {
        retryMs := if retryMs * 2 < RETRY_MAX_MS then retryMs * 2 else RETRY_MAX_MS;
      }
      BeginPass();
    }

    method TimerFired()
      requires Valid() && timer
      modifies this
      ensures View() == After(old(View()), TimerFires)
      ensures Valid() && phase.Resuming?
    {
      Finish();
    }

    method AbortService()
      requires Valid()
      modifies this
      ensures View() == After(old(View()), Abort)
      ensures Valid() && aborted && !phase.Parked? && (old(aborted) ==> View() == old(View()))
    {
      if aborted {
        return;
      }
      aborted := true;
      Finish();
    }
  }

  lemma FromTheStart(configuration: ConfigurationId, events: seq<Event>)
    requires Runs(After, Initial(configuration), events)
    ensures Inv(StateAfter(After, Initial(configuration), events))
  {
    forall s, e | Inv(s) && After.requires(s, e) ensures Inv(After(s, e)) {
      EventKeepsInv(s, e);
    }
    EveryRunKeeps(After, Inv, Initial(configuration), events);
  }

  // No lost wake-up.
  lemma ParkedMeansNothingIsWaiting(configuration: ConfigurationId, events: seq<Event>)
    requires Runs(After, Initial(configuration), events)
    ensures var s := StateAfter(After, Initial(configuration), events);
            && RETRY_MIN_MS <= s.retryMs <= RETRY_MAX_MS
            && (s.phase.Parked? ==>
                  && !s.reconcileRequested
                  && s.passConfiguration == s.configuration
                  && (s.passWantsRetry || s.workerExited ==> s.timer))
  {
    FromTheStart(configuration, events);
  }

  // Once it has started and while it is not aborted, the loop is one step of its own away
  // from a pass on a configuration it has not read: the end of the pass it is in, or the end
  // of a wait that is already over.
  lemma UnreadConfigurationIsNext(configuration: ConfigurationId, events: seq<Event>, retry: bool)
    requires Runs(After, Initial(configuration), events)
    ensures var s := StateAfter(After, Initial(configuration), events);
            !s.aborted && !s.phase.NotStarted? && s.configuration != s.passConfiguration ==>
              && (s.phase.InPass? || s.phase.Resuming?)
              && var step := if s.phase.InPass? then PassEnds(retry) else Resume;
                 Possible(s, step) && NewPass(After(s, step)) && After(s, step).passConfiguration == s.configuration
  {
    FromTheStart(configuration, events);
  }
}
