// Runs of a state machine, given by what each of its events makes of a state. An event is
// possible in the states for which that is defined.

module Machines {
  ghost predicate Runs<S, E>(after: (S, E) --> S, s: S, events: seq<E>)
    decreases |events|
  {
    events != [] ==> after.requires(s, events[0]) && Runs(after, after(s, events[0]), events[1..])
  }

  ghost function StateAfter<S, E>(after: (S, E) --> S, s: S, events: seq<E>): S
    requires Runs(after, s, events)
    decreases |events|
  {
    if events == [] then s else StateAfter(after, after(s, events[0]), events[1..])
  }

  // What every event keeps holds after every run.
  lemma {:induction false} EveryRunKeeps<S(!new), E(!new)>(after: (S, E) --> S, inv: S -> bool, s: S, events: seq<E>)
    requires inv(s) && forall t, e | inv(t) && after.requires(t, e) :: inv(after(t, e))
    requires Runs(after, s, events)
    ensures inv(StateAfter(after, s, events))
    decreases |events|
  {
    if events != [] {
      EveryRunKeeps(after, inv, after(s, events[0]), events[1..]);
    }
  }
}
