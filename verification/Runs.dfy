/** Runs of a deterministic state machine over a list of events, and their invariants. */
module Runs {

  /** The state after the first k events. */
  function StateAfter<S, E>(step: (S, E) -> S, s: S, events: seq<E>, k: nat): S
    requires k <= |events|
  {
    if k == 0 then s else step(StateAfter(step, s, events, k - 1), events[k - 1])
  }

  /** What holds at first and is kept by every event of the run holds throughout. */
  lemma {:induction false} InvariantOfRun<S(!new), E>(step: (S, E) -> S, inv: S -> bool, s: S, events: seq<E>, k: nat)
    requires k <= |events| && inv(s)
    requires forall i, t :: 0 <= i < k && inv(t) ==> inv(step(t, events[i]))
    ensures inv(StateAfter(step, s, events, k))
  {
    if k > 0 {
      InvariantOfRun(step, inv, s, events, k - 1);
    }
  }
}
