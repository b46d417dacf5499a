/** Schedules of a transition system: runs, and invariants over them. */
module Schedules {
  import opened Errors

  type Thread = nat

  /** Thread `t` takes the step `a`. */
  datatype Event<+A> = Event(t: Thread, a: A)

  /** The state after a schedule, if every event of it can happen. */
  function Run<S, A>(step: (S, Event<A>) -> Option<S>, s: S, schedule: seq<Event<A>>): Option<S>
    decreases |schedule|
  {
    if schedule == [] then Some(s)
    else
      match step(s, schedule[0])
      case None => None
      case Some(s') => Run(step, s', schedule[1..])
  }

  /** What every step keeps holds after every schedule. */
  lemma {:induction false} InvHolds<S(!new), A(!new)>(
      step: (S, Event<A>) -> Option<S>, inv: S -> bool, s: S, schedule: seq<Event<A>>)
    requires forall s, e :: inv(s) && step(s, e).Some? ==> inv(step(s, e).value)
    requires inv(s) && Run(step, s, schedule).Some?
    ensures inv(Run(step, s, schedule).value)
    decreases |schedule|
  {
    if schedule != [] {
      InvHolds(step, inv, step(s, schedule[0]).value, schedule[1..]);
    }
  }

  /** One more event at the end of a schedule. */
  lemma {:induction false} RunSnoc<S, A>(
      step: (S, Event<A>) -> Option<S>, s: S, schedule: seq<Event<A>>, e: Event<A>)
    requires Run(step, s, schedule).Some? && step(Run(step, s, schedule).value, e).Some?
    ensures Run(step, s, schedule + [e]) == step(Run(step, s, schedule).value, e)
    decreases |schedule|
  {
    var more := schedule + [e];
    if schedule == [] {
      assert more[1..] == [];
    } else {
      assert more[1..] == schedule[1..] + [e];
      RunSnoc(step, step(s, schedule[0]).value, schedule[1..], e);
    }
  }
}
