/** Finite runs of a state machine given by its step function: `next(s, a)` is the state after
    action `a`, or `None` where `a` cannot happen. */
module Runs {
  import opened Net

  ghost function Run<S, A>(next: (S, A) -> Option<S>, s: S, actions: seq<A>): Option<S>
    decreases |actions|
  {
    if actions == [] then Some(s)
    else
      match next(s, actions[0])
      case None => None
      case Some(s') => Run(next, s', actions[1..])
  }

  ghost predicate Reachable<S, A(!new)>(next: (S, A) -> Option<S>, initial: S, s: S) {
    exists actions :: Run(next, initial, actions) == Some(s)
  }

  /** What holds at the start and is kept by every step holds after every run. */
  lemma {:induction false} RunKeeps<S(!new), A(!new)>(
      next: (S, A) -> Option<S>, holds: S -> bool, s: S, actions: seq<A>)
    requires holds(s)
    requires forall s, a | holds(s) && next(s, a).Some? :: holds(next(s, a).value)
    ensures var end := Run(next, s, actions); end.Some? ==> holds(end.value)
    decreases |actions|
  {
    if actions != [] && next(s, actions[0]).Some? {
      RunKeeps(next, holds, next(s, actions[0]).value, actions[1..]);
    }
  }

  lemma ReachableKeeps<S(!new), A(!new)>(next: (S, A) -> Option<S>, holds: S -> bool, initial: S, s: S)
    requires holds(initial) && Reachable(next, initial, s)
    requires forall s, a | holds(s) && next(s, a).Some? :: holds(next(s, a).value)
    ensures holds(s)
  {
    var actions :| Run(next, initial, actions) == Some(s);
    RunKeeps(next, holds, initial, actions);
  }

  lemma {:induction false} RunExtends<S, A>(next: (S, A) -> Option<S>, s: S, actions: seq<A>, action: A)
    requires Run(next, s, actions).Some?
    ensures Run(next, s, actions + [action]) == next(Run(next, s, actions).value, action)
    decreases |actions|
  {
    if actions == [] {
      assert ([] + [action])[1..] == [];
      assert actions + [action] == [action];
    } else {
      RunExtends(next, next(s, actions[0]).value, actions[1..], action);
      assert (actions + [action])[1..] == actions[1..] + [action];
    }
  }

  /** A run that does not get stuck is its first actions, then the rest from where they lead. */
  lemma {:induction false} RunSplits<S, A>(next: (S, A) -> Option<S>, s: S, actions: seq<A>, n: nat)
    requires Run(next, s, actions).Some? && n <= |actions|
    ensures var mid := Run(next, s, actions[..n]);
            mid.Some? && Run(next, mid.value, actions[n..]) == Run(next, s, actions)
    decreases n
  {
    if n == 0 {
      assert actions[0..] == actions;
    } else {
      RunSplits(next, next(s, actions[0]).value, actions[1..], n - 1);
      assert actions[..n][1..] == actions[1..][..n - 1] && actions[1..][n - 1..] == actions[n..];
    }
  }

  lemma RunEnds<S, A>(next: (S, A) -> Option<S>, s: S, actions: seq<A>)
    requires actions != [] && Run(next, s, actions).Some?
    ensures var before := Run(next, s, actions[..|actions| - 1]);
            before.Some? && Run(next, s, actions) == next(before.value, actions[|actions| - 1])
  {
    var n := |actions| - 1;
    RunSplits(next, s, actions, n);
    assert actions[n..][1..] == [];
  }

  lemma InitialIsReachable<S, A(!new)>(next: (S, A) -> Option<S>, initial: S)
    ensures Reachable(next, initial, initial)
  {
    assert Run(next, initial, []) == Some(initial);
  }

  lemma StepIsReachable<S, A(!new)>(next: (S, A) -> Option<S>, initial: S, s: S, action: A)
    requires Reachable(next, initial, s) && next(s, action).Some?
    ensures Reachable(next, initial, next(s, action).value)
  {
    var actions :| Run(next, initial, actions) == Some(s);
    RunExtends(next, initial, actions, action);
  }
}
