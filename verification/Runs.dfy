/** Transition systems, their runs, and properties kept by every step. */
module Runs {

  datatype Option<+T> = None | Some(value: T)

  /** One start state, and what each action makes of a state; `None` when it cannot happen there. */
  datatype System<!S, !A> = System(init: S, next: (S, A) -> Option<S>)

  /** The state a trace of actions leads to, if each of them can happen in turn. */
  function Exec<S, A>(sys: System<S, A>, trace: seq<A>): Option<S> {
    if trace == [] then Some(sys.init)
    else
      match Exec(sys, trace[..|trace| - 1])
      case None => None
      case Some(s) => sys.next(s, trace[|trace| - 1])
  }

  ghost predicate Reachable<S, A(!new)>(sys: System<S, A>, s: S) {
    exists trace :: Exec(sys, trace) == Some(s)
  }

  ghost predicate Inductive<S(!new), A(!new)>(sys: System<S, A>, inv: S -> bool) {
    && inv(sys.init)
    && forall s, a :: inv(s) && sys.next(s, a).Some? ==> inv(sys.next(s, a).value)
  }

  lemma {:induction false} HoldsOnRuns<S(!new), A(!new)>(sys: System<S, A>, inv: S -> bool, trace: seq<A>)
    requires Inductive(sys, inv)
    ensures Exec(sys, trace).Some? ==> inv(Exec(sys, trace).value)
    decreases |trace|
  {
    if trace == [] {
    } else {
      HoldsOnRuns(sys, inv, trace[..|trace| - 1]);
    }
  }

  /** What every step keeps is true in every reachable state. */
  lemma Holds<S(!new), A(!new)>(sys: System<S, A>, inv: S -> bool, s: S)
    requires Inductive(sys, inv) && Reachable(sys, s)
    ensures inv(s)
  {
    var trace :| Exec(sys, trace) == Some(s);
    HoldsOnRuns(sys, inv, trace);
  }

  lemma ReachStart<S(!new), A(!new)>(sys: System<S, A>)
    ensures Reachable(sys, sys.init)
  {
    assert Exec(sys, []) == Some(sys.init);
  }

  /** One more step of a run. */
  lemma Take<S(!new), A(!new)>(sys: System<S, A>, s: S, a: A) returns (s': S)
    requires Reachable(sys, s) && sys.next(s, a).Some?
    ensures Reachable(sys, s') && sys.next(s, a) == Some(s')
  {
    s' := sys.next(s, a).value;
    var trace :| Exec(sys, trace) == Some(s);
    assert (trace + [a])[..|trace|] == trace;
    assert Exec(sys, trace + [a]) == sys.next(s, a);
  }

  /** A run, and a run from where it ended, make one run. */
  lemma ReachOn<S(!new), A(!new)>(sys: System<S, A>, s: S, t: S)
    requires Reachable(sys, s) && Reachable(sys.(init := s), t)
    ensures Reachable(sys, t)
  {
    forall x, a | Reachable(sys, x) && sys.next(x, a).Some? ensures Reachable(sys, sys.next(x, a).value) {
      var x' := Take(sys, x, a);
    }
    Holds(sys.(init := s), x => Reachable(sys, x), t);
  }

  /** What the actions of a trace cost together. */
  function Total<A>(cost: A -> nat, trace: seq<A>): nat {
    if trace == [] then 0 else Total(cost, trace[..|trace| - 1]) + cost(trace[|trace| - 1])
  }

  /** If every step pays its cost out of a measure, so does every run. */
  lemma {:induction false} Spends<S(!new), A(!new)>(
    sys: System<S, A>, inv: S -> bool, measure: S -> nat, cost: A -> nat, trace: seq<A>)
    requires Inductive(sys, inv)
    requires forall s, a :: inv(s) && sys.next(s, a).Some? ==> cost(a) + measure(sys.next(s, a).value) <= measure(s)
    ensures Exec(sys, trace).Some? ==> Total(cost, trace) + measure(Exec(sys, trace).value) <= measure(sys.init)
    decreases |trace|
  {
    if trace == [] {
    } else {
      Spends(sys, inv, measure, cost, trace[..|trace| - 1]);
      HoldsOnRuns(sys, inv, trace[..|trace| - 1]);
    }
  }
}
