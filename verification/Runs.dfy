/** Runs of a transition system given by its partial step function. */
module Runs {
  import opened Wrappers

  /** The state after a run, or None when some action in it was not enabled. */
  ghost function Run<S, A>(next: (S, A) -> Option<S>, s: S, run: seq<A>): Option<S>
    decreases |run|
  {
    if run == [] then Some(s)
    else if next(s, run[0]).None? then None
    else Run(next, next(s, run[0]).value, run[1..])
  }

  lemma {:induction false} RunAppend<S, A>(next: (S, A) -> Option<S>, s: S, run: seq<A>, more: seq<A>)
    requires Run(next, s, run).Some?
    ensures Run(next, s, run + more) == Run(next, Run(next, s, run).value, more)
    decreases |run|
  {
    if run == [] {
      assert run + more == more;
    } else {
      RunAppend(next, next(s, run[0]).value, run[1..], more);
      assert (run + more)[1..] == run[1..] + more;
    }
  }

  lemma RunCons<S, A>(next: (S, A) -> Option<S>, s: S, a: A, rest: seq<A>)
    requires next(s, a).Some?
    ensures Run(next, s, [a] + rest) == Run(next, next(s, a).value, rest)
    ensures rest == [] ==> Run(next, s, [a] + rest) == Some(next(s, a).value)
  {
    assert ([a] + rest)[1..] == rest;
  }

  lemma RunOne<S, A>(next: (S, A) -> Option<S>, s: S, a: A)
    ensures Run(next, s, [a]) == next(s, a)
  {
    assert [a][1..] == [];
    if next(s, a).Some? { assert Run(next, next(s, a).value, []) == Some(next(s, a).value); }
  }

  lemma RunSnoc<S, A>(next: (S, A) -> Option<S>, s: S, run: seq<A>, a: A)
    requires Run(next, s, run).Some?
    ensures Run(next, s, run + [a]) == next(Run(next, s, run).value, a)
  {
    RunAppend(next, s, run, [a]);
    RunOne(next, Run(next, s, run).value, a);
  }

  /** Every enabled step keeps the property. */
  ghost predicate Keeps<S(!new), A(!new)>(next: (S, A) -> Option<S>, holds: S -> bool) {
    forall s, a :: holds(s) && next(s, a).Some? ==> holds(next(s, a).value)
  }

  /** Then every run does. */
  lemma {:induction false} RunKeeps<S(!new), A(!new)>(next: (S, A) -> Option<S>, holds: S -> bool, s: S, run: seq<A>)
    requires Keeps(next, holds) && holds(s) && Run(next, s, run).Some?
    ensures holds(Run(next, s, run).value)
    decreases |run|
  {
    if run != [] { RunKeeps(next, holds, next(s, run[0]).value, run[1..]); }
  }

  /** A chain of states, each a step from the one before, is a run. */
  lemma {:induction false} ChainIsRun<S, A>(next: (S, A) -> Option<S>, states: seq<S>, run: seq<A>)
    requires |states| == |run| + 1
    requires forall i :: 0 <= i < |run| ==> next(states[i], run[i]) == Some(states[i + 1])
    ensures Run(next, states[0], run) == Some(states[|run|])
    decreases |run|
  {
    if run != [] { ChainIsRun(next, states[1..], run[1..]); }
  }
}
