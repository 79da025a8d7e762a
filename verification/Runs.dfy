/** Runs of a system of steps, for the interleaved protocols. */
module Runs {

  ghost predicate IsRun<S(!new)>(initial: S, leads: (S, S) -> bool, run: seq<S>) {
    && run != [] && run[0] == initial
    && forall i | 0 <= i < |run| - 1 :: leads(run[i], run[i + 1])
  }

  /** What the initial state has and every step keeps holds at every point of every run. */
  lemma {:induction false} KeptOverRun<S(!new)>(initial: S, leads: (S, S) -> bool, holds: S -> bool, run: seq<S>)
    requires IsRun(initial, leads, run)
    requires holds(initial)
    requires forall s, t | holds(s) && leads(s, t) :: holds(t)
    ensures forall i | 0 <= i < |run| :: holds(run[i])
  {
    if |run| > 1 {
      var front := run[..|run| - 1];
      KeptOverRun(initial, leads, holds, front);
      assert holds(front[|front| - 1]) && leads(run[|run| - 2], run[|run| - 1]);
    }
  }

  /** The same from some point of a run on. */
  lemma {:induction false} KeptFrom<S(!new)>(leads: (S, S) -> bool, holds: S -> bool, run: seq<S>, from: nat, to: nat)
    requires from <= to < |run|
    requires forall i | from <= i < to :: leads(run[i], run[i + 1])
    requires holds(run[from])
    requires forall s, t | holds(s) && leads(s, t) :: holds(t)
    ensures holds(run[to])
  {
    if from < to {
      KeptFrom(leads, holds, run, from, to - 1);
      assert leads(run[to - 1], run[to - 1 + 1]);
    }
  }

  /** Some run ends in s. */
  ghost predicate Reachable<S(!new)>(initial: S, leads: (S, S) -> bool, s: S) {
    exists run :: IsRun(initial, leads, run) && run[|run| - 1] == s
  }

  lemma InitialReachable<S(!new)>(initial: S, leads: (S, S) -> bool)
    ensures Reachable(initial, leads, initial)
  {
    assert IsRun(initial, leads, [initial]);
  }

  lemma NextReachable<S(!new)>(initial: S, leads: (S, S) -> bool, s: S, t: S)
    requires Reachable(initial, leads, s) && leads(s, t)
    ensures Reachable(initial, leads, t)
  {
    var run :| IsRun(initial, leads, run) && run[|run| - 1] == s;
    var longer := run + [t];
    forall i | 0 <= i < |longer| - 1
      ensures leads(longer[i], longer[i + 1])
    {
      if i < |run| - 1 {
        assert leads(run[i], run[i + 1]);
      }
    }
    assert IsRun(initial, leads, longer);
  }
}
