/**
 Fair runs of any machine that many agents step in turn. If every step takes some work off and some agent
 can go on until all is done, then a schedule that names every agent again and again gets everything done.
 */
module FairRuns {

  /** What a choice does, whose choice it is, and when an agent can go on. */
  datatype System<!S, !E> = System(
    step: (S, E) -> S, agent: E -> nat, agents: nat,
    inv: S -> bool, enabled: (S, nat) -> bool, done: S -> bool, work: S -> nat)

  ghost function Run<S, E>(y: System<S, E>, s: S, schedule: seq<E>): S {
    if schedule == [] then s
    else y.step(Run(y, s, schedule[..|schedule| - 1]), schedule[|schedule| - 1])
  }

  ghost predicate StepGoesOn<S, E>(y: System<S, E>, s: S, e: E) {
    var n := y.step(s, e);
    && y.inv(n)
    && (n == s || y.work(n) < y.work(s))
    && (y.enabled(s, y.agent(e)) ==> y.work(n) < y.work(s))
    && (y.done(s) ==> n == s)
  }

  ghost predicate NobodyStuck<S, E>(y: System<S, E>, s: S) {
    y.done(s) || (y.work(s) > 0 && exists t: nat :: t < y.agents && y.enabled(s, t))
  }

  /** Steps keep the invariant and take work off, and until all is done some agent can go on. */
  ghost predicate Progresses<S(!new), E(!new)>(y: System<S, E>) {
    && (forall s, e :: y.inv(s) ==> StepGoesOn(y, s, e))
    && (forall s :: y.inv(s) ==> NobodyStuck(y, s))
  }

  ghost predicate Names<S, E>(y: System<S, E>, round: seq<E>, t: nat) {
    exists i :: 0 <= i < |round| && y.agent(round[i]) == t
  }

  /** A round gives every agent a turn. */
  ghost predicate IsRound<S, E>(y: System<S, E>, round: seq<E>) {
    forall t: nat :: t < y.agents ==> Names(y, round, t)
  }

  lemma {:induction false} RunningTakesWorkOff<S(!new), E(!new)>(y: System<S, E>, s: S, schedule: seq<E>)
    requires Progresses(y) && y.inv(s)
    ensures var n := Run(y, s, schedule);
      y.inv(n) && (n == s || y.work(n) < y.work(s)) && (y.done(s) ==> n == s)
  {
    if schedule == [] {
    } else {
      RunningTakesWorkOff(y, s, schedule[..|schedule| - 1]);
      assert StepGoesOn(y, Run(y, s, schedule[..|schedule| - 1]), schedule[|schedule| - 1]);
    }
  }

  /** A schedule in which an agent that can go on has its turn takes work off. */
  lemma {:induction false} TurnTakesWorkOff<S(!new), E(!new)>(y: System<S, E>, s: S, schedule: seq<E>, i: nat)
    requires Progresses(y) && y.inv(s) && i < |schedule| && y.enabled(s, y.agent(schedule[i]))
    ensures y.work(Run(y, s, schedule)) < y.work(s)
  {
    var n := |schedule| - 1;
    RunningTakesWorkOff(y, s, schedule[..n]);
    if i < n {
      TurnTakesWorkOff(y, s, schedule[..n], i);
    }
    assert StepGoesOn(y, Run(y, s, schedule[..n]), schedule[n]);
  }

  lemma RoundTakesWorkOff<S(!new), E(!new)>(y: System<S, E>, s: S, round: seq<E>)
    requires Progresses(y) && y.inv(s) && !y.done(s) && IsRound(y, round)
    ensures y.work(Run(y, s, round)) < y.work(s)
  {
    assert NobodyStuck(y, s);
    var t: nat :| t < y.agents && y.enabled(s, t);
    assert Names(y, round, t);
    var i :| 0 <= i < |round| && y.agent(round[i]) == t;
    TurnTakesWorkOff(y, s, round, i);
  }

  function Flat<E>(rounds: seq<seq<E>>): seq<E> {
    if rounds == [] then [] else rounds[0] + Flat(rounds[1..])
  }

  lemma {:induction false} RunConcatenates<S, E>(y: System<S, E>, s: S, a: seq<E>, b: seq<E>)
    ensures Run(y, s, a + b) == Run(y, Run(y, s, a), b)
  {
    if b == [] {
      assert a + b == a;
    } else {
      assert (a + b)[..|a + b| - 1] == a + b[..|b| - 1];
      RunConcatenates(y, s, a, b[..|b| - 1]);
    }
  }

  /** After at most as many rounds as there was work, all is done. */
  lemma {:induction false} FairRunsAreDone<S(!new), E(!new)>(y: System<S, E>, s: S, rounds: seq<seq<E>>)
    requires Progresses(y) && y.inv(s) && |rounds| >= y.work(s)
    requires forall i :: 0 <= i < |rounds| ==> IsRound(y, rounds[i])
    ensures y.done(Run(y, s, Flat(rounds)))
    decreases |rounds|
  {
    if y.done(s) {
      RunningTakesWorkOff(y, s, Flat(rounds));
    } else {
      assert NobodyStuck(y, s);
      var n := Run(y, s, rounds[0]);
      RunningTakesWorkOff(y, s, rounds[0]);
      RoundTakesWorkOff(y, s, rounds[0]);
      FairRunsAreDone(y, n, rounds[1..]);
      RunConcatenates(y, s, rounds[0], Flat(rounds[1..]));
    }
  }

  // ---------------------------------------------------------------- work of many agents

  function Total(work: seq<nat>): nat {
    if work == [] then 0 else work[0] + Total(work[1..])
  }

  /** An agent that has less left to do leaves less to do in all. */
  lemma {:induction false} TotalAfterUpdate(work: seq<nat>, t: nat, w: nat)
    requires t < |work|
    ensures Total(work[t := w]) == Total(work) - work[t] + w
  {
    if t == 0 {
      assert work[t := w][1..] == work[1..];
    } else {
      assert work[t := w][1..] == work[1..][t - 1 := w];
      TotalAfterUpdate(work[1..], t - 1, w);
    }
  }
}
