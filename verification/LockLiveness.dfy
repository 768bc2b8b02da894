/**
 Liveness of the lock machine. While a task is unfinished one can go on (`NoDeadlock`), and every step takes
 some work off; so under any schedule that names every task again and again, all of them finish (`FairSchedulesFinish`).
 */
module LockLiveness {
  import opened ChannelState
  import opened FairRuns
  import opened LockMachine

  // ---------------------------------------------------------------- no deadlock

  /** Among the waiters from `i` on there is one whose lock ranks highest. */
  lemma {:induction false} HighestWaiter(m: Machine, i: nat) returns (t: nat)
    requires i < |m.waiters| && forall x :: x in m.waiters ==> Asks(m, x)
    ensures t in m.waiters[i..]
    ensures forall x :: x in m.waiters[i..] ==> Rank(Asked(m, x)) <= Rank(Asked(m, t))
    decreases |m.waiters| - i
  {
    t := m.waiters[i];
    assert m.waiters[i..] == [m.waiters[i]] + m.waiters[i + 1..];
    if i + 1 < |m.waiters| {
      var u := HighestWaiter(m, i + 1);
      if Rank(Asked(m, u)) > Rank(Asked(m, t)) {
        t := u;
      }
    }
  }

  /** The first waiter for the lock that `m.waiters[p]` waits for. */
  lemma {:induction false} FirstWaiter(m: Machine, p: nat) returns (h: nat)
    requires p < |m.waiters| && forall x :: x in m.waiters ==> Asks(m, x)
    ensures h in m.waiters && Asked(m, h) == Asked(m, m.waiters[p]) && FirstInQueue(m, h)
  {
    var l := Asked(m, m.waiters[p]);
    var i := 0;
    while Asked(m, m.waiters[i]) != l
      invariant i <= p
      invariant forall q :: 0 <= q < i ==> Asked(m, m.waiters[q]) != l
      decreases p - i
    {
      i := i + 1;
    }
    h := m.waiters[i];
  }

  /** No state that keeps the invariant is a deadlock, although the queues are first come, first served. */
  lemma NoDeadlock(m: Machine, init: Tables)
    requires Inv(m, init) && !Finished(m)
    ensures exists t :: Enabled(m, t)
  {
    if forall t :: 0 <= t < |m.tasks| && m.tasks[t].rest != [] ==> m.tasks[t].waiting {
      var some :| 0 <= some < |m.tasks| && m.tasks[some].rest != [];
      assert some in m.waiters;
      assert m.waiters[0..] == m.waiters;
      var t := HighestWaiter(m, 0);
      var p :| 0 <= p < |m.waiters| && m.waiters[p] == t;
      var h := FirstWaiter(m, p);
      var l := Asked(m, h);
      forall u | 0 <= u < |m.tasks|
        ensures l !in m.tasks[u].held
      {
        if l in m.tasks[u].held {
          assert false;
        }
      }
      assert Enabled(m, h);
    } else {
      var t :| 0 <= t < |m.tasks| && m.tasks[t].rest != [] && !m.tasks[t].waiting;
      assert Enabled(m, t);
    }
  }

  // ---------------------------------------------------------------- every task finishes

  /** The steps a task still has to make; an instruction that acquires a lock takes two. */
  function TaskWork(task: Task): nat {
    if task.rest == [] then 0 else 2 * |task.rest| - (if task.waiting then 1 else 0)
  }

  function TaskWorks(tasks: seq<Task>): seq<nat> {
    seq(|tasks|, i requires 0 <= i < |tasks| => TaskWork(tasks[i]))
  }

  function Work(tasks: seq<Task>): nat {
    Total(TaskWorks(tasks))
  }

  lemma StepDoesWork(m: Machine, t: nat)
    requires t < |m.tasks| && m.tasks[t].rest != []
    requires m.tasks[t].waiting ==> m.tasks[t].rest[0].Acquire?
    ensures Work(StepTask(m, t).tasks) < Work(m.tasks) && |StepTask(m, t).tasks| == |m.tasks|
  {
    var moved := Advance(m.tasks[t], m.mem, |m.log|);
    AdvanceRest(m.tasks[t], m.mem, |m.log|);
    TotalAfterUpdate(TaskWorks(m.tasks), t, TaskWork(moved));
    assert TaskWorks(m.tasks[t := moved]) == TaskWorks(m.tasks)[t := TaskWork(moved)];
    StepMovesOne(m, t);
  }

  /** An enabled step takes work off and keeps the invariant. */
  lemma EnabledStepDoesWork(m: Machine, init: Tables, t: nat)
    requires Inv(m, init) && Enabled(m, t)
    ensures var n := StepTask(m, t);
      Inv(n, init) && |n.tasks| == |m.tasks| && Work(n.tasks) < Work(m.tasks) && !Finished(m)
  {
    assert TaskInv(m.tasks[t], init, m.mem, m.log, LastCut(m.snapshots));
    StepDoesWork(m, t);
    StepKeepsTasks(m, init, t);
    StepKeepsExclusive(m, init, t);
    StepKeepsSnapshots(m, init, t);
    StepKeepsQueue(m, init, t);
  }

  /** The lock machine with `n` tasks, as a system of agents. */
  ghost function Locks(init: Tables, n: nat): System<Machine, nat> {
    System((m: Machine, t: nat) => if Enabled(m, t) then StepTask(m, t) else m, t => t, n,
           (m: Machine) => Inv(m, init) && |m.tasks| == n, (m: Machine, t: nat) => Enabled(m, t),
           (m: Machine) => Finished(m), (m: Machine) => Work(m.tasks))
  }

  lemma LocksProgress(init: Tables, n: nat)
    ensures Progresses(Locks(init, n))
  {
    var y := Locks(init, n);
    forall m: Machine, t: nat | y.inv(m)
      ensures StepGoesOn(y, m, t)
    {
      if Enabled(m, t) {
        EnabledStepDoesWork(m, init, t);
      }
    }
    forall m: Machine | y.inv(m)
      ensures NobodyStuck(y, m)
    {
      if !Finished(m) {
        NoDeadlock(m, init);
        var t :| Enabled(m, t);
        EnabledStepDoesWork(m, init, t);
        assert y.enabled(m, t);
      }
    }
  }

  lemma {:induction false} ScheduleIsRun(m: Machine, init: Tables, n: nat, schedule: seq<nat>)
    ensures RunSchedule(m, schedule) == FairRuns.Run(Locks(init, n), m, schedule)
  {
    if schedule == [] {
    } else {
      ScheduleIsRun(m, init, n, schedule[..|schedule| - 1]);
    }
  }

  /** Every task is named. */
  predicate NamesAll(round: seq<nat>, n: nat) {
    forall t :: 0 <= t < n ==> t in round
  }

  /**
   Liveness: under any schedule that names every task again and again, every task is granted every lock it
   waits for and finishes, after no more rounds than there was work at the start.
   */
  lemma FairSchedulesFinish(m: Machine, init: Tables, rounds: seq<seq<nat>>)
    requires Inv(m, init) && |rounds| >= Work(m.tasks)
    requires forall i :: 0 <= i < |rounds| ==> NamesAll(rounds[i], |m.tasks|)
    ensures Finished(RunSchedule(m, Flat(rounds)))
  {
    var y := Locks(init, |m.tasks|);
    LocksProgress(init, |m.tasks|);
    forall i | 0 <= i < |rounds|
      ensures IsRound(y, rounds[i])
    {
      forall t: nat | t < y.agents
        ensures Names(y, rounds[i], t)
      {
        assert t in rounds[i];
      }
    }
    FairRunsAreDone(y, m, rounds);
    ScheduleIsRun(m, init, |m.tasks|, Flat(rounds));
  }

  // ---------------------------------------------------------------- first come, first served

  predicate Distinct(s: seq<nat>) {
    forall p, q :: 0 <= p < q < |s| ==> s[p] != s[q]
  }

  predicate NobodyWaitsTwice(m: Machine) {
    Distinct(m.waiters)
  }

  /** `u` asked for the lock that `t` asks for, and asked first. */
  ghost predicate Ahead(m: Machine, u: nat, t: nat) {
    && Asks(m, u) && Asks(m, t) && Asked(m, u) == Asked(m, t)
    && exists p, q :: 0 <= p < q < |m.waiters| && m.waiters[p] == u && m.waiters[q] == t
  }

  lemma {:induction false} WithoutKeepsOrder(s: seq<nat>, x: nat, p: nat, q: nat) returns (i: nat, j: nat)
    requires p < q < |s| && s[p] != x && s[q] != x
    ensures i < j < |Without(s, x)| && Without(s, x)[i] == s[p] && Without(s, x)[j] == s[q]
  {
    if p > 0 {
      i, j := WithoutKeepsOrder(s[1..], x, p - 1, q - 1);
      if s[0] != x {
        i, j := i + 1, j + 1;
      }
    } else {
      i := 0;
      WithoutMembers(s[1..], x);
      assert s[1..][q - 1] == s[q] && s[q] in s[1..];
      assert s[q] in Without(s[1..], x);
      var k :| 0 <= k < |Without(s[1..], x)| && Without(s[1..], x)[k] == s[q];
      j := k + 1;
    }
  }

  lemma {:induction false} WithoutStaysDistinct(s: seq<nat>, x: nat)
    requires Distinct(s)
    ensures Distinct(Without(s, x))
  {
    if s != [] {
      var rest := Without(s[1..], x);
      assert forall k :: 1 <= k < |s| ==> s[1..][k - 1] == s[k];
      WithoutStaysDistinct(s[1..], x);
      WithoutMembers(s[1..], x);
      InFrontStaysDistinct(s[0], rest);
    }
  }

  lemma InFrontStaysDistinct(x: nat, w: seq<nat>)
    requires Distinct(w) && x !in w
    ensures Distinct([x] + w)
  {
  }

  /** A task behind another one in the queue of its lock is not granted it. */
  lemma BehindIsBlocked(m: Machine, u: nat, t: nat)
    requires NobodyWaitsTwice(m) && QueueInv(m) && Ahead(m, u, t)
    ensures !Enabled(m, t)
  {
    var p, q :| 0 <= p < q < |m.waiters| && m.waiters[p] == u && m.waiters[q] == t;
    assert t in m.waiters;
  }

  /** What a step does to the queue. */
  lemma StepOnQueue(m: Machine, t: nat)
    requires t < |m.tasks| && m.tasks[t].rest != []
    ensures StepTask(m, t).waiters ==
      if !m.tasks[t].rest[0].Acquire? then m.waiters
      else if m.tasks[t].waiting then Without(m.waiters, t) else m.waiters + [t]
  {
  }

  lemma StepKeepsDistinct(m: Machine, t: nat)
    requires QueueInv(m) && NobodyWaitsTwice(m) && Enabled(m, t)
    ensures NobodyWaitsTwice(StepTask(m, t))
  {
    StepOnQueue(m, t);
    WithoutStaysDistinct(m.waiters, t);
  }

  lemma StepKeepsAhead(m: Machine, x: nat, u: nat, t: nat)
    requires QueueInv(m) && NobodyWaitsTwice(m) && Enabled(m, x) && Ahead(m, u, t) && x != u
    ensures x != t && Ahead(StepTask(m, x), u, t)
  {
    BehindIsBlocked(m, u, t);
    StepMovesOne(m, x);
    StepOnQueue(m, x);
    var p, q :| 0 <= p < q < |m.waiters| && m.waiters[p] == u && m.waiters[q] == t;
    var n := StepTask(m, x);
    if m.tasks[x].rest[0].Acquire? && m.tasks[x].waiting {
      var i, j := WithoutKeepsOrder(m.waiters, x, p, q);
      assert n.waiters[i] == u && n.waiters[j] == t;
    } else {
      assert n.waiters[p] == u && n.waiters[q] == t;
    }
  }

  lemma {:induction false} NobodyEverWaitsTwice(m: Machine, init: Tables, schedule: seq<nat>)
    requires Inv(m, init) && NobodyWaitsTwice(m)
    ensures NobodyWaitsTwice(RunSchedule(m, schedule))
  {
    if schedule != [] {
      var before, t := RunSchedule(m, schedule[..|schedule| - 1]), schedule[|schedule| - 1];
      NobodyEverWaitsTwice(m, init, schedule[..|schedule| - 1]);
      EveryScheduleKeepsInv(m, init, schedule[..|schedule| - 1]);
      if Enabled(before, t) {
        StepKeepsDistinct(before, t);
      }
    }
  }

  /** Task `u` has not moved since `m`. */
  predicate StillWaits(m: Machine, n: Machine, u: nat) {
    u < |m.tasks| && u < |n.tasks| && n.tasks[u] == m.tasks[u]
  }

  /** Locks are granted first come, first served: as long as `u` waits, nobody that asked later goes on. */
  lemma {:induction false} NobodyOvertakes(m: Machine, init: Tables, schedule: seq<nat>, u: nat, t: nat)
    requires Inv(m, init) && NobodyWaitsTwice(m) && Ahead(m, u, t)
    requires forall k :: 0 <= k <= |schedule| ==> StillWaits(m, RunSchedule(m, schedule[..k]), u)
    ensures var n := RunSchedule(m, schedule);
      NobodyWaitsTwice(n) && Ahead(n, u, t) && n.tasks[t] == m.tasks[t] && !Enabled(n, t)
  {
    var k := |schedule|;
    assert schedule[..k] == schedule;
    if schedule == [] {
      BehindIsBlocked(m, u, t);
    } else {
      var earlier := schedule[..k - 1];
      var n, x := RunSchedule(m, earlier), schedule[k - 1];
      forall j | 0 <= j <= |earlier|
        ensures StillWaits(m, RunSchedule(m, earlier[..j]), u)
      {
        assert earlier[..j] == schedule[..j];
      }
      NobodyOvertakes(m, init, earlier, u, t);
      EveryScheduleKeepsInv(m, init, earlier);
      if Enabled(n, x) {
        assert StillWaits(m, RunSchedule(m, schedule[..k]), u);
        StepOvertakesNobody(n, init, x, u, t);
      }
    }
  }

  lemma StepOvertakesNobody(m: Machine, init: Tables, x: nat, u: nat, t: nat)
    requires Inv(m, init) && NobodyWaitsTwice(m) && Ahead(m, u, t) && Enabled(m, x)
    requires StepTask(m, x).tasks[u] == m.tasks[u]
    ensures var n := StepTask(m, x);
      NobodyWaitsTwice(n) && Ahead(n, u, t) && n.tasks[t] == m.tasks[t] && !Enabled(n, t)
  {
    SteppedTaskMoves(m, x);
    StepKeepsAhead(m, x, u, t);
    StepKeepsDistinct(m, x);
    StepMovesOne(m, x);
    StepKeepsQueue(m, init, x);
    BehindIsBlocked(StepTask(m, x), u, t);
  }

  lemma SteppedTaskMoves(m: Machine, x: nat)
    requires Enabled(m, x)
    ensures StepTask(m, x).tasks[x] != m.tasks[x]
  {
    AdvanceRest(m.tasks[x], m.mem, |m.log|);
    StepMovesOne(m, x);
  }
}
