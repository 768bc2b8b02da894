/**
 What the tasks of the lock machine have done by the time they finish: each made the accesses of its program in
 their order (`EachTaskInItsOrder`), each `Publish` wrote a snapshot (`EveryPublishWrites`), and a snapshot whose
 flush began at some instant holds everything done before (`LaterSnapshotsAreFresh`).
 */
module ProgramOrder {
  import opened ChannelState
  import opened FairRuns
  import opened LockMachine

  // ---------------------------------------------------------------- the order of each program

  /** The accesses of a program, in order. */
  function AccessSeq(rest: seq<Instr>): seq<Access> {
    if rest == [] then [] else (if rest[0].Do? then [rest[0].access] else []) + AccessSeq(rest[1..])
  }

  /** The locks of a program, in the order in which they are taken. */
  function LockSeq(rest: seq<Instr>): seq<Instr> {
    if rest == [] then [] else (if rest[0].Acquire? then [rest[0]] else []) + LockSeq(rest[1..])
  }

  /** Which task made each access of the log. */
  ghost function Owners(m: Machine, schedule: seq<nat>): seq<nat> {
    if schedule == [] then []
    else
      var before, t := RunSchedule(m, schedule[..|schedule| - 1]), schedule[|schedule| - 1];
      Owners(m, schedule[..|schedule| - 1])
      + (if Enabled(before, t) && before.tasks[t].rest[0].Do? then [t] else [])
  }

  /** The accesses of the log that task `t` made. */
  function Own(log: seq<Access>, owners: seq<nat>, t: nat): seq<Access>
    requires |log| == |owners|
  {
    if log == [] then []
    else
      var n := |log| - 1;
      Own(log[..n], owners[..n], t) + (if owners[n] == t then [log[n]] else [])
  }

  lemma OwnOneMore(log: seq<Access>, owners: seq<nat>, a: Access, u: nat, t: nat)
    requires |log| == |owners|
    ensures Own(log + [a], owners + [u], t) == Own(log, owners, t) + (if u == t then [a] else [])
  {
    assert (log + [a])[..|log|] == log && (owners + [u])[..|log|] == owners;
  }

  lemma AdvanceAccesses(task: Task, mem: Tables, now: nat)
    requires task.rest != []
    ensures AccessSeq(task.rest) ==
      (if task.rest[0].Do? then [task.rest[0].access] else []) + AccessSeq(Advance(task, mem, now).rest)
  {
    AdvanceRest(task, mem, now);
  }

  ghost predicate InOrder(m: Machine, n: Machine, owners: seq<nat>) {
    && |owners| == |n.log| && |n.tasks| == |m.tasks| && (forall t <- owners :: t < |m.tasks|)
    && forall t :: 0 <= t < |m.tasks| ==>
         Own(n.log, owners, t) + AccessSeq(n.tasks[t].rest) == AccessSeq(m.tasks[t].rest)
  }

  lemma StepLogs(m: Machine, t: nat)
    requires t < |m.tasks| && m.tasks[t].rest != []
    ensures var first := m.tasks[t].rest[0];
      StepTask(m, t).log == if first.Do? then m.log + [first.access] else m.log
  {
  }

  /** One step of task `t`, seen from task `u`. */
  lemma OwnAfterStep(n: Machine, owners: seq<nat>, t: nat, u: nat)
    requires |owners| == |n.log| && t < |n.tasks| && u < |n.tasks| && n.tasks[t].rest != []
    ensures var after, more := StepTask(n, t), owners + (if n.tasks[t].rest[0].Do? then [t] else []);
      && |more| == |after.log| && |after.tasks| == |n.tasks|
      && Own(after.log, more, u) + AccessSeq(after.tasks[u].rest)
           == Own(n.log, owners, u) + AccessSeq(n.tasks[u].rest)
  {
    var first := n.tasks[t].rest[0];
    StepLogs(n, t);
    StepMovesOne(n, t);
    AdvanceAccesses(n.tasks[t], n.mem, |n.log|);
    if first.Do? {
      OwnOneMore(n.log, owners, first.access, t, u);
    } else {
      assert owners + [] == owners;
    }
  }

  lemma StepKeepsOrder(m: Machine, n: Machine, owners: seq<nat>, t: nat)
    requires InOrder(m, n, owners) && Enabled(n, t)
    ensures InOrder(m, StepTask(n, t), owners + (if n.tasks[t].rest[0].Do? then [t] else []))
  {
    OwnAfterStep(n, owners, t, t);
    forall u | 0 <= u < |m.tasks|
      ensures Own(StepTask(n, t).log, owners + (if n.tasks[t].rest[0].Do? then [t] else []), u)
        + AccessSeq(StepTask(n, t).tasks[u].rest) == AccessSeq(m.tasks[u].rest)
    {
      OwnAfterStep(n, owners, t, u);
    }
  }

  /** In every interleaving each task makes the accesses of its program in the program's order, and no others. */
  lemma {:induction false} EachTaskInItsOrder(m: Machine, schedule: seq<nat>)
    requires m.log == []
    ensures InOrder(m, RunSchedule(m, schedule), Owners(m, schedule))
  {
    if schedule == [] {
    } else {
      var before, t := RunSchedule(m, schedule[..|schedule| - 1]), schedule[|schedule| - 1];
      EachTaskInItsOrder(m, schedule[..|schedule| - 1]);
      if Enabled(before, t) {
        StepKeepsOrder(m, before, Owners(m, schedule[..|schedule| - 1]), t);
      } else {
        assert Owners(m, schedule) == Owners(m, schedule[..|schedule| - 1]);
      }
    }
  }

  // ---------------------------------------------------------------- every publish writes

  function Publishes(rest: seq<Instr>): nat {
    if rest == [] then 0 else (if rest[0].Publish? then 1 else 0) + Publishes(rest[1..])
  }

  function ToPublish(tasks: seq<Task>): seq<nat> {
    seq(|tasks|, i requires 0 <= i < |tasks| => Publishes(tasks[i].rest))
  }

  lemma AdvancePublishes(task: Task, mem: Tables, now: nat)
    requires task.rest != []
    ensures Publishes(task.rest) == (if task.rest[0].Publish? then 1 else 0) + Publishes(Advance(task, mem, now).rest)
  {
    AdvanceRest(task, mem, now);
  }

  lemma StepPublishes(m: Machine, init: Tables, t: nat)
    requires Inv(m, init) && Enabled(m, t)
    ensures var n := StepTask(m, t);
      |n.snapshots| + Total(ToPublish(n.tasks)) == |m.snapshots| + Total(ToPublish(m.tasks))
  {
    var task, moved := m.tasks[t], Advance(m.tasks[t], m.mem, |m.log|);
    assert TaskInv(task, init, m.mem, m.log, LastCut(m.snapshots));
    AdvancePublishes(task, m.mem, |m.log|);
    StepMovesOne(m, t);
    TotalAfterUpdate(ToPublish(m.tasks), t, Publishes(moved.rest));
    assert ToPublish(m.tasks[t := moved]) == ToPublish(m.tasks)[t := Publishes(moved.rest)];
  }

  /** In every interleaving snapshots written and snapshots still to write are together those of the programs. */
  lemma {:induction false} EveryPublishWrites(m: Machine, init: Tables, schedule: seq<nat>)
    requires Inv(m, init)
    ensures var n := RunSchedule(m, schedule);
      |n.snapshots| + Total(ToPublish(n.tasks)) == |m.snapshots| + Total(ToPublish(m.tasks))
  {
    if schedule == [] {
    } else {
      var before, t := RunSchedule(m, schedule[..|schedule| - 1]), schedule[|schedule| - 1];
      EveryPublishWrites(m, init, schedule[..|schedule| - 1]);
      EveryScheduleKeepsInv(m, init, schedule[..|schedule| - 1]);
      if Enabled(before, t) {
        StepPublishes(before, init, t);
      }
    }
  }

  lemma {:induction false} NothingToPublish(tasks: seq<Task>)
    requires forall t :: 0 <= t < |tasks| ==> tasks[t].rest == []
    ensures Total(ToPublish(tasks)) == 0
  {
    if tasks == [] {
    } else {
      NothingToPublish(tasks[1..]);
      assert ToPublish(tasks)[1..] == ToPublish(tasks[1..]);
    }
  }

  // ---------------------------------------------------------------- snapshots are fresh

  /** No task is inside a flush. */
  predicate NoFlushUnderWay(m: Machine) {
    forall t :: 0 <= t < |m.tasks| ==> FlushLock !in m.tasks[t].held
  }

  /** Snapshots from number `k` on, and those of the flushes under way, begin at or after instant `from`. */
  ghost predicate FreshFrom(m: Machine, k: nat, from: nat) {
    && k <= |m.snapshots| && from <= |m.log|
    && (forall i :: k <= i < |m.snapshots| ==> m.snapshots[i].since >= from)
    && (forall t :: 0 <= t < |m.tasks| && FlushLock in m.tasks[t].held ==> m.tasks[t].since >= from)
  }

  lemma StepKeepsFresh(m: Machine, init: Tables, t: nat, k: nat, from: nat)
    requires Inv(m, init) && Enabled(m, t) && FreshFrom(m, k, from)
    ensures FreshFrom(StepTask(m, t), k, from)
    ensures m.log <= StepTask(m, t).log && m.snapshots <= StepTask(m, t).snapshots
  {
    assert TaskInv(m.tasks[t], init, m.mem, m.log, LastCut(m.snapshots));
  }

  lemma {:induction false} RunKeepsFresh(m: Machine, init: Tables, more: seq<nat>, k: nat, from: nat)
    requires Inv(m, init) && FreshFrom(m, k, from)
    ensures var n := RunSchedule(m, more);
      FreshFrom(n, k, from) && m.log <= n.log && m.snapshots <= n.snapshots
  {
    if more == [] {
    } else {
      var before, t := RunSchedule(m, more[..|more| - 1]), more[|more| - 1];
      RunKeepsFresh(m, init, more[..|more| - 1], k, from);
      EveryScheduleKeepsInv(m, init, more[..|more| - 1]);
      if Enabled(before, t) {
        StepKeepsFresh(before, init, t, k, from);
      }
    }
  }

  /** Whatever was done before a flush began is in its snapshot. */
  lemma LaterSnapshotsAreFresh(m: Machine, init: Tables, more: seq<nat>)
    requires Inv(m, init) && NoFlushUnderWay(m)
    ensures var n := RunSchedule(m, more);
      && m.log <= n.log && m.snapshots <= n.snapshots
      && forall i :: |m.snapshots| <= i < |n.snapshots| ==>
           |m.log| <= n.snapshots[i].cut <= |n.log|
           && n.snapshots[i].content == ApplyAll(init, n.log[..n.snapshots[i].cut])
  {
    RunKeepsFresh(m, init, more, |m.snapshots|, |m.log|);
    EveryScheduleKeepsInv(m, init, more);
    var n := RunSchedule(m, more);
    forall i | |m.snapshots| <= i < |n.snapshots|
      ensures |m.log| <= n.snapshots[i].cut <= |n.log|
        && n.snapshots[i].content == ApplyAll(init, n.log[..n.snapshots[i].cut])
    {
      assert SnapshotInv(n.snapshots[i], init, n.log);
    }
  }
}
