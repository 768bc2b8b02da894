/**
 Conservation in the lock machine: whatever the schedule, no access of a program is lost or
 repeated (`AccessesAreConserved`).
 */
module LockConservation {
  import opened ChannelState
  import opened LockMachine

  /** The accesses a program is still to make. */
  function Accesses(rest: seq<Instr>): multiset<Access> {
    if rest == [] then multiset{}
    else (if rest[0].Do? then multiset{rest[0].access} else multiset{}) + Accesses(rest[1..])
  }

  function Pending(tasks: seq<Task>): multiset<Access> {
    if tasks == [] then multiset{} else Accesses(tasks[0].rest) + Pending(tasks[1..])
  }

  /** `new` comes from `old` by taking `less` away and putting `more` in. */
  predicate Exchanged(old_: multiset<Access>, new_: multiset<Access>, less: multiset<Access>, more: multiset<Access>) {
    new_ + less == old_ + more
  }

  lemma {:induction false} PendingAfterUpdate(tasks: seq<Task>, t: nat, task: Task)
    requires t < |tasks|
    ensures Exchanged(Pending(tasks), Pending(tasks[t := task]), Accesses(tasks[t].rest), Accesses(task.rest))
  {
    var updated := tasks[t := task];
    assert Pending(updated) == Accesses(updated[0].rest) + Pending(updated[1..]);
    if t == 0 {
      assert updated[1..] == tasks[1..];
    } else {
      assert updated[1..] == tasks[1..][t - 1 := task];
      PendingAfterUpdate(tasks[1..], t - 1, task);
      ExchangeInTail(Accesses(tasks[0].rest), Pending(tasks[1..]), Pending(updated[1..]),
                     Accesses(tasks[t].rest), Accesses(task.rest));
    }
  }

  lemma ExchangeInTail(head: multiset<Access>, old_: multiset<Access>, new_: multiset<Access>,
                       less: multiset<Access>, more: multiset<Access>)
    requires Exchanged(old_, new_, less, more)
    ensures Exchanged(head + old_, head + new_, less, more)
  {
    assert head + new_ + less == head + (new_ + less);
    assert head + old_ + more == head + (old_ + more);
  }

  lemma OneAccessMade(old_: multiset<Access>, new_: multiset<Access>, rest: multiset<Access>, made: multiset<Access>)
    requires Exchanged(old_, new_, made + rest, rest)
    ensures new_ + made == old_
  {
    forall a
      ensures (new_ + made)[a] == old_[a]
    {
      assert (new_ + (made + rest))[a] == (old_ + rest)[a];
    }
  }

  /** The access a step makes, if it makes one. */
  function Made(task: Task): multiset<Access>
    requires task.rest != []
  {
    if task.rest[0].Do? then multiset{task.rest[0].access} else multiset{}
  }

  lemma AdvanceMakes(task: Task, mem: Tables, now: nat)
    requires task.rest != []
    ensures Accesses(task.rest) == Made(task) + Accesses(Advance(task, mem, now).rest)
  {
    AdvanceRest(task, mem, now);
    var rest := task.rest;
    assert Accesses(rest) == Made(task) + Accesses(rest[1..]);
    if rest[0].Acquire? {
      assert Made(task) == multiset{};
    }
  }

  lemma StepConserves(m: Machine, t: nat)
    requires t < |m.tasks| && m.tasks[t].rest != []
    ensures var n := StepTask(m, t); multiset(n.log) + Pending(n.tasks) == multiset(m.log) + Pending(m.tasks)
  {
    var task, moved := m.tasks[t], Advance(m.tasks[t], m.mem, |m.log|);
    PendingAfterUpdate(m.tasks, t, moved);
    AdvanceMakes(task, m.mem, |m.log|);
    StepMovesOne(m, t);
    OneAccessMade(Pending(m.tasks), Pending(m.tasks[t := moved]), Accesses(moved.rest), Made(task));
  }

  /** In every schedule the accesses made and the accesses still to make are together those of the programs. */
  lemma {:induction false} AccessesAreConserved(m: Machine, schedule: seq<nat>)
    ensures var n := RunSchedule(m, schedule);
      multiset(n.log) + Pending(n.tasks) == multiset(m.log) + Pending(m.tasks)
  {
    if schedule == [] {
    } else {
      AccessesAreConserved(m, schedule[..|schedule| - 1]);
      var before, t := RunSchedule(m, schedule[..|schedule| - 1]), schedule[|schedule| - 1];
      if Enabled(before, t) {
        StepConserves(before, t);
      }
    }
  }

  lemma {:induction false} NothingPendingWhenFinished(tasks: seq<Task>)
    requires forall t :: 0 <= t < |tasks| ==> tasks[t].rest == []
    ensures Pending(tasks) == multiset{}
  {
    if tasks == [] {
    } else {
      NothingPendingWhenFinished(tasks[1..]);
    }
  }

  lemma FinishedRunIsConserved(m: Machine, schedule: seq<nat>)
    requires m.log == [] && Finished(RunSchedule(m, schedule))
    ensures multiset(RunSchedule(m, schedule).log) == Pending(m.tasks)
  {
    AccessesAreConserved(m, schedule);
    var n := RunSchedule(m, schedule);
    NothingPendingWhenFinished(n.tasks);
    assert multiset(m.log) == multiset{};
    assert multiset(n.log) + Pending(n.tasks) == multiset(n.log);
    assert multiset(m.log) + Pending(m.tasks) == Pending(m.tasks);
  }
}
