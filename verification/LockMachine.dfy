/**
 The locks of the channel map and everything that runs under them, as a machine
 whose steps interleave in any order: a task asks for a lock and joins its queue, is
 granted it in queue order, accesses the tables, copies a table into its buffer,
 publishes the buffer as the new snapshot, or releases a lock.

 Every program that follows the `Disciplined` order keeps `Inv`, whatever the
 schedule. From it: each snapshot is the memory at one single instant, and snapshots
 never go back in time (`SnapshotsAreInstants`).
 */
module LockMachine {
  import opened Options
  import opened ChannelState

  datatype Lock =
    | FlushLock | PathLock | SessionMutex(key: ChannelKey) | RegistryLock
    | SessionsLock | YoloLock | ChatsLock | AllowLock

  datatype Mode = Read | Write

  datatype Instr =
    | Acquire(lock: Lock, mode: Mode)
    | Release(lock: Lock)
    | Do(access: Access)
    | Copy(lock: Lock)
    | Publish

  /**
   `copied` are the tables copied under locks still held; `cut` is the instant the
   complete buffer stands for, `since` an instant at which the task held the flush lock and
   every earlier snapshot was already written.
   */
  datatype Task = Task(
    rest: seq<Instr>, held: map<Lock, Mode>, waiting: bool,
    copied: set<Lock>, buf: Tables, cut: Option<nat>, since: nat)

  datatype Snapshot = Snapshot(since: nat, cut: nat, content: Tables)

  /** An instant is a number of accesses made so far. `waiters` is in order of arrival. */
  datatype Machine = Machine(
    mem: Tables, tasks: seq<Task>, waiters: seq<nat>, log: seq<Access>, snapshots: seq<Snapshot>)

  const TABLE_LOCKS: set<Lock> := {SessionsLock, YoloLock, ChatsLock, AllowLock}

  /** The canonical lock order. */
  function Rank(l: Lock): nat {
    match l
    case FlushLock => 0
    case PathLock => 1
    case RegistryLock => 2
    case SessionMutex(_) => 3
    case SessionsLock => 4
    case YoloLock => 5
    case ChatsLock => 6
    case AllowLock => 7
  }

  function Writes(a: Access): Lock {
    match a
    case SetSession(_, _) => SessionsLock
    case RemoveSession(_) => SessionsLock
    case SetGrant(_, _, _) => YoloLock
    case RestoreGrant(_, _, _, _) => YoloLock
    case RemoveGrant(_) => YoloLock
    case DropGrants(_) => YoloLock
    case CountEnable(_, _) => ChatsLock
    case DropRow(_) => ChatsLock
    case SeedRows => ChatsLock
    case AllowAdd(_, _) => AllowLock
    case AllowRemove(_, _) => AllowLock
  }

  predicate SameTable(l: Lock, s: Tables, t: Tables) {
    match l
    case SessionsLock => s.sessions == t.sessions
    case YoloLock => s.yolo == t.yolo
    case ChatsLock => s.chats == t.chats
    case AllowLock => s.allow == t.allow
    case _ => true
  }

  function CopyTable(l: Lock, from: Tables, to: Tables): Tables {
    match l
    case SessionsLock => to.(sessions := from.sessions)
    case YoloLock => to.(yolo := from.yolo)
    case ChatsLock => to.(chats := from.chats)
    case AllowLock => to.(allow := from.allow)
    case _ => to
  }

  lemma AccessWritesOneTable(s: Tables, a: Access, l: Lock)
    requires l != Writes(a)
    ensures SameTable(l, Apply(s, a), s)
  {
  }

  // ---------------------------------------------------------------- steps

  predicate Compatible(m: Machine, l: Lock, mode: Mode) {
    forall u :: 0 <= u < |m.tasks| && l in m.tasks[u].held ==> mode == Read && m.tasks[u].held[l] == Read
  }

  predicate Asks(m: Machine, t: nat) {
    t < |m.tasks| && m.tasks[t].rest != [] && m.tasks[t].rest[0].Acquire?
  }

  function Asked(m: Machine, t: nat): Lock
    requires Asks(m, t)
  {
    m.tasks[t].rest[0].lock
  }

  /** `t` has waited longest for its lock. */
  ghost predicate FirstInQueue(m: Machine, t: nat)
    requires Asks(m, t)
  {
    exists p :: 0 <= p < |m.waiters| && m.waiters[p] == t
      && forall q :: 0 <= q < p && Asks(m, m.waiters[q]) ==> Asked(m, m.waiters[q]) != Asked(m, t)
  }

  ghost predicate Enabled(m: Machine, t: nat) {
    && t < |m.tasks| && m.tasks[t].rest != []
    && (Asks(m, t) && m.tasks[t].waiting ==>
          FirstInQueue(m, t) && Compatible(m, Asked(m, t), m.tasks[t].rest[0].mode))
  }

  /** The task itself after its next instruction; `mem` and `now` are the memory and instant it runs at. */
  function Advance(t: Task, mem: Tables, now: nat): Task
    requires t.rest != []
  {
    var after := t.(rest := t.rest[1..]);
    match t.rest[0]
    case Acquire(l, mode) =>
      if !t.waiting then t.(waiting := true)
      else after.(waiting := false, held := t.held[l := mode], since := if l == FlushLock then now else t.since)
    case Release(l) =>
      after.(held := t.held - {l}, copied := t.copied - {l},
             cut := if l == FlushLock then None
                    else if CutsHere(t, l) then Some(now)
                    else t.cut)
    case Do(_) => after
    case Copy(l) => after.(copied := t.copied + {l}, buf := CopyTable(l, mem, t.buf))
    case Publish => after.(cut := None, since := now)
  }

  /** The first release after the whole buffer was built. */
  predicate CutsHere(t: Task, l: Lock) {
    l in TABLE_LOCKS && t.copied == TABLE_LOCKS && FlushLock in t.held && t.cut.None?
  }

  function Without(s: seq<nat>, t: nat): seq<nat> {
    if s == [] then [] else (if s[0] == t then [] else [s[0]]) + Without(s[1..], t)
  }

  function StepTask(m: Machine, t: nat): Machine
    requires t < |m.tasks| && m.tasks[t].rest != []
  {
    var task := m.tasks[t];
    var moved := m.(tasks := m.tasks[t := Advance(task, m.mem, |m.log|)]);
    match task.rest[0]
    case Acquire(_, _) =>
      moved.(waiters := if task.waiting then Without(m.waiters, t) else m.waiters + [t])
    case Do(a) => moved.(mem := Apply(m.mem, a), log := m.log + [a])
    case Publish =>
      if task.cut.None? then moved
      else moved.(snapshots := m.snapshots + [Snapshot(task.since, task.cut.value, task.buf)])
    case _ => moved
  }

  /** A schedule names the task to run next; a task that cannot run is passed over. */
  ghost function RunSchedule(m: Machine, schedule: seq<nat>): Machine {
    if schedule == [] then m
    else
      var before := RunSchedule(m, schedule[..|schedule| - 1]);
      var t := schedule[|schedule| - 1];
      if Enabled(before, t) then StepTask(before, t) else before
  }

  lemma AdvanceRest(task: Task, mem: Tables, now: nat)
    requires task.rest != []
    ensures Advance(task, mem, now).rest == if task.rest[0].Acquire? && !task.waiting then task.rest else task.rest[1..]
  {
  }

  /** A step changes the task that makes it and no other. */
  lemma StepMovesOne(m: Machine, t: nat)
    requires t < |m.tasks| && m.tasks[t].rest != []
    ensures StepTask(m, t).tasks == m.tasks[t := Advance(m.tasks[t], m.mem, |m.log|)]
  {
  }

  // ---------------------------------------------------------------- discipline

  /**
   The rest of a program, given what is held, copied and cut so far: locks are taken
   in increasing order, tables are accessed and copied under their locks, a snapshot is
   published under the flush lock after its cut, and nothing is held at the end.
   */
  predicate Disciplined(held: map<Lock, Mode>, copied: set<Lock>, cut: bool, rest: seq<Instr>)
    decreases rest
  {
    && (FlushLock in held ==> held[FlushLock] == Write)
    && (cut ==> FlushLock in held)
    && (copied <= held.Keys && copied <= TABLE_LOCKS)
    && if rest == [] then held == map[]
       else
         match rest[0]
         case Acquire(l, mode) =>
           && (forall h :: h in held ==> Rank(h) < Rank(l))
           && (l == FlushLock ==> mode == Write)
           && Disciplined(held[l := mode], copied, cut, rest[1..])
         case Release(l) =>
           && l in held
           && Disciplined(held - {l}, copied - {l},
                l != FlushLock && (cut || (l in TABLE_LOCKS && copied == TABLE_LOCKS && FlushLock in held)),
                rest[1..])
         case Do(a) =>
           && Writes(a) in held && held[Writes(a)] == Write
           && (a == SeedRows ==> YoloLock in held)
           && copied == {}
           && Disciplined(held, copied, cut, rest[1..])
         case Copy(l) =>
           && l in held && l in TABLE_LOCKS && !cut
           && Disciplined(held, copied + {l}, cut, rest[1..])
         case Publish =>
           cut && Disciplined(held, copied, false, rest[1..])
  }

  // ---------------------------------------------------------------- invariant

  function LastCut(snapshots: seq<Snapshot>): nat {
    if snapshots == [] then 0 else snapshots[|snapshots| - 1].cut
  }

  ghost predicate TaskInv(task: Task, init: Tables, mem: Tables, log: seq<Access>, last: nat) {
    && Disciplined(task.held, task.copied, task.cut.Some?, task.rest)
    && (task.waiting ==> task.rest != [] && task.rest[0].Acquire?)
    && (forall l :: l in task.copied ==> SameTable(l, task.buf, mem))
    && (FlushLock in task.held ==> last <= task.since <= |log|)
    && (task.cut.Some? ==> task.since <= task.cut.value <= |log|)
    && (task.cut.Some? ==> task.buf == ApplyAll(init, log[..task.cut.value]))
  }

  /** Two tasks share a lock only as readers. */
  predicate NoConflict(a: map<Lock, Mode>, b: map<Lock, Mode>) {
    forall l :: l in a && l in b ==> a[l] == Read && b[l] == Read
  }

  ghost predicate Exclusive(m: Machine) {
    forall t, u :: 0 <= t < |m.tasks| && 0 <= u < |m.tasks| && t != u ==> NoConflict(m.tasks[t].held, m.tasks[u].held)
  }

  ghost predicate SnapshotInv(s: Snapshot, init: Tables, log: seq<Access>) {
    s.since <= s.cut <= |log| && s.content == ApplyAll(init, log[..s.cut])
  }

  ghost predicate SnapshotsInv(m: Machine, init: Tables) {
    && (forall i :: 0 <= i < |m.snapshots| ==> SnapshotInv(m.snapshots[i], init, m.log))
    && (forall i, j :: 0 <= i < j < |m.snapshots| ==> m.snapshots[i].cut <= m.snapshots[j].since)
  }

  ghost predicate QueueInv(m: Machine) {
    && (forall t :: t in m.waiters ==> t < |m.tasks| && m.tasks[t].waiting)
    && (forall t :: 0 <= t < |m.tasks| && m.tasks[t].waiting ==> t in m.waiters)
  }

  ghost predicate Inv(m: Machine, init: Tables) {
    && m.mem == ApplyAll(init, m.log)
    && (forall t :: 0 <= t < |m.tasks| ==> TaskInv(m.tasks[t], init, m.mem, m.log, LastCut(m.snapshots)))
    && Exclusive(m)
    && SnapshotsInv(m, init)
    && QueueInv(m)
  }

  // ---------------------------------------------------------------- the invariant is kept

  lemma {:induction false} WithoutMembers(s: seq<nat>, t: nat)
    ensures forall x :: x in Without(s, t) <==> x in s && x != t
  {
    if s == [] {
    } else {
      WithoutMembers(s[1..], t);
      assert s == [s[0]] + s[1..];
    }
  }

  lemma PrefixOfGrownLog(init: Tables, log: seq<Access>, a: Access, k: nat)
    requires k <= |log|
    ensures ApplyAll(init, (log + [a])[..k]) == ApplyAll(init, log[..k])
  {
    assert (log + [a])[..k] == log[..k];
  }

  /** The stepping task keeps its own invariant. */
  lemma AdvanceKeepsTaskInv(task: Task, init: Tables, mem: Tables, log: seq<Access>, last: nat)
    requires TaskInv(task, init, mem, log, last) && task.rest != [] && last <= |log|
    requires mem == ApplyAll(init, log) && !task.rest[0].Do?
    ensures TaskInv(Advance(task, mem, |log|), init, mem, log, last)
  {
    match task.rest[0]
    case Acquire(_, _) => AcquireKeepsTaskInv(task, init, mem, log, last);
    case Release(_) => ReleaseKeepsTaskInv(task, init, mem, log, last);
    case _ =>
  }

  lemma AcquireKeepsTaskInv(task: Task, init: Tables, mem: Tables, log: seq<Access>, last: nat)
    requires TaskInv(task, init, mem, log, last) && task.rest != [] && last <= |log| && task.rest[0].Acquire?
    ensures TaskInv(Advance(task, mem, |log|), init, mem, log, last)
  {
  }

  lemma ReleaseKeepsTaskInv(task: Task, init: Tables, mem: Tables, log: seq<Access>, last: nat)
    requires TaskInv(task, init, mem, log, last) && task.rest != [] && last <= |log| && task.rest[0].Release?
    requires mem == ApplyAll(init, log)
    ensures TaskInv(Advance(task, mem, |log|), init, mem, log, last)
  {
    if CutsHere(task, task.rest[0].lock) {
      WholeBufferIsMemory(task, mem);
      assert log[..|log|] == log;
    }
  }

  lemma WholeBufferIsMemory(task: Task, mem: Tables)
    requires task.copied == TABLE_LOCKS && forall l :: l in task.copied ==> SameTable(l, task.buf, mem)
    ensures task.buf == mem
  {
    assert SessionsLock in task.copied && YoloLock in task.copied && ChatsLock in task.copied && AllowLock in task.copied;
  }

  /** An access by `t` does not disturb what other tasks have copied or cut. */
  lemma AccessKeepsTaskInv(task: Task, init: Tables, mem: Tables, log: seq<Access>, last: nat, a: Access)
    requires TaskInv(task, init, mem, log, last) && Writes(a) !in task.copied
    ensures TaskInv(task, init, Apply(mem, a), log + [a], last)
  {
    forall l | l in task.copied
      ensures SameTable(l, task.buf, Apply(mem, a))
    {
      AccessWritesOneTable(mem, a, l);
    }
    if task.cut.Some? {
      PrefixOfGrownLog(init, log, a, task.cut.value);
    }
  }

  lemma StepKeepsTasks(m: Machine, init: Tables, t: nat)
    requires Inv(m, init) && Enabled(m, t)
    ensures var n := StepTask(m, t);
      && n.mem == ApplyAll(init, n.log)
      && forall u :: 0 <= u < |n.tasks| ==> TaskInv(n.tasks[u], init, n.mem, n.log, LastCut(n.snapshots))
  {
    var n, task := StepTask(m, t), m.tasks[t];
    LastCutInPast(m, init);
    match task.rest[0]
    case Do(a) =>
      assert n.log[..|n.log| - 1] == m.log;
      forall u | 0 <= u < |n.tasks|
        ensures TaskInv(n.tasks[u], init, n.mem, n.log, LastCut(n.snapshots))
      {
        if u != t {
          assert NoConflict(task.held, m.tasks[u].held);
          AccessKeepsTaskInv(m.tasks[u], init, m.mem, m.log, LastCut(m.snapshots), a);
        } else {
          AccessKeepsTaskInv(task, init, m.mem, m.log, LastCut(m.snapshots), a);
        }
      }
    case Publish =>
      assert FlushLock in task.held && task.held[FlushLock] == Write;
      assert LastCut(n.snapshots) == task.cut.value;
      forall u | 0 <= u < |n.tasks|
        ensures TaskInv(n.tasks[u], init, n.mem, n.log, LastCut(n.snapshots))
      {
        if u != t {
          assert NoConflict(task.held, m.tasks[u].held);
        }
      }
    case _ =>
      AdvanceKeepsTaskInv(task, init, m.mem, m.log, LastCut(m.snapshots));
  }

  lemma LastCutInPast(m: Machine, init: Tables)
    requires SnapshotsInv(m, init)
    ensures LastCut(m.snapshots) <= |m.log|
  {
    if m.snapshots != [] {
      assert SnapshotInv(m.snapshots[|m.snapshots| - 1], init, m.log);
    }
  }

  /** A lock that is granted is compatible with what every other task holds. */
  lemma GrantedLockConflictsWithNone(m: Machine, t: nat, u: nat)
    requires Exclusive(m) && Asks(m, t) && u < |m.tasks| && u != t
    requires Compatible(m, Asked(m, t), m.tasks[t].rest[0].mode)
    ensures var held := m.tasks[t].held[Asked(m, t) := m.tasks[t].rest[0].mode];
      NoConflict(held, m.tasks[u].held) && NoConflict(m.tasks[u].held, held)
  {
    assert NoConflict(m.tasks[t].held, m.tasks[u].held);
  }

  /** What the stepping task holds afterwards: one lock more if it is granted one, otherwise nothing new. */
  lemma HeldAfterStep(task: Task, mem: Tables, now: nat)
    requires task.rest != []
    ensures var held := Advance(task, mem, now).held;
      if task.rest[0].Acquire? && task.waiting then held == task.held[task.rest[0].lock := task.rest[0].mode]
      else held.Keys <= task.held.Keys && forall l :: l in held ==> held[l] == task.held[l]
  {
  }

  /** The stepping task conflicts with no other. */
  lemma SteppingTaskIsExclusive(m: Machine, t: nat, u: nat)
    requires Exclusive(m) && Enabled(m, t) && u < |m.tasks| && u != t
    ensures var held := Advance(m.tasks[t], m.mem, |m.log|).held;
      NoConflict(held, m.tasks[u].held) && NoConflict(m.tasks[u].held, held)
  {
    HeldAfterStep(m.tasks[t], m.mem, |m.log|);
    if m.tasks[t].rest[0].Acquire? && m.tasks[t].waiting {
      GrantedLockConflictsWithNone(m, t, u);
    } else {
      assert NoConflict(m.tasks[t].held, m.tasks[u].held);
    }
  }

  lemma StepKeepsExclusive(m: Machine, init: Tables, t: nat)
    requires Inv(m, init) && Enabled(m, t)
    ensures Exclusive(StepTask(m, t))
  {
    StepMovesOne(m, t);
    var n := m.tasks[t := Advance(m.tasks[t], m.mem, |m.log|)];
    forall u, v | 0 <= u < |n| && 0 <= v < |n| && u != v
      ensures NoConflict(n[u].held, n[v].held)
    {
      if u == t {
        SteppingTaskIsExclusive(m, t, v);
      } else if v == t {
        SteppingTaskIsExclusive(m, t, u);
      } else {
        assert NoConflict(m.tasks[u].held, m.tasks[v].held);
      }
    }
  }

  lemma StepKeepsSnapshots(m: Machine, init: Tables, t: nat)
    requires Inv(m, init) && Enabled(m, t)
    ensures SnapshotsInv(StepTask(m, t), init)
  {
    var n, task := StepTask(m, t), m.tasks[t];
    match task.rest[0]
    case Do(a) =>
      forall i | 0 <= i < |n.snapshots|
        ensures SnapshotInv(n.snapshots[i], init, n.log)
      {
        assert SnapshotInv(m.snapshots[i], init, m.log);
        PrefixOfGrownLog(init, m.log, a, m.snapshots[i].cut);
      }
    case Publish =>
      var k := |m.snapshots|;
      forall i | 0 <= i < k
        ensures m.snapshots[i].cut <= task.since
      {
        assert SnapshotInv(m.snapshots[k - 1], init, m.log);
        assert m.snapshots[i].cut <= m.snapshots[k - 1].cut;
      }
    case _ =>
  }

  lemma StepKeepsQueue(m: Machine, init: Tables, t: nat)
    requires Inv(m, init) && Enabled(m, t)
    ensures QueueInv(StepTask(m, t))
  {
    WithoutMembers(m.waiters, t);
  }

  lemma {:induction false} EveryScheduleKeepsInv(m: Machine, init: Tables, schedule: seq<nat>)
    requires Inv(m, init)
    ensures Inv(RunSchedule(m, schedule), init)
  {
    if schedule == [] {
    } else {
      EveryScheduleKeepsInv(m, init, schedule[..|schedule| - 1]);
      var before, t := RunSchedule(m, schedule[..|schedule| - 1]), schedule[|schedule| - 1];
      if Enabled(before, t) {
        StepKeepsTasks(before, init, t);
        StepKeepsExclusive(before, init, t);
        StepKeepsSnapshots(before, init, t);
        StepKeepsQueue(before, init, t);
      }
    }
  }

  // ---------------------------------------------------------------- results

  /**
   Every snapshot ever written is the memory at one single instant, that instant lies
   at or after the moment its flush took the flush lock, and it is not earlier than the
   instant of any snapshot it replaces.
   */
  lemma SnapshotsAreInstants(m: Machine, init: Tables, schedule: seq<nat>)
    requires Inv(m, init)
    ensures var n := RunSchedule(m, schedule);
      && (forall i :: 0 <= i < |n.snapshots| ==> SnapshotInv(n.snapshots[i], init, n.log))
      && (forall i, j :: 0 <= i < j < |n.snapshots| ==> n.snapshots[i].cut <= n.snapshots[j].cut)
  {
    EveryScheduleKeepsInv(m, init, schedule);
    var n := RunSchedule(m, schedule);
    forall i, j | 0 <= i < j < |n.snapshots|
      ensures n.snapshots[i].cut <= n.snapshots[j].cut
    {
      assert SnapshotInv(n.snapshots[j], init, n.log);
    }
  }

  predicate Finished(m: Machine) {
    forall t :: 0 <= t < |m.tasks| ==> m.tasks[t].rest == []
  }
}
