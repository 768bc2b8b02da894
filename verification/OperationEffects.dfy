/**
 What the programs of the channel map do. Run alone each has the effect of its operation (`OperationAlone`); run
 together in any interleaving each makes exactly its accesses, in its order, and every flush of a map with a
 file writes one snapshot (`FinishedRunDidEverything`), which holds all that was done before it began
 (`LaterSnapshotsAreFresh`), in particular the final memory (`LastFlushWritesTheMemory`).
 */
module OperationEffects {
  import opened ChannelPrograms
  import opened ChannelState
  import opened FairRuns
  import opened LockConservation
  import opened LockLiveness
  import opened LockMachine
  import opened ProgramOrder
  import opened YoloHistory

  // ---------------------------------------------------------------- the accesses of each operation

  /** The accesses that an operation is for, in order. */
  function AccessesOf(op: Operation): seq<Access> {
    match op
    case Flush(_) => []
    case Lookup(_) => []
    case GetOrInsert(key, _, found, id) => if found then [] else [SetSession(key, id)]
    case StoreSession(key, id) => [SetSession(key, id)]
    case DropSession(key) => [RemoveSession(key)]
    case QueryYolo(key, permanent, expired) => if !permanent && expired then [RemoveGrant(key)] else []
    case EnableYolo(key, call, now, _, _) => [SetGrant(key, now, true), CountEnable(key.chat, call)]
    case GrantTemporary(key, now) => [SetGrant(key, now, false)]
    case RestoreYolo(key, at, ttl, now) => [RestoreGrant(key, at, ttl, now)]
    case DisableYolo(key) => [RemoveGrant(key)]
    case ClearYolo(chat) => [DropRow(chat), DropGrants(chat)]
    case SeedCounts => [SeedRows]
    case Allow(key, tool) => [AllowAdd(key, tool)]
    case Disallow(key, tool) => [AllowRemove(key, tool)]
  }

  function ReadOf(l: Lock): Instr {
    Acquire(l, Read)
  }

  function WriteOf(l: Lock): Instr {
    Acquire(l, Write)
  }

  /** The guards that an operation takes, in order: one per look at a table and one per change of it. */
  function LocksOf(op: Operation): seq<Instr> {
    match op
    case Flush(hasPath) =>
      [WriteOf(FlushLock), ReadOf(PathLock)]
      + if hasPath then [ReadOf(SessionsLock), ReadOf(YoloLock), ReadOf(ChatsLock), ReadOf(AllowLock)] else []
    case Lookup(_) => [ReadOf(SessionsLock)]
    case GetOrInsert(key, registered, found, _) =>
      [ReadOf(SessionsLock)] + ([ReadOf(RegistryLock)]
        + if registered then CreatingLocks(key, found) else [WriteOf(RegistryLock)] + CreatingLocks(key, found))
    case StoreSession(_, _) => [WriteOf(SessionsLock)]
    case DropSession(_) => [WriteOf(SessionsLock)]
    case QueryYolo(_, permanent, expired) =>
      [ReadOf(ChatsLock)]
      + if permanent then [] else [ReadOf(YoloLock)] + (if expired then [WriteOf(YoloLock)] else [])
    case EnableYolo(_, _, _, permanent, permanentLater) =>
      [WriteOf(YoloLock)] + ([WriteOf(ChatsLock)] + RemainingLocks(permanent, permanentLater))
    case GrantTemporary(_, _) => [WriteOf(YoloLock)]
    case RestoreYolo(_, _, _, _) => [WriteOf(YoloLock)]
    case DisableYolo(_) => [WriteOf(YoloLock)]
    case ClearYolo(_) => [WriteOf(ChatsLock), WriteOf(YoloLock)]
    case SeedCounts => [ReadOf(YoloLock), WriteOf(ChatsLock)]
    case Allow(_, _) => [WriteOf(AllowLock)]
    case Disallow(_, _) => [WriteOf(AllowLock)]
  }

  /** A flush of a map that has a file. */
  predicate WritesFile(op: Operation) {
    op == Flush(true)
  }

  /** The guards that a program takes, the accesses it makes and the number of snapshots it publishes. */
  datatype Summary = Summary(locks: seq<Instr>, accesses: seq<Access>, published: nat)

  function Summarized(rest: seq<Instr>): Summary {
    if rest == [] then Summary([], [], 0)
    else
      var s := Summarized(rest[1..]);
      match rest[0]
      case Acquire(_, _) => s.(locks := [rest[0]] + s.locks)
      case Do(a) => s.(accesses := [a] + s.accesses)
      case Publish => s.(published := 1 + s.published)
      case _ => s
  }

  lemma {:induction false} SummaryIsRight(rest: seq<Instr>)
    ensures Summarized(rest) == Summary(LockSeq(rest), AccessSeq(rest), Publishes(rest))
  {
    if rest != [] {
      SummaryIsRight(rest[1..]);
    }
  }

  predicate Does(rest: seq<Instr>, locks: seq<Instr>, accesses: seq<Access>, published: nat) {
    Summarized(rest) == Summary(locks, accesses, published)
  }

  /** The program takes the guards and makes the accesses of its operation, and publishes once if it is to write the file. */
  predicate DoesItsWork(op: Operation) {
    Does(Program(op), LocksOf(op), AccessesOf(op), if WritesFile(op) then 1 else 0)
  }

  lemma AfterAcquire(l: Lock, mode: Mode, rest: seq<Instr>, locks: seq<Instr>, accesses: seq<Access>, n: nat)
    requires Does(rest, locks, accesses, n)
    ensures Does(Then(Acquire(l, mode), rest), [Acquire(l, mode)] + locks, accesses, n)
  {
    assert Then(Acquire(l, mode), rest)[1..] == rest;
  }

  /** An instruction that takes no guard, makes no access and publishes nothing. */
  lemma AfterOther(i: Instr, rest: seq<Instr>, locks: seq<Instr>, accesses: seq<Access>, n: nat)
    requires Does(rest, locks, accesses, n) && (i.Release? || i.Copy?)
    ensures Does(Then(i, rest), locks, accesses, n)
  {
    assert Then(i, rest)[1..] == rest;
  }

  lemma AfterDo(a: Access, rest: seq<Instr>, locks: seq<Instr>, accesses: seq<Access>, n: nat)
    requires Does(rest, locks, accesses, n)
    ensures Does(Then(Do(a), rest), locks, [a] + accesses, n)
  {
    assert Then(Do(a), rest)[1..] == rest;
  }

  lemma AfterReading(l: Lock, rest: seq<Instr>, locks: seq<Instr>, accesses: seq<Access>, n: nat)
    requires Does(rest, locks, accesses, n)
    ensures Does(Reading(l, rest), [ReadOf(l)] + locks, accesses, n)
  {
    AfterOther(Release(l), rest, locks, accesses, n);
    AfterAcquire(l, Read, Then(Release(l), rest), locks, accesses, n);
  }

  lemma AfterWriting(a: Access, rest: seq<Instr>, locks: seq<Instr>, accesses: seq<Access>, n: nat)
    requires Does(rest, locks, accesses, n)
    ensures Does(Writing(a, rest), [WriteOf(Writes(a))] + locks, [a] + accesses, n)
  {
    var l := Writes(a);
    AfterOther(Release(l), rest, locks, accesses, n);
    AfterDo(a, Then(Release(l), rest), locks, accesses, n);
    AfterAcquire(l, Write, Then(Do(a), Then(Release(l), rest)), locks, [a] + accesses, n);
  }

  lemma ReleasingPublishes()
    ensures Does(RELEASING, [], [], 1)
  {
    var p1 := Then(Release(SessionsLock), PUBLISHING);
    var p2 := Then(Release(YoloLock), p1);
    var p3 := Then(Release(ChatsLock), p2);
    AfterOther(Release(FlushLock), [], [], [], 0);
    assert PUBLISHING[1..] == Then(Release(FlushLock), []);
    assert Does(PUBLISHING, [], [], 1);
    AfterOther(Release(SessionsLock), PUBLISHING, [], [], 1);
    AfterOther(Release(YoloLock), p1, [], [], 1);
    AfterOther(Release(ChatsLock), p2, [], [], 1);
    AfterOther(Release(AllowLock), p3, [], [], 1);
  }

  lemma CopyingPublishes()
    ensures Does(COPYING, [], [], 1)
  {
    var p1 := Then(Copy(AllowLock), RELEASING);
    var p2 := Then(Copy(ChatsLock), p1);
    var p3 := Then(Copy(YoloLock), p2);
    ReleasingPublishes();
    AfterOther(Copy(AllowLock), RELEASING, [], [], 1);
    AfterOther(Copy(ChatsLock), p1, [], [], 1);
    AfterOther(Copy(YoloLock), p2, [], [], 1);
    AfterOther(Copy(SessionsLock), p3, [], [], 1);
  }

  lemma LockingPublishes()
    ensures Does(LOCKING, [ReadOf(SessionsLock), ReadOf(YoloLock), ReadOf(ChatsLock), ReadOf(AllowLock)], [], 1)
  {
    var p1 := Then(Acquire(AllowLock, Read), COPYING);
    var p2 := Then(Acquire(ChatsLock, Read), p1);
    var p3 := Then(Acquire(YoloLock, Read), p2);
    CopyingPublishes();
    AfterAcquire(AllowLock, Read, COPYING, [], [], 1);
    AfterAcquire(ChatsLock, Read, p1, [ReadOf(AllowLock)], [], 1);
    AfterAcquire(YoloLock, Read, p2, [ReadOf(ChatsLock), ReadOf(AllowLock)], [], 1);
    AfterAcquire(SessionsLock, Read, p3, [ReadOf(YoloLock), ReadOf(ChatsLock), ReadOf(AllowLock)], [], 1);
  }

  lemma FlushPublishes()
    ensures DoesItsWork(Flush(true))
  {
    var locks := [ReadOf(SessionsLock), ReadOf(YoloLock), ReadOf(ChatsLock), ReadOf(AllowLock)];
    LockingPublishes();
    AfterReading(PathLock, LOCKING, locks, [], 1);
    AfterAcquire(FlushLock, Write, Reading(PathLock, LOCKING), [ReadOf(PathLock)] + locks, [], 1);
  }

  lemma FlushInMemoryPublishesNothing()
    ensures DoesItsWork(Flush(false))
  {
    var leave := Then(Release(FlushLock), []);
    AfterOther(Release(FlushLock), [], [], [], 0);
    AfterReading(PathLock, leave, [], [], 0);
    AfterAcquire(FlushLock, Write, Reading(PathLock, leave), [ReadOf(PathLock)], [], 0);
  }

  lemma SeedDoesItsWork()
    ensures DoesItsWork(SeedCounts)
  {
    var leave := Then(Release(YoloLock), []);
    AfterOther(Release(YoloLock), [], [], [], 0);
    AfterWriting(SeedRows, leave, [], [], 0);
    AfterAcquire(YoloLock, Read, Writing(SeedRows, leave), [WriteOf(ChatsLock)], [SeedRows], 0);
  }

  /** What `get_or_insert_with` does under the key's mutex. */
  function CreatingLocks(key: ChannelKey, found: bool): seq<Instr> {
    [WriteOf(SessionMutex(key))] + ([ReadOf(SessionsLock)] + if found then [] else [WriteOf(SessionsLock)])
  }

  lemma CreatingDoesItsWork(key: ChannelKey, found: bool, id: string)
    ensures Does(Creating(key, found, id), CreatingLocks(key, found), if found then [] else [SetSession(key, id)], 0)
  {
    var l := SessionMutex(key);
    var leave := Then(Release(l), []);
    var rest := if found then leave else Writing(SetSession(key, id), leave);
    var locks, accesses := if found then [] else [WriteOf(SessionsLock)], if found then [] else [SetSession(key, id)];
    AfterOther(Release(l), [], [], [], 0);
    AfterWriting(SetSession(key, id), leave, [], [], 0);
    AfterReading(SessionsLock, rest, locks, accesses, 0);
    AfterAcquire(l, Write, Reading(SessionsLock, rest), [ReadOf(SessionsLock)] + locks, accesses, 0);
  }

  lemma GetOrInsertDoesItsWork(key: ChannelKey, registered: bool, found: bool, id: string)
    ensures DoesItsWork(GetOrInsert(key, registered, found, id))
  {
    var creating, locks := Creating(key, found, id), CreatingLocks(key, found);
    var accesses := if found then [] else [SetSession(key, id)];
    CreatingDoesItsWork(key, found, id);
    var adding := Then(Acquire(RegistryLock, Write), Then(Release(RegistryLock), creating));
    AfterOther(Release(RegistryLock), creating, locks, accesses, 0);
    AfterAcquire(RegistryLock, Write, Then(Release(RegistryLock), creating), locks, accesses, 0);
    var rest, restLocks := if registered then creating else adding, if registered then locks else [WriteOf(RegistryLock)] + locks;
    AfterReading(RegistryLock, rest, restLocks, accesses, 0);
    AfterReading(SessionsLock, FindingLock(registered, creating), [ReadOf(RegistryLock)] + restLocks, accesses, 0);
  }

  lemma QueryDoesItsWork(key: ChannelKey, permanent: bool, expired: bool)
    ensures DoesItsWork(QueryYolo(key, permanent, expired))
  {
    if permanent {
      AfterReading(ChatsLock, [], [], [], 0);
    } else if !expired {
      AfterReading(YoloLock, [], [], [], 0);
      AfterReading(ChatsLock, Reading(YoloLock, []), [ReadOf(YoloLock)], [], 0);
    } else {
      var removing := Writing(RemoveGrant(key), []);
      AfterWriting(RemoveGrant(key), [], [], [], 0);
      AfterReading(YoloLock, removing, [WriteOf(YoloLock)], [RemoveGrant(key)], 0);
      AfterReading(ChatsLock, Reading(YoloLock, removing), [ReadOf(YoloLock), WriteOf(YoloLock)], [RemoveGrant(key)], 0);
    }
  }

  lemma RemainingOnlyReads(permanent: bool, permanentLater: bool)
    ensures Does(Remaining(permanent, permanentLater), RemainingLocks(permanent, permanentLater), [], 0)
  {
    AfterReading(YoloLock, [], [], [], 0);
    AfterReading(ChatsLock, if permanentLater then [] else Reading(YoloLock, []),
                 if permanentLater then [] else [ReadOf(YoloLock)], [], 0);
  }

  function RemainingLocks(permanent: bool, permanentLater: bool): seq<Instr> {
    if permanent then [] else [ReadOf(ChatsLock)] + if permanentLater then [] else [ReadOf(YoloLock)]
  }

  lemma EnableDoesItsWork(op: Operation)
    requires op.EnableYolo?
    ensures DoesItsWork(op)
  {
    var rest, locks := Remaining(op.permanent, op.permanentLater), RemainingLocks(op.permanent, op.permanentLater);
    var count := CountEnable(op.key.chat, op.call);
    RemainingOnlyReads(op.permanent, op.permanentLater);
    AfterWriting(count, rest, locks, [], 0);
    AfterWriting(SetGrant(op.key, op.now, true), Writing(count, rest), [WriteOf(ChatsLock)] + locks, [count], 0);
  }

  lemma ClearDoesItsWork(chat: ChatId)
    ensures DoesItsWork(ClearYolo(chat))
  {
    AfterWriting(DropGrants(chat), [], [], [], 0);
    AfterWriting(DropRow(chat), Writing(DropGrants(chat), []), [WriteOf(YoloLock)], [DropGrants(chat)], 0);
  }

  lemma EveryProgramDoesItsWork(op: Operation)
    ensures AccessSeq(Program(op)) == AccessesOf(op)
    ensures LockSeq(Program(op)) == LocksOf(op)
    ensures Publishes(Program(op)) == if WritesFile(op) then 1 else 0
  {
    SummaryOfProgram(op);
    SummaryIsRight(Program(op));
  }

  lemma SummaryOfProgram(op: Operation)
    ensures DoesItsWork(op)
  {
    match op
    case Flush(_) => FlushPublishes(); FlushInMemoryPublishesNothing();
    case SeedCounts => SeedDoesItsWork();
    case Lookup(_) => AfterReading(SessionsLock, [], [], [], 0);
    case GetOrInsert(key, registered, found, id) => GetOrInsertDoesItsWork(key, registered, found, id);
    case QueryYolo(key, permanent, expired) => QueryDoesItsWork(key, permanent, expired);
    case EnableYolo(_, _, _, _, _) => EnableDoesItsWork(op);
    case ClearYolo(chat) => ClearDoesItsWork(chat);
    case StoreSession(key, id) => OneWriteDoesItsWork(op, SetSession(key, id));
    case DropSession(key) => OneWriteDoesItsWork(op, RemoveSession(key));
    case GrantTemporary(key, now) => OneWriteDoesItsWork(op, SetGrant(key, now, false));
    case RestoreYolo(key, at, ttl, now) => OneWriteDoesItsWork(op, RestoreGrant(key, at, ttl, now));
    case DisableYolo(key) => OneWriteDoesItsWork(op, RemoveGrant(key));
    case Allow(key, tool) => OneWriteDoesItsWork(op, AllowAdd(key, tool));
    case Disallow(key, tool) => OneWriteDoesItsWork(op, AllowRemove(key, tool));
  }

  lemma OneWriteDoesItsWork(op: Operation, a: Access)
    requires Program(op) == Writing(a, []) && !WritesFile(op)
    requires AccessesOf(op) == [a] && LocksOf(op) == [WriteOf(Writes(a))]
    ensures DoesItsWork(op)
  {
    AfterWriting(a, [], [], [], 0);
  }

  // ---------------------------------------------------------------- all together

  /** The number of flushes that are to write the file. */
  function FileFlushes(ops: seq<Operation>): nat {
    if ops == [] then 0 else (if WritesFile(ops[0]) then 1 else 0) + FileFlushes(ops[1..])
  }

  lemma {:induction false} StartPublishes(init: Tables, ops: seq<Operation>)
    ensures Total(ToPublish(Start(init, ops).tasks)) == FileFlushes(ops)
  {
    if ops == [] {
    } else {
      StartPublishes(init, ops[1..]);
      EveryProgramDoesItsWork(ops[0]);
      assert ToPublish(Start(init, ops).tasks)[1..] == ToPublish(Start(init, ops[1..]).tasks);
    }
  }

  /**
   In every interleaving of any operations that has come to its end: each operation made its accesses, in its
   order, and nothing else was accessed; every flush of a map with a file wrote one snapshot, and no other did.
   */
  lemma FinishedRunDidEverything(init: Tables, ops: seq<Operation>, schedule: seq<nat>)
    requires Finished(RunSchedule(Start(init, ops), schedule))
    ensures var n, owners := RunSchedule(Start(init, ops), schedule), Owners(Start(init, ops), schedule);
      && |owners| == |n.log| && (forall t <- owners :: t < |ops|)
      && (forall t :: 0 <= t < |ops| ==> Own(n.log, owners, t) == AccessesOf(ops[t]))
      && |n.snapshots| == FileFlushes(ops)
  {
    var m := Start(init, ops);
    var n := RunSchedule(m, schedule);
    EachTaskInItsOrder(m, schedule);
    forall t | 0 <= t < |ops|
      ensures Own(n.log, Owners(m, schedule), t) == AccessesOf(ops[t])
    {
      EveryProgramDoesItsWork(ops[t]);
      assert AccessSeq(n.tasks[t].rest) == [];
    }
    StartKeepsInv(init, ops);
    EveryPublishWrites(m, init, schedule);
    NothingToPublish(n.tasks);
    StartPublishes(init, ops);
  }

  /**
   Liveness of the channel map: under any schedule that names every operation often enough, all operations finish,
   and then each has made its accesses, in its order and once, and each flush of a map with a file has written it.
   */
  lemma FairRunsFinish(init: Tables, ops: seq<Operation>, rounds: seq<seq<nat>>)
    requires |rounds| >= Work(Start(init, ops).tasks)
    requires forall i :: 0 <= i < |rounds| ==> NamesAll(rounds[i], |ops|)
    ensures var m := Start(init, ops); var n, owners := RunSchedule(m, Flat(rounds)), Owners(m, Flat(rounds));
      && Finished(n)
      && multiset(n.log) == Pending(m.tasks)
      && |owners| == |n.log| && (forall t <- owners :: t < |ops|)
      && (forall t :: 0 <= t < |ops| ==> Own(n.log, owners, t) == AccessesOf(ops[t]))
      && |n.snapshots| == FileFlushes(ops)
  {
    StartKeepsInv(init, ops);
    FairSchedulesFinish(Start(init, ops), init, rounds);
    FinishedRunMadeEveryAccess(init, ops, Flat(rounds));
    FinishedRunDidEverything(init, ops, Flat(rounds));
  }

  // ---------------------------------------------------------------- what a flush writes

  /** A flush that has not begun. */
  predicate FlushAhead(m: Machine, ops: seq<Operation>, t: nat)
    requires t < |m.tasks| == |ops|
  {
    m.tasks[t] == StartTask(ops[t]) && ops[t].Flush?
  }

  /** Every operation is finished, but for flushes that have not begun. */
  predicate OnlyFlushesAhead(m: Machine, ops: seq<Operation>)
    requires |m.tasks| == |ops|
  {
    forall t :: 0 <= t < |ops| ==> m.tasks[t].rest == [] || FlushAhead(m, ops, t)
  }

  lemma {:induction false} NothingPending(m: Machine, ops: seq<Operation>, k: nat)
    requires |m.tasks| == |ops| && OnlyFlushesAhead(m, ops) && k <= |ops|
    ensures Pending(m.tasks[k..]) == multiset{}
    decreases |ops| - k
  {
    if k < |ops| {
      NothingPending(m, ops, k + 1);
      EveryProgramDoesItsWork(ops[k]);
      NoAccesses(m.tasks[k].rest);
      assert m.tasks[k..][1..] == m.tasks[k + 1..];
    }
  }

  lemma {:induction false} NoAccesses(rest: seq<Instr>)
    requires AccessSeq(rest) == []
    ensures Accesses(rest) == multiset{}
  {
    if rest != [] {
      NoAccesses(rest[1..]);
    }
  }

  lemma {:induction false} TotalAtLeast(work: seq<nat>, t: nat)
    requires t < |work|
    ensures Total(work) >= work[t]
  {
    if t > 0 {
      TotalAtLeast(work[1..], t - 1);
    }
  }

  lemma NothingAdded(log: seq<Access>, longer: seq<Access>, pending: multiset<Access>)
    requires log <= longer && multiset(longer) + pending == multiset(log)
    ensures longer == log
  {
    assert |multiset(longer)| + |pending| == |multiset(log)|;
    assert |longer| <= |log|;
  }

  /** Nothing is accessed any more. */
  lemma LogIsFinal(ops: seq<Operation>, m: Machine, more: seq<nat>)
    requires |m.tasks| == |ops| && OnlyFlushesAhead(m, ops) && m.log <= RunSchedule(m, more).log
    ensures RunSchedule(m, more).log == m.log
  {
    var n := RunSchedule(m, more);
    NothingPending(m, ops, 0);
    assert m.tasks[0..] == m.tasks;
    AccessesAreConserved(m, more);
    assert multiset(m.log) + Pending(m.tasks) == multiset(m.log);
    NothingAdded(m.log, n.log, Pending(n.tasks));
  }

  /** A flush that has not begun will write. */
  lemma FlushAheadWrites(init: Tables, ops: seq<Operation>, m: Machine, more: seq<nat>, t: nat)
    requires Inv(m, init) && t < |ops| == |m.tasks| && WritesFile(ops[t]) && m.tasks[t] == StartTask(ops[t])
    requires Finished(RunSchedule(m, more))
    ensures |RunSchedule(m, more).snapshots| > |m.snapshots|
  {
    EveryPublishWrites(m, init, more);
    NothingToPublish(RunSchedule(m, more).tasks);
    EveryProgramDoesItsWork(ops[t]);
    TotalAtLeast(ToPublish(m.tasks), t);
  }

  lemma LaterContentIsMemory(init: Tables, m: Machine, n: Machine)
    requires n.log == m.log && n.mem == ApplyAll(init, n.log) && m.mem == ApplyAll(init, m.log)
    requires forall i :: |m.snapshots| <= i < |n.snapshots| ==>
      |m.log| <= n.snapshots[i].cut <= |n.log| && n.snapshots[i].content == ApplyAll(init, n.log[..n.snapshots[i].cut])
    ensures n.mem == m.mem && forall i :: |m.snapshots| <= i < |n.snapshots| ==> n.snapshots[i].content == n.mem
  {
    assert n.log[..|n.log|] == n.log;
  }

  /**
   When only flushes are still to run and one of them has a file: then it is written, and what is written is the
   final memory, so that nothing of what was done is missing from the file.
   */
  lemma LastFlushWritesTheMemory(init: Tables, ops: seq<Operation>, m: Machine, more: seq<nat>, t: nat)
    requires Inv(m, init) && |m.tasks| == |ops| && OnlyFlushesAhead(m, ops)
    requires t < |ops| && WritesFile(ops[t]) && m.tasks[t] == StartTask(ops[t])
    requires Finished(RunSchedule(m, more))
    ensures var n := RunSchedule(m, more);
      && n.mem == m.mem && |n.snapshots| > |m.snapshots|
      && forall i :: |m.snapshots| <= i < |n.snapshots| ==> n.snapshots[i].content == n.mem
  {
    NobodyInside(init, ops, m);
    LaterSnapshotsAreFresh(m, init, more);
    LogIsFinal(ops, m, more);
    FlushAheadWrites(init, ops, m, more, t);
    EveryScheduleKeepsInv(m, init, more);
    LaterContentIsMemory(init, m, RunSchedule(m, more));
  }

  lemma NobodyInside(init: Tables, ops: seq<Operation>, m: Machine)
    requires |m.tasks| == |ops| && OnlyFlushesAhead(m, ops) && Inv(m, init)
    ensures NoFlushUnderWay(m)
  {
    forall t | 0 <= t < |m.tasks|
      ensures FlushLock !in m.tasks[t].held
    {
      assert TaskInv(m.tasks[t], init, m.mem, m.log, LastCut(m.snapshots));
    }
  }

  // ---------------------------------------------------------------- one operation alone

  /** The tables after the operation. The outcomes of its tests are those that the tables `s` give. */
  ghost predicate HasEffect(op: Operation, s: Tables, after: Tables) {
    match op
    case Flush(_) => after == s
    case Lookup(_) => after == s
    case GetOrInsert(key, _, found, id) =>
      found == (key in s.sessions) ==> after == s.(sessions := map[key := id] + s.sessions)
    case StoreSession(key, id) => after == Apply(s, SetSession(key, id))
    case DropSession(key) => after == Apply(s, RemoveSession(key))
    case QueryYolo(key, permanent, expired) =>
      forall now :: permanent == IsPermanent(s, key.chat) && expired == (key in s.yolo && !Active(s.yolo[key], now)) ==>
        after == Step(s, Query(key, now))
    case EnableYolo(key, call, now, _, _) => after == Step(s, Enable(key, call, now))
    case GrantTemporary(key, now) => after == Step(s, Event.GrantTemporary(key, now))
    case RestoreYolo(key, at, ttl, now) => after == Step(s, Event.Restore(key, at, ttl, now))
    case DisableYolo(key) => after == Step(s, Disable(key))
    case ClearYolo(chat) => after == Step(s, Clear(chat))
    case SeedCounts => after == Step(s, Seed)
    case Allow(key, tool) => after == Apply(s, AllowAdd(key, tool))
    case Disallow(key, tool) => after == Apply(s, AllowRemove(key, tool))
  }

  lemma OneOrTwo(s: Tables, log: seq<Access>)
    requires |log| <= 2
    ensures ApplyAll(s, log) ==
      if log == [] then s else if |log| == 1 then Apply(s, log[0]) else Apply(Apply(s, log[0]), log[1])
  {
    if |log| == 1 {
      assert log[..0] == [];
    } else if |log| == 2 {
      assert log[..1] == [log[0]] && [log[0]][..0] == [];
      assert ApplyAll(s, [log[0]]) == Apply(s, log[0]);
    }
  }

  lemma AccessesHaveTheEffect(op: Operation, s: Tables)
    ensures HasEffect(op, s, ApplyAll(s, AccessesOf(op)))
  {
    OneOrTwo(s, AccessesOf(op));
    match op
    case QueryYolo(key, permanent, expired) => QueryHasTheEffect(key, permanent, expired, s);
    case GetOrInsert(key, _, found, id) => GetOrInsertHasTheEffect(op, s);
    case _ =>
  }

  lemma GetOrInsertHasTheEffect(op: Operation, s: Tables)
    requires op.GetOrInsert?
    ensures HasEffect(op, s, if op.found then s else Apply(s, SetSession(op.key, op.id)))
  {
    assert map[op.key := op.id] + s.sessions == if op.key in s.sessions then s.sessions else s.sessions[op.key := op.id];
  }

  lemma QueryHasTheEffect(key: ChannelKey, permanent: bool, expired: bool, s: Tables)
    ensures HasEffect(QueryYolo(key, permanent, expired), s,
                      if !permanent && expired then Apply(s, RemoveGrant(key)) else s)
  {
    assert key !in s.yolo ==> s.yolo - {key} == s.yolo;
  }

  lemma {:induction false} OwnOfOne(log: seq<Access>, owners: seq<nat>)
    requires |log| == |owners| && forall i :: 0 <= i < |owners| ==> owners[i] == 0
    ensures Own(log, owners, 0) == log
  {
    if log != [] {
      var n := |log| - 1;
      OwnOfOne(log[..n], owners[..n]);
      assert log == log[..n] + [log[n]];
    }
  }

  /** An operation that runs alone to its end has its effect, and writes one snapshot, of the tables, if it is to. */
  lemma OperationAlone(s: Tables, op: Operation, schedule: seq<nat>)
    requires Finished(RunSchedule(Start(s, [op]), schedule))
    ensures var n := RunSchedule(Start(s, [op]), schedule);
      && HasEffect(op, s, n.mem)
      && |n.snapshots| == (if WritesFile(op) then 1 else 0)
      && (forall i :: 0 <= i < |n.snapshots| ==> n.snapshots[i].content == s)
  {
    var m := Start(s, [op]);
    var n := RunSchedule(m, schedule);
    FinishedRunDidEverything(s, [op], schedule);
    assert forall i :: 0 <= i < |n.log| ==> Owners(m, schedule)[i] in Owners(m, schedule);
    OwnOfOne(n.log, Owners(m, schedule));
    AccessesHaveTheEffect(op, s);
    FlushesAreConsistentAndLive(s, [op], schedule);
    assert [op][1..] == [] && FileFlushes([op]) == if WritesFile(op) then 1 else 0;
    forall i | 0 <= i < |n.snapshots|
      ensures n.snapshots[i].content == s
    {
      assert SnapshotInv(n.snapshots[i], s, n.log);
      assert n.log == [];
    }
  }
}
