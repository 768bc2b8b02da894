/**
 The operations of the channel map as programs of the lock machine, and what
 holds of every interleaving of any number of them, concurrent flushes included.
 */
module ChannelPrograms {
  import opened Options
  import opened ChannelState
  import opened LockConservation
  import opened LockLiveness
  import opened LockMachine

  /**
   The operations, with the outcome of each test of the tables chosen in advance, so that
   every outcome is covered whatever the tables hold when the test is made.
   */
  datatype Operation =
    | Flush(hasPath: bool)
    | Lookup(key: ChannelKey)
    | GetOrInsert(key: ChannelKey, registered: bool, found: bool, id: string)
    | StoreSession(key: ChannelKey, id: string)
    | DropSession(key: ChannelKey)
    | QueryYolo(key: ChannelKey, permanent: bool, expired: bool)
    | EnableYolo(key: ChannelKey, call: Option<string>, now: int, permanent: bool, permanentLater: bool)
    | GrantTemporary(key: ChannelKey, now: int)
    | RestoreYolo(key: ChannelKey, enabledAt: int, ttl: int, now: int)
    | DisableYolo(key: ChannelKey)
    | ClearYolo(chat: ChatId)
    | SeedCounts
    | Allow(key: ChannelKey, tool: string)
    | Disallow(key: ChannelKey, tool: string)

  function Then(i: Instr, rest: seq<Instr>): seq<Instr> {
    [i] + rest
  }

  /** A read guard that is dropped at once. */
  function Reading(l: Lock, rest: seq<Instr>): seq<Instr> {
    Then(Acquire(l, Read), Then(Release(l), rest))
  }

  /** One access under the write guard of its table. */
  function Writing(a: Access, rest: seq<Instr>): seq<Instr> {
    Then(Acquire(Writes(a), Write), Then(Do(a), Then(Release(Writes(a)), rest)))
  }

  /** `flush`, read backwards: the snapshot replaces the file under the flush lock alone, */
  const PUBLISHING: seq<Instr> := Then(Publish, Then(Release(FlushLock), []))

  /** before that the guards are dropped in the reverse order, */
  const RELEASING: seq<Instr> :=
    Then(Release(AllowLock), Then(Release(ChatsLock), Then(Release(YoloLock), Then(Release(SessionsLock), PUBLISHING))))

  /** before that the buffer is built, */
  const COPYING: seq<Instr> :=
    Then(Copy(SessionsLock), Then(Copy(YoloLock), Then(Copy(ChatsLock), Then(Copy(AllowLock), RELEASING))))

  /** and before that all guards are taken in the canonical order. */
  const LOCKING: seq<Instr> :=
    Then(Acquire(SessionsLock, Read), Then(Acquire(YoloLock, Read),
      Then(Acquire(ChatsLock, Read), Then(Acquire(AllowLock, Read), COPYING))))

  const FLUSH: seq<Instr> := Then(Acquire(FlushLock, Write), Reading(PathLock, LOCKING))

  const FLUSH_IN_MEMORY: seq<Instr> := Then(Acquire(FlushLock, Write), Reading(PathLock, Then(Release(FlushLock), [])))

  const SEED: seq<Instr> := Then(Acquire(YoloLock, Read), Writing(SeedRows, Then(Release(YoloLock), [])))

  /** The part of `get_or_insert_with` under the key's mutex. */
  function Creating(key: ChannelKey, found: bool, id: string): seq<Instr> {
    var leave := Then(Release(SessionMutex(key)), []);
    Then(Acquire(SessionMutex(key), Write),
      Reading(SessionsLock, if found then leave else Writing(SetSession(key, id), leave)))
  }

  /** Looking the key's mutex up, and registering it when it is missing. */
  function FindingLock(registered: bool, rest: seq<Instr>): seq<Instr> {
    Reading(RegistryLock,
      if registered then rest else Then(Acquire(RegistryLock, Write), Then(Release(RegistryLock), rest)))
  }

  /** Reading the remaining days, unless the chat is permanent. */
  function Remaining(permanent: bool, permanentLater: bool): seq<Instr> {
    if permanent then [] else Reading(ChatsLock, if permanentLater then [] else Reading(YoloLock, []))
  }

  function Program(op: Operation): seq<Instr> {
    match op
    case Flush(hasPath) => if hasPath then FLUSH else FLUSH_IN_MEMORY
    case Lookup(_) => Reading(SessionsLock, [])
    case GetOrInsert(key, registered, found, id) =>
      Reading(SessionsLock, FindingLock(registered, Creating(key, found, id)))
    case StoreSession(key, id) => Writing(SetSession(key, id), [])
    case DropSession(key) => Writing(RemoveSession(key), [])
    case QueryYolo(key, permanent, expired) =>
      Reading(ChatsLock,
        if permanent then [] else Reading(YoloLock, if expired then Writing(RemoveGrant(key), []) else []))
    case EnableYolo(key, call, now, permanent, permanentLater) =>
      Writing(SetGrant(key, now, true), Writing(CountEnable(key.chat, call), Remaining(permanent, permanentLater)))
    case GrantTemporary(key, now) => Writing(SetGrant(key, now, false), [])
    case RestoreYolo(key, at, ttl, now) => Writing(RestoreGrant(key, at, ttl, now), [])
    case DisableYolo(key) => Writing(RemoveGrant(key), [])
    case ClearYolo(chat) => Writing(DropRow(chat), Writing(DropGrants(chat), []))
    case SeedCounts => SEED
    case Allow(key, tool) => Writing(AllowAdd(key, tool), [])
    case Disallow(key, tool) => Writing(AllowRemove(key, tool), [])
  }

  // ---------------------------------------------------------------- every program is disciplined

  predicate Ok(rest: seq<Instr>) {
    Disciplined(map[], {}, false, rest)
  }

  /** What `flush` holds while it takes the guards of the tables one after the other, */
  const HOLDING_FLUSH: map<Lock, Mode> := map[FlushLock := Write]
  const UP_TO_SESSIONS: map<Lock, Mode> := HOLDING_FLUSH[SessionsLock := Read]
  const UP_TO_YOLO: map<Lock, Mode> := UP_TO_SESSIONS[YoloLock := Read]
  const UP_TO_CHATS: map<Lock, Mode> := UP_TO_YOLO[ChatsLock := Read]
  const UP_TO_ALLOW: map<Lock, Mode> := UP_TO_CHATS[AllowLock := Read]

  /** What holds of every state that a disciplined program passes through. */
  predicate StateOk(held: map<Lock, Mode>, copied: set<Lock>, cut: bool) {
    && (FlushLock in held ==> held[FlushLock] == Write)
    && (cut ==> FlushLock in held)
    && copied <= held.Keys && copied <= TABLE_LOCKS
  }

  lemma AcquireOk(held: map<Lock, Mode>, l: Lock, mode: Mode, rest: seq<Instr>)
    requires StateOk(held, {}, false) && (l == FlushLock ==> mode == Write) && forall h :: h in held ==> Rank(h) < Rank(l)
    requires Disciplined(held[l := mode], {}, false, rest)
    ensures Disciplined(held, {}, false, Then(Acquire(l, mode), rest))
  {
    assert Then(Acquire(l, mode), rest)[1..] == rest;
  }

  lemma CopyOk(copied: set<Lock>, l: Lock, after: set<Lock>, rest: seq<Instr>)
    requires StateOk(UP_TO_ALLOW, copied, false) && l in TABLE_LOCKS && l in UP_TO_ALLOW && after == copied + {l}
    requires Disciplined(UP_TO_ALLOW, after, false, rest)
    ensures Disciplined(UP_TO_ALLOW, copied, false, Then(Copy(l), rest))
  {
    assert Then(Copy(l), rest)[1..] == rest;
  }

  lemma ReleaseOk(held: map<Lock, Mode>, copied: set<Lock>, cut: bool, l: Lock,
                  after: map<Lock, Mode>, copiedAfter: set<Lock>, cutAfter: bool, rest: seq<Instr>)
    requires StateOk(held, copied, cut) && l in held && after == held - {l} && copiedAfter == copied - {l}
    requires cutAfter == (l != FlushLock && (cut || (l in TABLE_LOCKS && copied == TABLE_LOCKS && FlushLock in held)))
    requires Disciplined(after, copiedAfter, cutAfter, rest)
    ensures Disciplined(held, copied, cut, Then(Release(l), rest))
  {
    assert Then(Release(l), rest)[1..] == rest;
  }

  /** A lock that can be taken next. */
  predicate Free(held: map<Lock, Mode>, l: Lock) {
    l !in held && l != FlushLock && forall h :: h in held ==> Rank(h) < Rank(l)
  }

  /** Taking and dropping a lock changes nothing for the rest. */
  lemma TakeAndDropOk(held: map<Lock, Mode>, l: Lock, mode: Mode, rest: seq<Instr>)
    requires StateOk(held, {}, false) && Free(held, l) && Disciplined(held, {}, false, rest)
    ensures Disciplined(held, {}, false, Then(Acquire(l, mode), Then(Release(l), rest)))
  {
    ReleaseOk(held[l := mode], {}, false, l, held, {}, false, rest);
    AcquireOk(held, l, mode, Then(Release(l), rest));
  }

  lemma WritingOk(held: map<Lock, Mode>, a: Access, rest: seq<Instr>)
    requires StateOk(held, {}, false) && Free(held, Writes(a)) && Disciplined(held, {}, false, rest)
    requires a == SeedRows ==> YoloLock in held
    ensures Disciplined(held, {}, false, Writing(a, rest))
  {
    var l := Writes(a);
    var p2 := Then(Release(l), rest);
    ReleaseOk(held[l := Write], {}, false, l, held, {}, false, rest);
    AcquireOk(held, l, Write, Then(Do(a), p2));
  }

  lemma SeedOk()
    ensures Ok(SEED)
  {
    WritingOk(map[YoloLock := Read], SeedRows, Then(Release(YoloLock), []));
    AcquireOk(map[], YoloLock, Read, Writing(SeedRows, Then(Release(YoloLock), [])));
  }

  lemma CreatingOk(key: ChannelKey, found: bool, id: string)
    ensures Ok(Creating(key, found, id))
  {
    var k := SessionMutex(key);
    var leave := Then(Release(k), []);
    WritingOk(map[k := Write], SetSession(key, id), leave);
    var rest := if found then leave else Writing(SetSession(key, id), leave);
    TakeAndDropOk(map[k := Write], SessionsLock, Read, rest);
    AcquireOk(map[], k, Write, Reading(SessionsLock, rest));
  }

  /** and what it has copied while it builds the buffer. */
  const COPIED_SESSIONS: set<Lock> := {SessionsLock}
  const COPIED_TO_YOLO: set<Lock> := {SessionsLock, YoloLock}
  const COPIED_TO_CHATS: set<Lock> := {SessionsLock, YoloLock, ChatsLock}

  /** From the first release on: the cut is made and the snapshot published. */
  lemma ReleasingOk()
    ensures Disciplined(UP_TO_ALLOW, TABLE_LOCKS, false, RELEASING)
  {
    var p3 := Then(Release(YoloLock), Then(Release(SessionsLock), PUBLISHING));
    var p2 := Then(Release(ChatsLock), p3);
    ReleaseOk(UP_TO_CHATS, COPIED_TO_CHATS, true, ChatsLock, UP_TO_YOLO, COPIED_TO_YOLO, true, p3);
    ReleaseOk(UP_TO_ALLOW, TABLE_LOCKS, false, AllowLock, UP_TO_CHATS, COPIED_TO_CHATS, true, p2);
  }

  lemma CopyingOk()
    ensures Disciplined(UP_TO_ALLOW, {}, false, COPYING)
  {
    var p3 := Then(Copy(AllowLock), RELEASING);
    var p2 := Then(Copy(ChatsLock), p3);
    var p1 := Then(Copy(YoloLock), p2);
    ReleasingOk();
    CopyOk(COPIED_TO_CHATS, AllowLock, TABLE_LOCKS, RELEASING);
    CopyOk(COPIED_TO_YOLO, ChatsLock, COPIED_TO_CHATS, p3);
    CopyOk(COPIED_SESSIONS, YoloLock, COPIED_TO_YOLO, p2);
    CopyOk({}, SessionsLock, COPIED_SESSIONS, p1);
  }

  lemma LockingOk()
    ensures Disciplined(HOLDING_FLUSH, {}, false, LOCKING)
  {
    var p3 := Then(Acquire(AllowLock, Read), COPYING);
    var p2 := Then(Acquire(ChatsLock, Read), p3);
    var p1 := Then(Acquire(YoloLock, Read), p2);
    CopyingOk();
    AcquireOk(UP_TO_CHATS, AllowLock, Read, COPYING);
    AcquireOk(UP_TO_YOLO, ChatsLock, Read, p3);
    AcquireOk(UP_TO_SESSIONS, YoloLock, Read, p2);
    AcquireOk(HOLDING_FLUSH, SessionsLock, Read, p1);
  }

  lemma FlushOk()
    ensures Ok(FLUSH)
  {
    LockingOk();
    TakeAndDropOk(HOLDING_FLUSH, PathLock, Read, LOCKING);
    AcquireOk(map[], FlushLock, Write, Reading(PathLock, LOCKING));
  }

  lemma FlushInMemoryOk()
    ensures Ok(FLUSH_IN_MEMORY)
  {
    TakeAndDropOk(HOLDING_FLUSH, PathLock, Read, Then(Release(FlushLock), []));
    AcquireOk(map[], FlushLock, Write, Reading(PathLock, Then(Release(FlushLock), [])));
  }

  lemma GetOrInsertOk(key: ChannelKey, registered: bool, found: bool, id: string)
    ensures Ok(Program(GetOrInsert(key, registered, found, id)))
  {
    var creating := Creating(key, found, id);
    CreatingOk(key, found, id);
    TakeAndDropOk(map[], RegistryLock, Write, creating);
    var rest := if registered then creating else Then(Acquire(RegistryLock, Write), Then(Release(RegistryLock), creating));
    TakeAndDropOk(map[], RegistryLock, Read, rest);
    TakeAndDropOk(map[], SessionsLock, Read, FindingLock(registered, creating));
  }

  lemma QueryOk(key: ChannelKey, permanent: bool, expired: bool)
    ensures Ok(Program(QueryYolo(key, permanent, expired)))
  {
    WritingOk(map[], RemoveGrant(key), []);
    var removing := if expired then Writing(RemoveGrant(key), []) else [];
    TakeAndDropOk(map[], YoloLock, Read, removing);
    TakeAndDropOk(map[], ChatsLock, Read, if permanent then [] else Reading(YoloLock, removing));
  }

  lemma EnableOk(op: Operation)
    requires op.EnableYolo?
    ensures Ok(Program(op))
  {
    TakeAndDropOk(map[], YoloLock, Read, []);
    TakeAndDropOk(map[], ChatsLock, Read, if op.permanentLater then [] else Reading(YoloLock, []));
    var rest := Remaining(op.permanent, op.permanentLater);
    WritingOk(map[], CountEnable(op.key.chat, op.call), rest);
    WritingOk(map[], SetGrant(op.key, op.now, true), Writing(CountEnable(op.key.chat, op.call), rest));
  }

  lemma OneWriteOk(a: Access)
    requires a != SeedRows
    ensures Ok(Writing(a, []))
  {
    assert Ok([]);
    WritingOk(map[], a, []);
  }

  lemma ClearOk(chat: ChatId)
    ensures Ok(Program(ClearYolo(chat)))
  {
    OneWriteOk(DropGrants(chat));
    WritingOk(map[], DropRow(chat), Writing(DropGrants(chat), []));
  }

  lemma LookupOk(key: ChannelKey)
    ensures Ok(Program(Lookup(key)))
  {
    assert Ok([]);
    TakeAndDropOk(map[], SessionsLock, Read, []);
  }

  lemma EveryProgramOk(op: Operation)
    ensures Ok(Program(op))
  {
    match op
    case Flush(_) => FlushOk(); FlushInMemoryOk();
    case SeedCounts => SeedOk();
    case Lookup(key) => LookupOk(key);
    case GetOrInsert(key, registered, found, id) => GetOrInsertOk(key, registered, found, id);
    case QueryYolo(key, permanent, expired) => QueryOk(key, permanent, expired);
    case EnableYolo(_, _, _, _, _) => EnableOk(op);
    case ClearYolo(chat) => ClearOk(chat);
    case StoreSession(key, id) => OneWriteOk(SetSession(key, id));
    case DropSession(key) => OneWriteOk(RemoveSession(key));
    case GrantTemporary(key, now) => OneWriteOk(SetGrant(key, now, false));
    case RestoreYolo(key, at, ttl, now) => OneWriteOk(RestoreGrant(key, at, ttl, now));
    case DisableYolo(key) => OneWriteOk(RemoveGrant(key));
    case Allow(key, tool) => OneWriteOk(AllowAdd(key, tool));
    case Disallow(key, tool) => OneWriteOk(AllowRemove(key, tool));
  }

  // ---------------------------------------------------------------- every interleaving

  function StartTask(op: Operation): Task {
    Task(Program(op), map[], false, {}, EMPTY, None, 0)
  }

  /** All operations ready to start, in a map with tables `init`. */
  function Start(init: Tables, ops: seq<Operation>): Machine {
    Machine(init, seq(|ops|, i requires 0 <= i < |ops| => StartTask(ops[i])), [], [], [])
  }

  lemma StartKeepsInv(init: Tables, ops: seq<Operation>)
    ensures Inv(Start(init, ops), init)
  {
    var m := Start(init, ops);
    forall t | 0 <= t < |m.tasks|
      ensures TaskInv(m.tasks[t], init, m.mem, m.log, 0)
    {
      EveryProgramOk(ops[t]);
    }
  }

  /**
   The snapshot file, in every interleaving of any operations: each snapshot written is
   what the four tables held together at one instant during its flush, later snapshots
   are of later instants, and as long as some operation is unfinished one can go on.
   */
  lemma FlushesAreConsistentAndLive(init: Tables, ops: seq<Operation>, schedule: seq<nat>)
    ensures var n := RunSchedule(Start(init, ops), schedule);
      && n.mem == ApplyAll(init, n.log)
      && (forall i :: 0 <= i < |n.snapshots| ==> SnapshotInv(n.snapshots[i], init, n.log))
      && (forall i, j :: 0 <= i < j < |n.snapshots| ==> n.snapshots[i].cut <= n.snapshots[j].cut)
      && (!Finished(n) ==> exists t :: Enabled(n, t))
  {
    var m := Start(init, ops);
    StartKeepsInv(init, ops);
    EveryScheduleKeepsInv(m, init, schedule);
    SnapshotsAreInstants(m, init, schedule);
    if !Finished(RunSchedule(m, schedule)) {
      NoDeadlock(RunSchedule(m, schedule), init);
    }
  }

  /** When everything has finished, each access of each operation was made exactly once. */
  lemma FinishedRunMadeEveryAccess(init: Tables, ops: seq<Operation>, schedule: seq<nat>)
    requires Finished(RunSchedule(Start(init, ops), schedule))
    ensures multiset(RunSchedule(Start(init, ops), schedule).log) == Pending(Start(init, ops).tasks)
  {
    FinishedRunIsConserved(Start(init, ops), schedule);
  }

  /**
   The escalation count in every interleaving of any operations, revocations and seedings included, in memory and
   in every snapshot: what the chat's latest reset left plus the distinct enables since, permanent exactly from two on.
   */
  lemma CountInEveryLockOrder(init: Tables, ops: seq<Operation>, schedule: seq<nat>, chat: ChatId)
    requires Consistent(init)
    ensures var n := RunSchedule(Start(init, ops), schedule);
      && CountsSinceReset(init, n.log, chat, RowOf(n.mem, chat))
      && forall i :: 0 <= i < |n.snapshots| ==>
           n.snapshots[i].cut <= |n.log|
           && CountsSinceReset(init, n.log[..n.snapshots[i].cut], chat, RowOf(n.snapshots[i].content, chat))
  {
    FlushesAreConsistentAndLive(init, ops, schedule);
    var n := RunSchedule(Start(init, ops), schedule);
    CountSinceLatestReset(init, n.log, chat);
    forall i | 0 <= i < |n.snapshots|
      ensures n.snapshots[i].cut <= |n.log|
        && CountsSinceReset(init, n.log[..n.snapshots[i].cut], chat, RowOf(n.snapshots[i].content, chat))
    {
      assert SnapshotInv(n.snapshots[i], init, n.log);
      CountSinceLatestReset(init, n.log[..n.snapshots[i].cut], chat);
    }
  }
}
