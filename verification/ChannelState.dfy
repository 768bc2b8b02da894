/**
 The four persisted tables of the Telegram channel map, as values, and the
 effect of every access to them. Each `Access` is what the source does under one
 acquisition of a write lock, so a run of the bot is a sequence of accesses in
 the order in which the locks were granted.
 */
module ChannelState {
  import opened Options

  const YOLO_TTL_SECS: int := 30 * 24 * 3600
  const YOLO_LEGACY_TTL_SECS: int := 72 * 3600
  const YOLO_PERMANENT_AFTER: nat := 2
  const U32_MAX: nat := 0xFFFF_FFFF

  datatype ChatId = ChatId(id: int)

  /** A topic of a chat; thread 0 stands for no topic. */
  datatype ChannelKey = ChannelKey(chat: ChatId, thread: int)

  /** When a topic was auto-approved, for how long, and whether a user asked for it. */
  datatype Grant = Grant(enabledAt: int, ttl: int, explicit: bool)

  /** Escalation of a chat: distinct enables, the permanent flag, and the last permission call counted. */
  datatype ChatRow = ChatRow(count: nat, permanent: bool, lastCall: Option<string>)

  datatype Tables = Tables(
    sessions: map<ChannelKey, string>,
    yolo: map<ChannelKey, Grant>,
    chats: map<ChatId, ChatRow>,
    allow: map<ChannelKey, set<string>>)

  const EMPTY: Tables := Tables(map[], map[], map[], map[])
  const FRESH_ROW: ChatRow := ChatRow(0, false, None)
  const SEEDED_ROW: ChatRow := ChatRow(1, false, None)

  function MakeKey(chat: ChatId, thread: Option<int>): ChannelKey {
    ChannelKey(chat, if thread.Some? then thread.value else 0)
  }

  /** The same topic: no thread is thread 0. */
  predicate SameTopic(chat: ChatId, thread: Option<int>, other: ChatId, otherThread: Option<int>) {
    chat == other
    && (thread == otherThread || (thread == None && otherThread == Some(0)) || (thread == Some(0) && otherThread == None))
  }

  /** Keys tell exactly the topics apart. */
  lemma KeysAreTopics(chat: ChatId, thread: Option<int>, other: ChatId, otherThread: Option<int>)
    ensures MakeKey(chat, thread) == MakeKey(other, otherThread) <==> SameTopic(chat, thread, other, otherThread)
    ensures MakeKey(chat, thread).chat == chat && (thread.Some? ==> MakeKey(chat, thread).thread == thread.value)
  {
  }

  predicate WithinTtl(enabledAt: int, ttl: int, now: int) {
    now - enabledAt < ttl
  }

  predicate Active(g: Grant, now: int) {
    WithinTtl(g.enabledAt, g.ttl, now)
  }

  predicate IsPermanent(s: Tables, chat: ChatId) {
    chat in s.chats && s.chats[chat].permanent
  }

  /** What `is_yolo` answers. */
  predicate ReadsYolo(s: Tables, key: ChannelKey, now: int) {
    IsPermanent(s, key.chat) || (key in s.yolo && Active(s.yolo[key], now))
  }

  /** The session stored for a topic, */
  function SessionAt(s: Tables, chat: ChatId, thread: Option<int>): Option<string> {
    var key := MakeKey(chat, thread);
    if key in s.sessions then Some(s.sessions[key]) else None
  }

  /** its grant, */
  function GrantAt(s: Tables, chat: ChatId, thread: Option<int>): Option<Grant> {
    var key := MakeKey(chat, thread);
    if key in s.yolo then Some(s.yolo[key]) else None
  }

  /** and the tools allowed in it. */
  function AllowedAt(s: Tables, chat: ChatId, thread: Option<int>): set<string> {
    AllowedOf(s, MakeKey(chat, thread))
  }

  function AllowedOf(s: Tables, key: ChannelKey): set<string> {
    if key in s.allow then s.allow[key] else {}
  }

  predicate ReadsYoloAt(s: Tables, chat: ChatId, thread: Option<int>, now: int) {
    ReadsYolo(s, MakeKey(chat, thread), now)
  }

  /** Every other topic is as before: its session, its grant, its tools, and what a query of it answers. */
  ghost predicate OtherTopicsKept(before: Tables, after: Tables, chat: ChatId, thread: Option<int>) {
    forall c, t :: !SameTopic(c, t, chat, thread) ==> TopicKept(before, after, c, t, chat)
  }

  /** A query answers otherwise only if `chat` has become permanent. */
  ghost predicate TopicKept(before: Tables, after: Tables, c: ChatId, t: Option<int>, chat: ChatId) {
    && SessionAt(after, c, t) == SessionAt(before, c, t)
    && GrantAt(after, c, t) == GrantAt(before, c, t)
    && AllowedAt(after, c, t) == AllowedAt(before, c, t)
    && forall now :: ReadsYoloAt(after, c, t, now) <==>
         ReadsYoloAt(before, c, t, now) || (c == chat && IsPermanent(after, chat))
  }

  datatype Access =
    | SetSession(key: ChannelKey, id: string)
    | RemoveSession(key: ChannelKey)
    | SetGrant(key: ChannelKey, now: int, explicit: bool)
    | RestoreGrant(key: ChannelKey, enabledAt: int, ttl: int, now: int)
    | RemoveGrant(key: ChannelKey)
    | DropGrants(chat: ChatId)
    | CountEnable(chat: ChatId, call: Option<string>)
    | DropRow(chat: ChatId)
    | SeedRows
    | AllowAdd(key: ChannelKey, tool: string)
    | AllowRemove(key: ChannelKey, tool: string)

  function RowOf(s: Tables, chat: ChatId): ChatRow {
    if chat in s.chats then s.chats[chat] else FRESH_ROW
  }

  function CountedRow(row: ChatRow): ChatRow {
    var count := if row.count < U32_MAX then row.count + 1 else U32_MAX;
    row.(count := count, permanent := row.permanent || count >= YOLO_PERMANENT_AFTER)
  }

  /** A command always counts; a permission card counts unless it was the chat's previous enable. */
  function EnabledRow(row: ChatRow, call: Option<string>): ChatRow {
    if call.None? then CountedRow(row.(lastCall := None))
    else if row.lastCall == call then row
    else CountedRow(row.(lastCall := call))
  }

  predicate HasExplicitGrant(s: Tables, chat: ChatId) {
    exists key :: key in s.yolo && key.chat == chat && s.yolo[key].explicit
  }

  /** Chats that seeding gives a row: an explicit grant survives and there is no row yet. */
  function Unseeded(s: Tables): set<ChatId> {
    set key | key in s.yolo && s.yolo[key].explicit && key.chat !in s.chats :: key.chat
  }

  function SeededChats(s: Tables): map<ChatId, ChatRow> {
    s.chats + (map chat | chat in Unseeded(s) :: SEEDED_ROW)
  }

  function Apply(s: Tables, a: Access): Tables {
    match a
    case SetSession(key, id) => s.(sessions := s.sessions[key := id])
    case RemoveSession(key) => s.(sessions := s.sessions - {key})
    case SetGrant(key, now, explicit) => s.(yolo := s.yolo[key := Grant(now, YOLO_TTL_SECS, explicit)])
    case RestoreGrant(key, at, ttl, now) =>
      if WithinTtl(at, ttl, now) then s.(yolo := s.yolo[key := Grant(at, ttl, true)]) else s
    case RemoveGrant(key) => s.(yolo := s.yolo - {key})
    case DropGrants(chat) => s.(yolo := map key | key in s.yolo && key.chat != chat :: s.yolo[key])
    case CountEnable(chat, call) => s.(chats := s.chats[chat := EnabledRow(RowOf(s, chat), call)])
    case DropRow(chat) => s.(chats := s.chats - {chat})
    case SeedRows => s.(chats := SeededChats(s))
    case AllowAdd(key, tool) =>
      s.(allow := s.allow[key := AllowedOf(s, key) + {tool}])
    case AllowRemove(key, tool) =>
      if key !in s.allow then s
      else if s.allow[key] - {tool} == {} then s.(allow := s.allow - {key})
      else s.(allow := s.allow[key := s.allow[key] - {tool}])
  }

  function ApplyAll(s: Tables, log: seq<Access>): Tables {
    if log == [] then s else Apply(ApplyAll(s, log[..|log| - 1]), log[|log| - 1])
  }

  /** What every table reached from an empty map satisfies. */
  ghost predicate Consistent(s: Tables) {
    && (forall chat :: chat in s.chats ==> RowConsistent(s.chats[chat]))
    && (forall key :: key in s.allow ==> s.allow[key] != {})
  }

  predicate RowConsistent(row: ChatRow) {
    row.count <= U32_MAX && (row.permanent <==> row.count >= 2)
  }

  /** What the representation guarantees of every map, opened from whatever file: 32-bit counts, no empty allow-list. */
  ghost predicate Storable(s: Tables) {
    && (forall chat :: chat in s.chats ==> s.chats[chat].count <= U32_MAX)
    && (forall key :: key in s.allow ==> s.allow[key] != {})
  }

  lemma ApplyKeepsStorable(s: Tables, a: Access)
    requires Storable(s)
    ensures Storable(Apply(s, a))
  {
    if a.AllowRemove? && a.key in s.allow {
      assert a.tool !in s.allow[a.key] - {a.tool};
    }
  }

  lemma ApplyKeepsConsistent(s: Tables, a: Access)
    requires Consistent(s)
    ensures Consistent(Apply(s, a))
  {
    if a.AllowRemove? && a.key in s.allow {
      assert a.tool !in s.allow[a.key] - {a.tool};
    }
  }

  // ---------------------------------------------------------------- sessions

  /** The session stored for a topic by the latest access that stored or removed one. */
  function LatestSession(s: Tables, log: seq<Access>, key: ChannelKey): Option<string> {
    if log == [] then (if key in s.sessions then Some(s.sessions[key]) else None)
    else
      var last := log[|log| - 1];
      if last.SetSession? && last.key == key then Some(last.id)
      else if last == RemoveSession(key) then None
      else LatestSession(s, log[..|log| - 1], key)
  }

  /** A look-up finds what was stored last for the topic; nothing else in the log matters to it. */
  lemma {:induction false} SessionIsLatestStored(s: Tables, log: seq<Access>, key: ChannelKey)
    ensures key in ApplyAll(s, log).sessions <==> LatestSession(s, log, key).Some?
    ensures key in ApplyAll(s, log).sessions ==> LatestSession(s, log, key) == Some(ApplyAll(s, log).sessions[key])
  {
    if log == [] {
    } else {
      SessionIsLatestStored(s, log[..|log| - 1], key);
    }
  }

  // ---------------------------------------------------------------- allow-lists

  /** Whether the latest access that allowed or disallowed the tool in the topic allowed it. */
  predicate LatestAllowed(s: Tables, log: seq<Access>, key: ChannelKey, tool: string) {
    if log == [] then tool in AllowedOf(s, key)
    else
      var last := log[|log| - 1];
      last == AllowAdd(key, tool) || (last != AllowRemove(key, tool) && LatestAllowed(s, log[..|log| - 1], key, tool))
  }

  /** A tool is allowed in a topic exactly if it was allowed there last; nothing else in the log matters to it. */
  lemma {:induction false} AllowedIsLatest(s: Tables, log: seq<Access>, key: ChannelKey, tool: string)
    ensures tool in AllowedOf(ApplyAll(s, log), key) <==> LatestAllowed(s, log, key, tool)
  {
    if log == [] {
    } else {
      AllowedIsLatest(s, log[..|log| - 1], key, tool);
      AllowedAfter(ApplyAll(s, log[..|log| - 1]), log[|log| - 1], key, tool);
    }
  }

  lemma AllowedAfter(s: Tables, a: Access, key: ChannelKey, tool: string)
    ensures tool in AllowedOf(Apply(s, a), key) <==>
      a == AllowAdd(key, tool) || (a != AllowRemove(key, tool) && tool in AllowedOf(s, key))
  {
    if a.AllowRemove? && a.key == key {
      assert tool != a.tool && tool in AllowedOf(s, key) ==> tool in AllowedOf(s, key) - {a.tool};
    }
  }

  // ---------------------------------------------------------------- windows

  /** A fresh grant reads on for thirty days to the second and off from then on; a permanent chat reads on for ever. */
  lemma GrantLastsThirtyDays(s: Tables, key: ChannelKey, at: int, explicit: bool, now: int)
    ensures ReadsYolo(Apply(s, SetGrant(key, at, explicit)), key, now) <==>
      IsPermanent(s, key.chat) || now < at + 2_592_000
  {
  }

  /** A restored grant reads on for what is left of the window it was given; one that is over is not restored. */
  lemma RestoredGrantKeepsItsWindow(s: Tables, key: ChannelKey, at: int, ttl: int, now: int, later: int)
    ensures var after := Apply(s, RestoreGrant(key, at, ttl, now));
      if now < at + ttl
      then ReadsYolo(after, key, later) <==> IsPermanent(s, key.chat) || later < at + ttl
      else after == s
  {
  }

  // ---------------------------------------------------------------- escalation count

  predicate Enables(a: Access, chat: ChatId) {
    a.CountEnable? && a.chat == chat
  }

  /** The call of the chat's latest enable in the log, or of its enable before the log. */
  function PreviousCall(log: seq<Access>, chat: ChatId, before: Option<string>): Option<string> {
    if log == [] then before
    else if Enables(log[|log| - 1], chat) then log[|log| - 1].call
    else PreviousCall(log[..|log| - 1], chat, before)
  }

  /** Enable number `i` is a distinct action: a command, or a card other than the chat's previous enable. */
  predicate Distinct(log: seq<Access>, chat: ChatId, before: Option<string>, i: nat)
    requires i < |log|
  {
    Enables(log[i], chat) && (log[i].call.None? || PreviousCall(log[..i], chat, before) != log[i].call)
  }

  function DistinctEnables(log: seq<Access>, chat: ChatId, before: Option<string>): set<nat> {
    set i: nat | i < |log| && Distinct(log, chat, before, i)
  }

  function Capped(n: nat): nat {
    if n > 4_294_967_295 then 4_294_967_295 else n
  }

  /** The log neither drops the chat's row nor seeds one: seeding does nothing to a chat that has a row. */
  predicate OnlyCounts(s: Tables, log: seq<Access>, chat: ChatId) {
    forall i :: 0 <= i < |log| ==> log[i] != DropRow(chat) && (log[i] == SeedRows ==> chat in s.chats)
  }

  lemma DistinctEnablesGrow(log: seq<Access>, chat: ChatId, before: Option<string>)
    requires log != []
    ensures var n := |log| - 1;
      DistinctEnables(log, chat, before) ==
      DistinctEnables(log[..n], chat, before) + (if Distinct(log, chat, before, n) then {n} else {})
    ensures |DistinctEnables(log, chat, before)| ==
      |DistinctEnables(log[..|log| - 1], chat, before)| + (if Distinct(log, chat, before, |log| - 1) then 1 else 0)
  {
    var n := |log| - 1;
    var shorter := DistinctEnables(log[..n], chat, before);
    forall i: nat | i < n
      ensures Distinct(log[..n], chat, before, i) <==> Distinct(log, chat, before, i)
    {
      assert log[..n][..i] == log[..i];
    }
    assert DistinctEnables(log, chat, before) ==
           shorter + (if Distinct(log, chat, before, n) then {n} else {});
    assert n !in shorter;
  }

  /** One enable adds one to a saturating count exactly when it is distinct from the last. */
  lemma EnableCounts(row: ChatRow, call: Option<string>, n: nat)
    requires row.count == Capped(n) && (row.permanent <==> row.count >= 2)
    ensures var r := EnabledRow(row, call);
      && r.count == Capped(if call.None? || row.lastCall != call then n + 1 else n)
      && (r.permanent <==> r.count >= 2)
      && r.lastCall == call
  {
  }

  /** The access gives the chat a row that does not depend on the one before: it drops it, or seeds a first one. */
  predicate Resets(s: Tables, a: Access, chat: ChatId) {
    a == DropRow(chat) || (a == SeedRows && chat in Unseeded(s))
  }

  /** One past the log's latest access that reset the chat's row; 0 when there is none. */
  function LatestReset(s: Tables, log: seq<Access>, chat: ChatId): (n: nat)
    ensures n <= |log|
  {
    if log == [] then 0
    else if Resets(ApplyAll(s, log[..|log| - 1]), log[|log| - 1], chat) then |log|
    else LatestReset(s, log[..|log| - 1], chat)
  }

  /** The row that a reset leaves: none after a drop, a count of one after seeding. */
  function BaseRow(s: Tables, log: seq<Access>, chat: ChatId): ChatRow {
    var n := LatestReset(s, log, chat);
    if n == 0 then RowOf(s, chat) else if log[n - 1] == SeedRows then SEEDED_ROW else FRESH_ROW
  }

  ghost predicate CountsSinceReset(s: Tables, log: seq<Access>, chat: ChatId, row: ChatRow) {
    CountsFrom(BaseRow(s, log, chat), log[LatestReset(s, log, chat)..], chat, row)
  }

  /** The row is the base row with the distinct enables of `recent` counted on. */
  ghost predicate CountsFrom(base: ChatRow, recent: seq<Access>, chat: ChatId, row: ChatRow) {
    && row.count == Capped(base.count + |DistinctEnables(recent, chat, base.lastCall)|)
    && row.lastCall == PreviousCall(recent, chat, base.lastCall)
    && (row.permanent <==> row.count >= 2)
  }

  /**
   For any log, revocations and seedings included: the count of a chat is what its latest reset left
   plus the distinct enables since, saturating, and the chat is permanent exactly from two on.
   */
  lemma {:induction false} CountSinceLatestReset(s: Tables, log: seq<Access>, chat: ChatId)
    requires Consistent(s)
    ensures CountsSinceReset(s, log, chat, RowOf(ApplyAll(s, log), chat))
  {
    if log == [] {
      assert log[0..] == [];
    } else {
      CountSinceLatestReset(s, log[..|log| - 1], chat);
      if !Resets(ApplyAll(s, log[..|log| - 1]), log[|log| - 1], chat) {
        CountWithoutReset(s, log, chat);
      }
    }
  }

  /** An access that resets nothing leaves the latest reset and its base row, and is one access more since. */
  lemma SameReset(s: Tables, log: seq<Access>, chat: ChatId)
    requires log != [] && !Resets(ApplyAll(s, log[..|log| - 1]), log[|log| - 1], chat)
    ensures var before, k := log[..|log| - 1], LatestReset(s, log, chat);
      && k == LatestReset(s, before, chat) && BaseRow(s, log, chat) == BaseRow(s, before, chat)
      && log[k..] == before[k..] + [log[|log| - 1]]
  {
  }

  lemma CountWithoutReset(s: Tables, log: seq<Access>, chat: ChatId)
    requires log != [] && !Resets(ApplyAll(s, log[..|log| - 1]), log[|log| - 1], chat)
    requires CountsSinceReset(s, log[..|log| - 1], chat, RowOf(ApplyAll(s, log[..|log| - 1]), chat))
    ensures CountsSinceReset(s, log, chat, RowOf(ApplyAll(s, log), chat))
  {
    var n := |log| - 1;
    SameReset(s, log, chat);
    RowWithoutReset(ApplyAll(s, log[..n]), log[n], chat);
    OneMoreCounted(BaseRow(s, log, chat), log[..n][LatestReset(s, log, chat)..], log[n], chat,
                   RowOf(ApplyAll(s, log[..n]), chat));
  }

  lemma RowWithoutReset(s: Tables, a: Access, chat: ChatId)
    requires !Resets(s, a, chat)
    ensures RowOf(Apply(s, a), chat) == if Enables(a, chat) then EnabledRow(RowOf(s, chat), a.call) else RowOf(s, chat)
  {
  }

  lemma OneMoreCounted(base: ChatRow, recent: seq<Access>, a: Access, chat: ChatId, row: ChatRow)
    requires CountsFrom(base, recent, chat, row)
    ensures CountsFrom(base, recent + [a], chat, if Enables(a, chat) then EnabledRow(row, a.call) else row)
  {
    var more, n := recent + [a], |recent|;
    assert more[..n] == recent && more[n] == a;
    DistinctEnablesGrow(more, chat, base.lastCall);
    if Enables(a, chat) {
      EnableCounts(row, a.call, base.count + |DistinctEnables(recent, chat, base.lastCall)|);
    }
  }

  lemma {:induction false} OnlyCountsIsNoReset(s: Tables, log: seq<Access>, chat: ChatId)
    requires OnlyCounts(s, log, chat)
    ensures LatestReset(s, log, chat) == 0
    ensures chat in s.chats ==> chat in ApplyAll(s, log).chats
  {
    if log == [] {
    } else {
      var n := |log| - 1;
      OnlyCountsIsNoReset(s, log[..n], chat);
      assert log[n] != DropRow(chat) && (log[n] == SeedRows ==> chat in s.chats);
    }
  }

  /**
   Without a reset: the count of a chat is its base plus the number of distinct enables, saturating, and the
   chat is permanent exactly from the second on.
   */
  lemma CountIsDistinctEnables(s: Tables, log: seq<Access>, chat: ChatId)
    requires Consistent(s) && OnlyCounts(s, log, chat)
    ensures var row := RowOf(ApplyAll(s, log), chat);
      var base := RowOf(s, chat);
      && row.count == Capped(base.count + |DistinctEnables(log, chat, base.lastCall)|)
      && row.lastCall == PreviousCall(log, chat, base.lastCall)
      && (row.permanent <==> row.count >= 2)
    ensures chat in s.chats ==> chat in ApplyAll(s, log).chats
  {
    OnlyCountsIsNoReset(s, log, chat);
    CountSinceLatestReset(s, log, chat);
    assert log[0..] == log;
  }

  /** Seeding leaves existing rows alone and is idempotent. */
  lemma SeedingIsIdempotent(s: Tables)
    ensures forall chat :: chat in s.chats ==> Apply(s, SeedRows).chats[chat] == s.chats[chat]
    ensures forall chat :: chat in Apply(s, SeedRows).chats <==> chat in s.chats || HasExplicitGrant(s, chat)
    ensures forall chat :: HasExplicitGrant(s, chat) && chat !in s.chats ==>
      Apply(s, SeedRows).chats[chat] == ChatRow(1, false, None)
    ensures Apply(Apply(s, SeedRows), SeedRows) == Apply(s, SeedRows)
  {
    var t := Apply(s, SeedRows);
    forall chat | HasExplicitGrant(s, chat)
      ensures chat in t.chats
    {
      var key :| key in s.yolo && key.chat == chat && s.yolo[key].explicit;
      assert key.chat in s.chats || key.chat in Unseeded(s);
    }
    assert Unseeded(t) == {} by {
      if x :| x in Unseeded(t) {
        assert HasExplicitGrant(s, x);
      }
    }
    assert SeededChats(t) == t.chats;
  }
}
