/**
 What auto-approval means over a whole history of operations, one at a time, with
 restarts. A topic reads as auto-approved exactly when its chat is permanent or its latest
 grant still stands (`AutoApprovalFollowsLatestGrant`), revocation lasts until the next grant
 (`RevocationLasts`), and automated grants never help a chat to become permanent
 (`AutomatedGrantsNeverEscalate`).
 */
module YoloHistory {
  import opened Options
  import opened ChannelState
  import opened Snapshots

  /** The operations; `now` is the clock read by the operation. */
  datatype Event =
    | Enable(key: ChannelKey, call: Option<string>, now: int)
    | GrantTemporary(key: ChannelKey, now: int)
    | Restore(key: ChannelKey, enabledAt: int, ttl: int, now: int)
    | Query(key: ChannelKey, now: int)
    | Disable(key: ChannelKey)
    | Clear(chat: ChatId)
    | Seed
    | Restart(now: int)

  function Step(s: Tables, e: Event): Tables {
    match e
    case Enable(key, call, now) => Apply(Apply(s, SetGrant(key, now, true)), CountEnable(key.chat, call))
    case GrantTemporary(key, now) => Apply(s, SetGrant(key, now, false))
    case Restore(key, at, ttl, now) => Apply(s, RestoreGrant(key, at, ttl, now))
    case Query(key, now) => if ReadsYolo(s, key, now) then s else Apply(s, RemoveGrant(key))
    case Disable(key) => Apply(s, RemoveGrant(key))
    case Clear(chat) => Apply(Apply(s, DropRow(chat)), DropGrants(chat))
    case Seed => Apply(s, SeedRows)
    case Restart(now) => Restarted(s, now)
  }

  function Run(s: Tables, events: seq<Event>): Tables {
    if events == [] then s else Step(Run(s, events[..|events| - 1]), events[|events| - 1])
  }

  lemma {:induction false} RunKeepsConsistent(s: Tables, events: seq<Event>)
    requires Consistent(s)
    ensures Consistent(Run(s, events))
  {
    if events == [] {
    } else {
      RunKeepsConsistent(s, events[..|events| - 1]);
      assert forall t, a :: Consistent(t) ==> Consistent(Apply(t, a)) by {
        forall t, a | Consistent(t) ensures Consistent(Apply(t, a)) { ApplyKeepsConsistent(t, a); }
      }
    }
  }

  /** From whatever file a map was opened, after any history it can be flushed and opened again. */
  lemma {:induction false} RunKeepsStorable(s: Tables, events: seq<Event>)
    requires Storable(s)
    ensures Storable(Run(s, events))
  {
    if events == [] {
    } else {
      RunKeepsStorable(s, events[..|events| - 1]);
      StepKeepsStorable(Run(s, events[..|events| - 1]), events[|events| - 1]);
    }
  }

  lemma StepKeepsStorable(s: Tables, e: Event)
    requires Storable(s)
    ensures Storable(Step(s, e))
  {
    match e
    case Enable(key, call, now) =>
      ApplyKeepsStorable(s, SetGrant(key, now, true));
      ApplyKeepsStorable(Apply(s, SetGrant(key, now, true)), CountEnable(key.chat, call));
    case Clear(chat) =>
      ApplyKeepsStorable(s, DropRow(chat));
      ApplyKeepsStorable(Apply(s, DropRow(chat)), DropGrants(chat));
    case Seed => ApplyKeepsStorable(s, SeedRows);
    case _ =>
  }

  // ---------------------------------------------------------------- grants

  /** The grant an event gives a topic, with the window it is given for. */
  function Given(e: Event, key: ChannelKey): Option<Grant> {
    match e
    case Enable(k, _, now) => if k == key then Some(Grant(now, YOLO_TTL_SECS, true)) else None
    case GrantTemporary(k, now) => if k == key then Some(Grant(now, YOLO_TTL_SECS, false)) else None
    case Restore(k, at, ttl, now) => if k == key && WithinTtl(at, ttl, now) then Some(Grant(at, ttl, true)) else None
    case _ => None
  }

  predicate Revokes(e: Event, key: ChannelKey) {
    e == Disable(key) || e == Clear(key.chat)
  }

  /** The topic's latest grant that no later event revokes. Queries, seeding and restarts do not matter to it. */
  function LatestGrant(s: Tables, events: seq<Event>, key: ChannelKey): Option<Grant> {
    if events == [] then (if key in s.yolo then Some(s.yolo[key]) else None)
    else
      var last := events[|events| - 1];
      if Given(last, key).Some? then Given(last, key)
      else if Revokes(last, key) then None
      else LatestGrant(s, events[..|events| - 1], key)
  }

  /** What one event does to the grant of one topic. */
  lemma StepOnGrant(s: Tables, e: Event, key: ChannelKey)
    ensures Given(e, key).Some? ==> key in Step(s, e).yolo && Step(s, e).yolo[key] == Given(e, key).value
    ensures Given(e, key).None? && key in Step(s, e).yolo ==>
      !Revokes(e, key) && key in s.yolo && Step(s, e).yolo[key] == s.yolo[key]
    ensures Given(e, key).None? && !Revokes(e, key) && key in s.yolo && key !in Step(s, e).yolo ==>
      (e.Query? || e.Restart?) && !Active(s.yolo[key], e.now)
  {
  }

  /** A stored grant is the latest grant, with the enabling time and the window it was given. */
  lemma {:induction false} StoredGrantIsLatest(s: Tables, events: seq<Event>, key: ChannelKey)
    ensures key in Run(s, events).yolo ==> LatestGrant(s, events, key) == Some(Run(s, events).yolo[key])
  {
    if events == [] {
    } else {
      StoredGrantIsLatest(s, events[..|events| - 1], key);
      StepOnGrant(Run(s, events[..|events| - 1]), events[|events| - 1], key);
    }
  }

  /** The clock readings never go back and end at or before `t`. */
  predicate Monotone(events: seq<Event>, t: int) {
    events == [] ||
    var last := events[|events| - 1];
    if last.Disable? || last.Clear? || last.Seed? then Monotone(events[..|events| - 1], t)
    else last.now <= t && Monotone(events[..|events| - 1], last.now)
  }

  /** Nothing that is still inside its window is ever forgotten. */
  lemma {:induction false} LatestActiveGrantIsStored(s: Tables, events: seq<Event>, key: ChannelKey, t: int)
    requires Monotone(events, t)
    ensures var g := LatestGrant(s, events, key);
      g.Some? && Active(g.value, t) ==> key in Run(s, events).yolo && Run(s, events).yolo[key] == g.value
  {
    if events == [] {
    } else {
      var last := events[|events| - 1];
      var earlier := if last.Disable? || last.Clear? || last.Seed? then t else last.now;
      LatestActiveGrantIsStored(s, events[..|events| - 1], key, earlier);
      StepOnGrant(Run(s, events[..|events| - 1]), last, key);
    }
  }

  /**
   A topic reads as auto-approved only if its chat is permanent or its latest
   grant is inside the window it was given, whatever the clock did in between;
   with a clock that never goes back, exactly then.
   */
  lemma AutoApprovalFollowsLatestGrant(s: Tables, events: seq<Event>, key: ChannelKey, now: int)
    ensures var g := LatestGrant(s, events, key);
      var approved := IsPermanent(Run(s, events), key.chat) || (g.Some? && Active(g.value, now));
      && (ReadsYolo(Run(s, events), key, now) ==> approved)
      && (Monotone(events, now) && approved ==> ReadsYolo(Run(s, events), key, now))
  {
    StoredGrantIsLatest(s, events, key);
    if Monotone(events, now) {
      LatestActiveGrantIsStored(s, events, key, now);
    }
  }

  /** No sequence of restarts, seedings and queries brings a grant back, refreshes it or gives it a longer window. */
  lemma {:induction false} MaintenanceKeepsStoredGrant(s: Tables, events: seq<Event>, more: seq<Event>, key: ChannelKey)
    requires forall i :: 0 <= i < |more| ==> more[i].Restart? || more[i].Seed? || more[i].Query?
    ensures key in Run(s, events + more).yolo ==>
      key in Run(s, events).yolo && Run(s, events + more).yolo[key] == Run(s, events).yolo[key]
  {
    if more == [] {
      assert events + more == events;
    } else {
      var n := |more| - 1;
      assert (events + more)[..|events + more| - 1] == events + more[..n];
      MaintenanceKeepsStoredGrant(s, events, more[..n], key);
      StepOnGrant(Run(s, events + more[..n]), more[n], key);
    }
  }

  /** A query leaves no expired grant of its topic behind, unless the chat is permanent, and no other table changes. */
  lemma QueryForgetsExpired(s: Tables, key: ChannelKey, now: int)
    ensures var after := Step(s, Query(key, now));
      && after.(yolo := s.yolo) == s
      && (key in after.yolo && !IsPermanent(s, key.chat) ==> Active(after.yolo[key], now))
      && (key in after.yolo <==> key in s.yolo && ReadsYolo(s, key, now))
  {
  }

  // ---------------------------------------------------------------- revocation

  predicate GrantsIn(e: Event, chat: ChatId) {
    (e.Enable? || e.GrantTemporary? || e.Restore?) && e.key.chat == chat
  }

  ghost predicate Revoked(s: Tables, chat: ChatId) {
    chat !in s.chats && forall key :: key in s.yolo ==> key.chat != chat
  }

  lemma {:induction false} RevokedStays(s: Tables, events: seq<Event>, chat: ChatId)
    requires Revoked(s, chat)
    requires forall i :: 0 <= i < |events| ==> !GrantsIn(events[i], chat)
    ensures Revoked(Run(s, events), chat)
  {
    if events == [] {
    } else {
      RevokedStays(s, events[..|events| - 1], chat);
      StepKeepsRevoked(Run(s, events[..|events| - 1]), events[|events| - 1], chat);
    }
  }

  lemma StepKeepsRevoked(s: Tables, e: Event, chat: ChatId)
    requires Revoked(s, chat) && !GrantsIn(e, chat)
    ensures Revoked(Step(s, e), chat)
  {
    match e
    case Seed => assert chat !in Unseeded(s);
    case _ =>
  }

  lemma {:induction false} RunOfConcatenation(s: Tables, a: seq<Event>, b: seq<Event>)
    ensures Run(s, a + b) == Run(Run(s, a), b)
  {
    if b == [] {
      assert a + b == a;
    } else {
      assert (a + b)[..|a + b| - 1] == a + b[..|b| - 1];
      RunOfConcatenation(s, a, b[..|b| - 1]);
    }
  }

  /** After `/yolo off` every topic of the chat stays off until the next grant in the chat. */
  lemma RevocationLasts(s: Tables, before: seq<Event>, chat: ChatId, after: seq<Event>, key: ChannelKey, now: int)
    requires forall i :: 0 <= i < |after| ==> !GrantsIn(after[i], chat)
    requires key.chat == chat
    ensures !ReadsYolo(Run(s, before + [Clear(chat)] + after), key, now)
  {
    RunOfConcatenation(s, before + [Clear(chat)], after);
    assert (before + [Clear(chat)])[..|before|] == before;
    RevokedStays(Run(s, before + [Clear(chat)]), after, chat);
  }

  // ---------------------------------------------------------------- escalation

  /** The run without its automated grants. */
  function Erased(events: seq<Event>): seq<Event> {
    if events == [] then []
    else
      var last := events[|events| - 1];
      Erased(events[..|events| - 1]) + (if last.GrantTemporary? then [] else [last])
  }

  /**
   How the full run `f` and the erased run `e` compare: an explicit grant of `f` is
   in `e` too, and every row of `f` is matched in `e` by one that is at least as far.
   */
  ghost predicate Ahead(f: Tables, e: Tables) {
    GrantsAhead(f.yolo, e.yolo) && RowsAhead(f.chats, e.chats)
  }

  ghost predicate GrantsAhead(f: map<ChannelKey, Grant>, e: map<ChannelKey, Grant>) {
    forall key :: key in f && f[key].explicit ==> key in e && e[key] == f[key]
  }

  ghost predicate RowsAhead(f: map<ChatId, ChatRow>, e: map<ChatId, ChatRow>) {
    && (forall chat :: chat in f ==> chat in e && RowAhead(f[chat], e[chat]))
    && (forall chat :: chat in e && chat !in f ==> e[chat].lastCall == None && e[chat].count >= 1)
  }

  predicate RowAhead(f: ChatRow, e: ChatRow) {
    f.count <= e.count && (f.permanent ==> e.permanent) && f.lastCall == e.lastCall
  }

  lemma StepKeepsAhead(f: Tables, e: Tables, event: Event)
    requires Ahead(f, e) && !event.GrantTemporary?
    ensures Ahead(Step(f, event), Step(e, event))
  {
    if event.Enable? {
      EnableKeepsAhead(f, e, event.key.chat, event.call);
    } else if event.Seed? {
      SeedingKeepsAhead(f, e);
    } else if event.Query? {
      QueryKeepsAhead(f, e, event.key, event.now);
    } else if event.Clear? {
      ClearKeepsAhead(f, e, event.chat);
    } else if event.Restart? {
      RestartKeepsAhead(f, e, event.now);
    }
  }

  lemma EnableKeepsAhead(f: Tables, e: Tables, chat: ChatId, call: Option<string>)
    requires RowsAhead(f.chats, e.chats)
    ensures RowsAhead(f.chats[chat := EnabledRow(RowOf(f, chat), call)], e.chats[chat := EnabledRow(RowOf(e, chat), call)])
  {
    assert RowAhead(RowOf(f, chat), RowOf(e, chat));
  }

  lemma QueryKeepsAhead(f: Tables, e: Tables, key: ChannelKey, now: int)
    requires Ahead(f, e)
    ensures Ahead(Step(f, Query(key, now)), Step(e, Query(key, now)))
  {
    assert IsPermanent(f, key.chat) ==> IsPermanent(e, key.chat);
    assert key in f.yolo && f.yolo[key].explicit && ReadsYolo(f, key, now) ==> ReadsYolo(e, key, now);
  }

  lemma ClearKeepsAhead(f: Tables, e: Tables, chat: ChatId)
    requires Ahead(f, e)
    ensures Ahead(Step(f, Clear(chat)), Step(e, Clear(chat)))
  {
  }

  lemma RestartKeepsAhead(f: Tables, e: Tables, now: int)
    requires Ahead(f, e)
    ensures Ahead(Restarted(f, now), Restarted(e, now))
  {
  }

  lemma SeedingKeepsAhead(f: Tables, e: Tables)
    requires Ahead(f, e)
    ensures Ahead(Apply(f, SeedRows), Apply(e, SeedRows))
  {
    forall chat | chat in Unseeded(f)
      ensures chat in e.chats || chat in Unseeded(e)
    {
      var key :| key in f.yolo && f.yolo[key].explicit && key.chat == chat;
      assert key in e.yolo && e.yolo[key].explicit;
    }
  }

  lemma {:induction false} ErasedRunIsAhead(s: Tables, events: seq<Event>)
    ensures Ahead(Run(s, events), Run(s, Erased(events)))
  {
    if events == [] {
    } else {
      var last, before := events[|events| - 1], events[..|events| - 1];
      ErasedRunIsAhead(s, before);
      if last.GrantTemporary? {
        assert Erased(events) == Erased(before);
      } else {
        StepKeepsAhead(Run(s, before), Run(s, Erased(before)), last);
        assert Erased(events)[..|Erased(before)|] == Erased(before);
      }
    }
  }

  /** Leaving out every automated grant never lowers a count and never takes a permanent flag away. */
  lemma AutomatedGrantsNeverEscalate(s: Tables, events: seq<Event>, chat: ChatId)
    ensures RowOf(Run(s, events), chat).count <= RowOf(Run(s, Erased(events)), chat).count
    ensures IsPermanent(Run(s, events), chat) ==> IsPermanent(Run(s, Erased(events)), chat)
  {
    ErasedRunIsAhead(s, events);
  }

  // ---------------------------------------------------------------- the count over a history

  predicate Enables(e: Event, chat: ChatId) {
    e.Enable? && e.key.chat == chat
  }

  /** The call of the chat's latest enable since the last restart: a restart forgets it. */
  function CallBefore(events: seq<Event>, chat: ChatId, before: Option<string>): Option<string> {
    if events == [] then before
    else
      var last := events[|events| - 1];
      if Enables(last, chat) then last.call
      else if last.Restart? then None
      else CallBefore(events[..|events| - 1], chat, before)
  }

  /** Number of enables that are commands, or cards other than the chat's latest enable since the last restart. */
  function Counted(events: seq<Event>, chat: ChatId, before: Option<string>): nat {
    if events == [] then 0
    else
      var earlier, last := events[..|events| - 1], events[|events| - 1];
      Counted(earlier, chat, before)
      + (if Enables(last, chat) && (last.call.None? || CallBefore(earlier, chat, before) != last.call) then 1 else 0)
  }

  /** The event drops the chat's row, or seeds a first one. */
  predicate ResetsRow(s: Tables, e: Event, chat: ChatId) {
    e == Clear(chat) || (e.Seed? && chat in Unseeded(s))
  }

  function LatestRowReset(s: Tables, events: seq<Event>, chat: ChatId): (n: nat)
    ensures n <= |events|
  {
    if events == [] then 0
    else if ResetsRow(Run(s, events[..|events| - 1]), events[|events| - 1], chat) then |events|
    else LatestRowReset(s, events[..|events| - 1], chat)
  }

  function RowAtReset(s: Tables, events: seq<Event>, chat: ChatId): ChatRow {
    var n := LatestRowReset(s, events, chat);
    if n == 0 then RowOf(s, chat) else if events[n - 1].Seed? then SEEDED_ROW else FRESH_ROW
  }

  ghost predicate CountedFrom(base: ChatRow, recent: seq<Event>, chat: ChatId, row: ChatRow) {
    && row.count == Capped(base.count + Counted(recent, chat, base.lastCall))
    && row.lastCall == CallBefore(recent, chat, base.lastCall)
    && (row.permanent <==> row.count >= 2)
  }

  /** What an event that does not reset the row does to it. */
  function RowAfter(row: ChatRow, e: Event, chat: ChatId): ChatRow {
    if Enables(e, chat) then EnabledRow(row, e.call) else if e.Restart? then row.(lastCall := None) else row
  }

  lemma StepOnRow(s: Tables, e: Event, chat: ChatId)
    ensures RowOf(Step(s, e), chat) ==
      if ResetsRow(s, e, chat) then (if e.Seed? then SEEDED_ROW else FRESH_ROW) else RowAfter(RowOf(s, chat), e, chat)
  {
  }

  lemma CountOneMore(recent: seq<Event>, e: Event, chat: ChatId, before: Option<string>)
    ensures Counted(recent + [e], chat, before) == Counted(recent, chat, before)
      + (if Enables(e, chat) && (e.call.None? || CallBefore(recent, chat, before) != e.call) then 1 else 0)
    ensures CallBefore(recent + [e], chat, before) ==
      if Enables(e, chat) then e.call else if e.Restart? then None else CallBefore(recent, chat, before)
  {
    var more := recent + [e];
    assert more[..|more| - 1] == recent && more[|more| - 1] == e;
  }

  lemma OneMoreEvent(base: ChatRow, recent: seq<Event>, e: Event, chat: ChatId, row: ChatRow)
    requires CountedFrom(base, recent, chat, row)
    ensures CountedFrom(base, recent + [e], chat, RowAfter(row, e, chat))
  {
    CountOneMore(recent, e, chat, base.lastCall);
    if Enables(e, chat) {
      EnableCounts(row, e.call, base.count + Counted(recent, chat, base.lastCall));
    }
  }

  /**
   Over any history with restarts: the count of a chat is what its latest reset left plus the enables
   counted since, saturating, and the chat is permanent exactly from two on.
   */
  lemma {:induction false} CountOverHistory(s: Tables, events: seq<Event>, chat: ChatId)
    requires Consistent(s)
    ensures CountedFrom(RowAtReset(s, events, chat), events[LatestRowReset(s, events, chat)..], chat,
                        RowOf(Run(s, events), chat))
  {
    if events == [] {
      assert events[0..] == [];
    } else {
      var earlier, last := events[..|events| - 1], events[|events| - 1];
      CountOverHistory(s, earlier, chat);
      StepOnRow(Run(s, earlier), last, chat);
      if ResetsRow(Run(s, earlier), last, chat) {
        assert events[|events|..] == [];
      } else {
        SameRowReset(s, events, chat);
        OneMoreEvent(RowAtReset(s, earlier, chat), earlier[LatestRowReset(s, earlier, chat)..], last, chat,
                     RowOf(Run(s, earlier), chat));
      }
    }
  }

  lemma SameRowReset(s: Tables, events: seq<Event>, chat: ChatId)
    requires events != [] && !ResetsRow(Run(s, events[..|events| - 1]), events[|events| - 1], chat)
    ensures var earlier, n := events[..|events| - 1], LatestRowReset(s, events, chat);
      && n == LatestRowReset(s, earlier, chat) && RowAtReset(s, events, chat) == RowAtReset(s, earlier, chat)
      && events[n..] == earlier[n..] + [events[|events| - 1]]
  {
  }

  /** One card delivered before and after a restart counts twice and makes its chat permanent; without restart it counts once. */
  lemma RestartForgetsTheCard(key: ChannelKey, card: string, a: int, b: int, c: int)
    ensures IsPermanent(Run(EMPTY, [Enable(key, Some(card), a), Event.Restart(b), Enable(key, Some(card), c)]), key.chat)
    ensures !IsPermanent(Run(EMPTY, [Enable(key, Some(card), a), Enable(key, Some(card), c)]), key.chat)
  {
    var first, again := Enable(key, Some(card), a), Enable(key, Some(card), c);
    var once := Run(EMPTY, [first]);
    assert [first][..0] == [] && Run(EMPTY, []) == EMPTY;
    assert RowOf(once, key.chat) == ChatRow(1, false, Some(card)) && key.chat in once.chats;
    assert [first, again][..1] == [first];
    assert [first, Event.Restart(b)][..1] == [first];
    assert [first, Event.Restart(b), again][..2] == [first, Event.Restart(b)];
    var restarted := Run(EMPTY, [first, Event.Restart(b)]);
    assert restarted == Restarted(once, b) && RowOf(restarted, key.chat) == ChatRow(1, false, None);
    StepOnRow(restarted, again, key.chat);
    StepOnRow(once, again, key.chat);
  }

  // ---------------------------------------------------------------- between the two locks of a query

  /** The grant that a log of accesses gives the topic and does not take away again. */
  function GivenBy(log: seq<Access>, key: ChannelKey): Option<Grant> {
    if log == [] then None
    else
      match log[|log| - 1]
      case SetGrant(k, now, explicit) =>
        if k == key then Some(Grant(now, YOLO_TTL_SECS, explicit)) else GivenBy(log[..|log| - 1], key)
      case RestoreGrant(k, at, ttl, now) =>
        if k == key && WithinTtl(at, ttl, now) then Some(Grant(at, ttl, true)) else GivenBy(log[..|log| - 1], key)
      case RemoveGrant(k) => if k == key then None else GivenBy(log[..|log| - 1], key)
      case DropGrants(chat) => if chat == key.chat then None else GivenBy(log[..|log| - 1], key)
      case _ => GivenBy(log[..|log| - 1], key)
  }

  lemma {:induction false} GrantAfterLog(s: Tables, log: seq<Access>, key: ChannelKey)
    ensures GivenBy(log, key).Some? ==>
      key in ApplyAll(s, log).yolo && ApplyAll(s, log).yolo[key] == GivenBy(log, key).value
    ensures GivenBy(log, key).None? && key in ApplyAll(s, log).yolo ==>
      key in s.yolo && ApplyAll(s, log).yolo[key] == s.yolo[key]
  {
    if log != [] {
      var earlier := log[..|log| - 1];
      GrantAfterLog(s, earlier, key);
      GrantAfter(ApplyAll(s, earlier), log[|log| - 1], key);
    }
  }

  /** What one access makes of a topic's grant: a new one, none, or what was there. */
  lemma GrantAfter(s: Tables, a: Access, key: ChannelKey)
    ensures var after, given := Apply(s, a).yolo, GivenBy([a], key);
      && (given.Some? ==> key in after && after[key] == given.value)
      && (a == RemoveGrant(key) || a == DropGrants(key.chat) ==> key !in after)
      && (given.None? && key in after ==> key in s.yolo && after[key] == s.yolo[key])
  {
  }

  /** The removal that ends a query takes away a grant that is active at time `t`. */
  predicate QueryLoses(s: Tables, between: seq<Access>, key: ChannelKey, t: int) {
    key in ApplyAll(s, between).yolo && Active(ApplyAll(s, between).yolo[key], t)
  }

  /**
   A query that saw an expired grant takes an active one away exactly if the accesses between its two locks
   gave the topic that grant: nothing is lost when nothing is granted in between.
   */
  lemma QueryLosesExactly(s: Tables, between: seq<Access>, key: ChannelKey, now: int, t: int)
    requires key in s.yolo && !Active(s.yolo[key], now) && now <= t
    ensures QueryLoses(s, between, key, t) <==>
      GivenBy(between, key).Some? && Active(GivenBy(between, key).value, t)
  {
    GrantAfterLog(s, between, key);
  }

  /** An enable between the two locks is lost: the topic reads as off, and as on if the query had come first. */
  lemma EnableInTheWindowIsLost(s: Tables, key: ChannelKey, now: int)
    requires key in s.yolo && !Active(s.yolo[key], now) && !IsPermanent(s, key.chat)
    ensures QueryLoses(s, [SetGrant(key, now, true)], key, now)
    ensures !ReadsYolo(ApplyAll(s, [SetGrant(key, now, true), RemoveGrant(key)]), key, now)
    ensures ReadsYolo(ApplyAll(s, [RemoveGrant(key), SetGrant(key, now, true)]), key, now)
  {
    TwoAccesses(s, SetGrant(key, now, true), RemoveGrant(key));
    TwoAccesses(s, RemoveGrant(key), SetGrant(key, now, true));
  }

  lemma TwoAccesses(s: Tables, a: Access, b: Access)
    ensures ApplyAll(s, [a]) == Apply(s, a)
    ensures ApplyAll(s, [a, b]) == Apply(Apply(s, a), b)
  {
    var one, two := [a], [a, b];
    assert one[..|one| - 1] == [] && two[..|two| - 1] == one;
    assert ApplyAll(s, []) == s;
  }
}
