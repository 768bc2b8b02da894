/**
 The JSONL snapshot of the channel map: which lines `flush` writes, how `open`
 reads any file line by line, and what survives a restart.
 */
module Snapshots {
  import opened Options
  import opened ChannelState

  /** One line of the file as `open` sees it; a missing or ill-typed field is `None`. */
  datatype Line =
    | Blank
    | Malformed
    | Record(
        ty: Option<string>, chat: Option<int>, thread: Option<int>,
        session: Option<string>,
        enabledAt: Option<int>, ttl: Option<int>, explicit: Option<bool>,
        count: Option<nat>, permanent: Option<bool>,
        tool: Option<string>)

  const MAP_TYPE: Option<string> := Some("map")
  const YOLO_TYPE: Option<string> := Some("yolo")
  const CHAT_TYPE: Option<string> := Some("yolo_chat")
  const ALLOW_TYPE: Option<string> := Some("allow")

  function SessionLine(key: ChannelKey, id: string): Line {
    Record(MAP_TYPE, Some(key.chat.id), Some(key.thread), Some(id), None, None, None, None, None, None)
  }

  function GrantLine(key: ChannelKey, g: Grant): Line {
    Record(YOLO_TYPE, Some(key.chat.id), Some(key.thread), None,
           Some(g.enabledAt), Some(g.ttl), Some(g.explicit), None, None, None)
  }

  function ChatLine(chat: ChatId, row: ChatRow): Line {
    Record(CHAT_TYPE, Some(chat.id), None, None, None, None, None, Some(row.count), Some(row.permanent), None)
  }

  function AllowLine(key: ChannelKey, tool: string): Line {
    Record(ALLOW_TYPE, Some(key.chat.id), Some(key.thread), None, None, None, None, None, None, Some(tool))
  }

  // ---------------------------------------------------------------- reading

  /** Narrowing of the stored count to 32 bits. */
  function ToU32(n: nat): nat {
    n % (U32_MAX + 1)
  }

  /** A row that belongs to one topic. */
  predicate IsTopicRow(line: Line, ty: Option<string>) {
    line.Record? && line.ty == ty && line.chat.Some? && line.thread.Some?
  }

  function KeyOf(line: Line): ChannelKey
    requires line.Record? && line.chat.Some? && line.thread.Some?
  {
    ChannelKey(ChatId(line.chat.value), line.thread.value)
  }

  function LoadSession(m: map<ChannelKey, string>, line: Line): map<ChannelKey, string> {
    if IsTopicRow(line, MAP_TYPE) && line.session.Some? then m[KeyOf(line) := line.session.value] else m
  }

  /** The grant of a row; without a TTL marker it has the legacy window, without a mark it is not explicit. */
  function GrantOf(line: Line): Grant
    requires line.Record? && line.enabledAt.Some?
  {
    Grant(line.enabledAt.value,
          if line.ttl.Some? then line.ttl.value else YOLO_LEGACY_TTL_SECS,
          line.explicit == Some(true))
  }

  function LoadGrant(m: map<ChannelKey, Grant>, line: Line, now: int): map<ChannelKey, Grant> {
    if IsTopicRow(line, YOLO_TYPE) && line.enabledAt.Some? && Active(GrantOf(line), now)
    then m[KeyOf(line) := GrantOf(line)]
    else m
  }

  function ChatRowOf(line: Line): ChatRow
    requires line.Record?
  {
    ChatRow(if line.count.Some? then ToU32(line.count.value) else 0, line.permanent == Some(true), None)
  }

  function LoadChat(m: map<ChatId, ChatRow>, line: Line): map<ChatId, ChatRow> {
    if line.Record? && line.ty == CHAT_TYPE && line.chat.Some? then m[ChatId(line.chat.value) := ChatRowOf(line)] else m
  }

  function LoadAllow(m: map<ChannelKey, set<string>>, line: Line): map<ChannelKey, set<string>> {
    if IsTopicRow(line, ALLOW_TYPE) && line.tool.Some?
    then m[KeyOf(line) := (if KeyOf(line) in m then m[KeyOf(line)] else {}) + {line.tool.value}]
    else m
  }

  /** The effect of one line. */
  function LoadLine(s: Tables, line: Line, now: int): Tables {
    Tables(LoadSession(s.sessions, line), LoadGrant(s.yolo, line, now),
           LoadChat(s.chats, line), LoadAllow(s.allow, line))
  }

  function Load(lines: seq<Line>, now: int): Tables {
    if lines == [] then EMPTY else LoadLine(Load(lines[..|lines| - 1], now), lines[|lines| - 1], now)
  }

  // ---------------------------------------------------------------- writing

  /** The line is one that `flush` writes for these tables. */
  ghost predicate IsLineOf(s: Tables, line: Line) {
    || (exists key :: key in s.sessions && line == SessionLine(key, s.sessions[key]))
    || (exists key :: key in s.yolo && line == GrantLine(key, s.yolo[key]))
    || (exists chat :: chat in s.chats && line == ChatLine(chat, s.chats[chat]))
    || (exists key, tool :: key in s.allow && tool in s.allow[key] && line == AllowLine(key, tool))
  }

  /** The lines list exactly the tables, in whatever order the hash maps were iterated. */
  ghost predicate IsSnapshot(lines: seq<Line>, s: Tables) {
    && (forall i :: 0 <= i < |lines| ==> IsLineOf(s, lines[i]))
    && (forall key :: key in s.sessions ==> SessionLine(key, s.sessions[key]) in lines)
    && (forall key :: key in s.yolo ==> GrantLine(key, s.yolo[key]) in lines)
    && (forall chat :: chat in s.chats ==> ChatLine(chat, s.chats[chat]) in lines)
    && (forall key, tool :: key in s.allow && tool in s.allow[key] ==> AllowLine(key, tool) in lines)
  }

  // ---------------------------------------------------------------- restart

  /** What a restart at time `now` keeps: everything but expired grants and the dedup memory. */
  function Restarted(s: Tables, now: int): Tables {
    Tables(
      s.sessions,
      map key | key in s.yolo && Active(s.yolo[key], now) :: s.yolo[key],
      map chat | chat in s.chats :: s.chats[chat].(lastCall := None),
      s.allow)
  }

  // Each table: what has been read is in the restarted table, and what is in a line read has been read.

  ghost predicate SessionsCovered(lines: seq<Line>, s: Tables, m: map<ChannelKey, string>) {
    && (forall key :: key in m ==> key in s.sessions && m[key] == s.sessions[key])
    && (forall key :: key in s.sessions && SessionLine(key, s.sessions[key]) in lines ==> key in m)
  }

  ghost predicate GrantsCovered(lines: seq<Line>, s: Tables, now: int, m: map<ChannelKey, Grant>) {
    && (forall key :: key in m ==> key in s.yolo && m[key] == s.yolo[key] && Active(m[key], now))
    && (forall key :: key in s.yolo && Active(s.yolo[key], now) && GrantLine(key, s.yolo[key]) in lines ==> key in m)
  }

  ghost predicate ChatsCovered(lines: seq<Line>, s: Tables, m: map<ChatId, ChatRow>) {
    && (forall chat :: chat in m ==> chat in s.chats && m[chat] == s.chats[chat].(lastCall := None))
    && (forall chat :: chat in s.chats && ChatLine(chat, s.chats[chat]) in lines ==> chat in m)
  }

  ghost predicate AllowCovered(lines: seq<Line>, s: Tables, m: map<ChannelKey, set<string>>) {
    && (forall key :: key in m ==> key in s.allow && m[key] <= s.allow[key])
    && (forall key, tool :: key in s.allow && tool in s.allow[key] && AllowLine(key, tool) in lines ==>
          key in m && tool in m[key])
  }

  lemma {:induction false} LoadCovers(lines: seq<Line>, s: Tables, now: int)
    requires Storable(s)
    requires forall i :: 0 <= i < |lines| ==> IsLineOf(s, lines[i])
    ensures var t := Load(lines, now);
      && SessionsCovered(lines, s, t.sessions) && GrantsCovered(lines, s, now, t.yolo)
      && ChatsCovered(lines, s, t.chats) && AllowCovered(lines, s, t.allow)
  {
    if lines == [] {
    } else {
      var n := |lines| - 1;
      var before, line := lines[..n], lines[n];
      LoadCovers(before, s, now);
      assert lines == before + [line];
      var t := Load(before, now);
      SessionLineCovered(before, line, s, t.sessions);
      GrantLineCovered(before, line, s, now, t.yolo);
      ChatLineCovered(before, line, s, t.chats);
      AllowLineCovered(before, line, s, t.allow);
    }
  }

  lemma SessionLineCovered(lines: seq<Line>, line: Line, s: Tables, m: map<ChannelKey, string>)
    requires IsLineOf(s, line) && SessionsCovered(lines, s, m)
    ensures SessionsCovered(lines + [line], s, LoadSession(m, line))
  {
  }

  lemma GrantLineCovered(lines: seq<Line>, line: Line, s: Tables, now: int, m: map<ChannelKey, Grant>)
    requires IsLineOf(s, line) && GrantsCovered(lines, s, now, m)
    ensures GrantsCovered(lines + [line], s, now, LoadGrant(m, line, now))
  {
    if IsTopicRow(line, YOLO_TYPE) {
      var key :| key in s.yolo && line == GrantLine(key, s.yolo[key]);
      assert KeyOf(line) == key && GrantOf(line) == s.yolo[key];
    }
  }

  lemma ChatLineCovered(lines: seq<Line>, line: Line, s: Tables, m: map<ChatId, ChatRow>)
    requires Storable(s) && IsLineOf(s, line) && ChatsCovered(lines, s, m)
    ensures ChatsCovered(lines + [line], s, LoadChat(m, line))
  {
    if line.ty == CHAT_TYPE {
      var chat :| chat in s.chats && line == ChatLine(chat, s.chats[chat]);
      assert ToU32(s.chats[chat].count) == s.chats[chat].count;
    }
  }

  lemma AllowLineCovered(lines: seq<Line>, line: Line, s: Tables, m: map<ChannelKey, set<string>>)
    requires IsLineOf(s, line) && AllowCovered(lines, s, m)
    ensures AllowCovered(lines + [line], s, LoadAllow(m, line))
  {
  }

  /** Flush, then open: exactly the unexpired part of the tables comes back. */
  lemma ReopeningRestores(lines: seq<Line>, s: Tables, now: int)
    requires Storable(s) && IsSnapshot(lines, s)
    ensures Load(lines, now) == Restarted(s, now)
  {
    LoadCovers(lines, s, now);
    var t := Load(lines, now);
    CoveredTablesAreRestarted(lines, s, now, t);
  }

  lemma CoveredTablesAreRestarted(lines: seq<Line>, s: Tables, now: int, t: Tables)
    requires IsSnapshot(lines, s)
    requires SessionsCovered(lines, s, t.sessions) && GrantsCovered(lines, s, now, t.yolo)
    requires ChatsCovered(lines, s, t.chats)
    requires t.allow.Keys <= s.allow.Keys && forall key :: key in s.allow ==> key in t.allow && t.allow[key] == s.allow[key]
    ensures t == Restarted(s, now)
  {
    CoveredGrants(lines, s, now, t.yolo);
    CoveredChats(lines, s, now, t.chats);
    assert t.allow == s.allow;
  }

  lemma CoveredGrants(lines: seq<Line>, s: Tables, now: int, m: map<ChannelKey, Grant>)
    requires GrantsCovered(lines, s, now, m)
    requires forall key :: key in s.yolo ==> GrantLine(key, s.yolo[key]) in lines
    ensures m == Restarted(s, now).yolo
  {
  }

  lemma CoveredChats(lines: seq<Line>, s: Tables, now: int, m: map<ChatId, ChatRow>)
    requires ChatsCovered(lines, s, m)
    requires forall chat :: chat in s.chats ==> ChatLine(chat, s.chats[chat]) in lines
    ensures m == Restarted(s, now).chats
  {
  }

  /** Whatever a file holds, what is loaded from it can be stored again. */
  lemma {:induction false} LoadIsStorable(lines: seq<Line>, now: int)
    ensures Storable(Load(lines, now))
  {
    if lines == [] {
    } else {
      LoadIsStorable(lines[..|lines| - 1], now);
    }
  }

  lemma RestartKeepsConsistent(s: Tables, now: int)
    requires Consistent(s)
    ensures Consistent(Restarted(s, now))
  {
  }

  /** A row that gives `key` a grant still inside its window. */
  predicate Admitted(line: Line, key: ChannelKey, now: int) {
    IsTopicRow(line, YOLO_TYPE) && KeyOf(line) == key && line.enabledAt.Some? && Active(GrantOf(line), now)
  }

  ghost predicate LastAdmitted(lines: seq<Line>, key: ChannelKey, now: int, i: nat) {
    i < |lines| && Admitted(lines[i], key, now) && forall j :: i < j < |lines| ==> !Admitted(lines[j], key, now)
  }

  /** Of any file a topic gets exactly the grant of its last admitted row, if it has one. */
  lemma {:induction false} LastAdmittedRowIsRead(lines: seq<Line>, key: ChannelKey, now: int)
    ensures key in Load(lines, now).yolo <==> exists i: nat :: LastAdmitted(lines, key, now, i)
    ensures forall i: nat :: LastAdmitted(lines, key, now, i) ==>
      key in Load(lines, now).yolo && Load(lines, now).yolo[key] == GrantOf(lines[i])
  {
    if lines == [] {
    } else {
      var n := |lines| - 1;
      LastAdmittedRowIsRead(lines[..n], key, now);
      if Admitted(lines[n], key, now) {
        assert LastAdmitted(lines, key, now, n);
      } else {
        forall i: nat
          ensures LastAdmitted(lines, key, now, i) <==> LastAdmitted(lines[..n], key, now, i)
        {
        }
      }
    }
  }

  predicate IsSessionRow(line: Line, key: ChannelKey) {
    IsTopicRow(line, MAP_TYPE) && KeyOf(line) == key && line.session.Some?
  }

  predicate IsChatRow(line: Line, chat: ChatId) {
    line.Record? && line.ty == CHAT_TYPE && line.chat == Some(chat.id)
  }

  predicate IsAllowRow(line: Line, key: ChannelKey, tool: string) {
    IsTopicRow(line, ALLOW_TYPE) && KeyOf(line) == key && line.tool == Some(tool)
  }

  /** The session of the topic's last row. */
  function LastSession(lines: seq<Line>, key: ChannelKey): Option<string> {
    if lines == [] then None
    else if IsSessionRow(lines[|lines| - 1], key) then lines[|lines| - 1].session
    else LastSession(lines[..|lines| - 1], key)
  }

  /** What the chat's last row says: its count in 32 bits, 0 when missing, and its permanent mark. */
  function LastChatRow(lines: seq<Line>, chat: ChatId): Option<ChatRow> {
    if lines == [] then None
    else
      var last := lines[|lines| - 1];
      if IsChatRow(last, chat) then
        Some(ChatRow(if last.count.Some? then last.count.value % 4_294_967_296 else 0, last.permanent == Some(true), None))
      else LastChatRow(lines[..|lines| - 1], chat)
  }

  /** Of any file a topic gets the session of its last row, a chat what its last row says. */
  lemma {:induction false} LastRowsAreRead(lines: seq<Line>, key: ChannelKey, chat: ChatId, now: int)
    ensures var s := Load(lines, now);
      && LastSession(lines, key) == (if key in s.sessions then Some(s.sessions[key]) else None)
      && LastChatRow(lines, chat) == (if chat in s.chats then Some(s.chats[chat]) else None)
  {
    if lines == [] {
    } else {
      LastRowsAreRead(lines[..|lines| - 1], key, chat, now);
    }
  }

  /** Of any file a topic gets all the tools of its rows. */
  lemma {:induction false} AllToolsAreRead(lines: seq<Line>, key: ChannelKey, tool: string, now: int)
    ensures tool in AllowedOf(Load(lines, now), key) <==> exists i :: 0 <= i < |lines| && IsAllowRow(lines[i], key, tool)
  {
    if lines == [] {
    } else {
      var n := |lines| - 1;
      AllToolsAreRead(lines[..n], key, tool, now);
      assert forall i :: 0 <= i < n ==> lines[..n][i] == lines[i];
    }
  }

  /**
   A grant row without a TTL marker is admitted only inside the legacy window and
   keeps that window; one without an `explicit` marker gives no explicit grant.
   */
  lemma LegacyRowsKeepLegacyWindow(lines: seq<Line>, key: ChannelKey, now: int, i: nat)
    requires LastAdmitted(lines, key, now, i)
    ensures var s := Load(lines, now);
      && key in s.yolo && s.yolo[key].enabledAt == lines[i].enabledAt.value
      && (lines[i].ttl.None? ==>
            s.yolo[key].ttl == 259_200 && now < s.yolo[key].enabledAt + 259_200)
      && (lines[i].explicit.None? ==> !s.yolo[key].explicit)
  {
    LastAdmittedRowIsRead(lines, key, now);
  }

  /** Whatever the file holds, no grant is read that is outside the window the file gives it. */
  lemma {:induction false} OnlyActiveGrantsAreRead(lines: seq<Line>, now: int)
    ensures forall key :: key in Load(lines, now).yolo ==> Active(Load(lines, now).yolo[key], now)
  {
    if lines == [] {
    } else {
      OnlyActiveGrantsAreRead(lines[..|lines| - 1], now);
    }
  }
}
