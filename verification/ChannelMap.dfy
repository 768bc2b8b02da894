/**
 The channel map itself: the tables as fields, and the operations that update
 them. Each operation is proved against the accesses of `ChannelState`; `Flush` and
 `Open` against the snapshot and loading functions of `Snapshots`.
 */
module ChannelMap {
  import opened Options
  import opened ChannelState
  import opened Snapshots
  import opened YoloHistory

  /** An enable gives its topic thirty days and reaches other topics only by making the whole chat permanent. */
  lemma EnableStaysInItsTopic(s: Tables, chat: ChatId, thread: Option<int>, call: Option<string>, now: int)
    ensures var after := Step(s, Enable(MakeKey(chat, thread), call, now));
      && (forall later :: ReadsYoloAt(after, chat, thread, later) <==> IsPermanent(after, chat) || later < now + 2_592_000)
      && OtherTopicsKept(s, after, chat, thread)
  {
    var after := Step(s, Enable(MakeKey(chat, thread), call, now));
    forall c, t | !SameTopic(c, t, chat, thread)
      ensures TopicKept(s, after, c, t, chat)
    {
      KeysAreTopics(c, t, chat, thread);
    }
  }

  class ChannelSessionMap {
    var sessions: map<ChannelKey, string>
    var yolo: map<ChannelKey, Grant>
    var yoloChat: map<ChatId, ChatRow>
    var allowList: map<ChannelKey, set<string>>
    var snapshotPath: Option<string>

    function Contents(): Tables
      reads this
    {
      Tables(sessions, yolo, yoloChat, allowList)
    }

    constructor ()
      ensures Contents() == EMPTY && snapshotPath == None
    {
      sessions, yolo, yoloChat, allowList := map[], map[], map[], map[];
      snapshotPath := None;
    }

    /** `file` is the text of the snapshot, split into lines, or `None` when there is no file. */
    constructor Open(path: string, file: Option<seq<Line>>, now: int)
      ensures Contents() == Load(if file.Some? then file.value else [], now)
      ensures snapshotPath == Some(path)
    {
      sessions, yolo, yoloChat, allowList := map[], map[], map[], map[];
      snapshotPath := Some(path);
      new;
      if file.Some? {
        var lines := file.value;
        for i := 0 to |lines|
          invariant Contents() == Load(lines[..i], now)
          invariant snapshotPath == Some(path)
        {
          assert lines[..i + 1][..i] == lines[..i];
          ReadLine(lines[i], now);
        }
        assert lines[..|lines|] == lines;
      }
    }

    /** One iteration of the loop of `open`. */
    method ReadLine(line: Line, now: int)
      modifies this
      ensures Contents() == LoadLine(old(Contents()), line, now)
      ensures snapshotPath == old(snapshotPath)
    {
      if line.Blank? || line.Malformed? {
        return;
      }
      if line.ty == CHAT_TYPE {
        if line.chat.Some? {
          var count := if line.count.Some? then ToU32(line.count.value) else 0;
          var permanent := if line.permanent.Some? then line.permanent.value else false;
          yoloChat := yoloChat[ChatId(line.chat.value) := ChatRow(count, permanent, None)];
        }
        return;
      }
      if line.chat.None? || line.thread.None? || line.ty.None? {
        return;
      }
      var key := ChannelKey(ChatId(line.chat.value), line.thread.value);
      if line.ty == MAP_TYPE {
        if line.session.Some? {
          sessions := sessions[key := line.session.value];
        }
      } else if line.ty == YOLO_TYPE {
        if line.enabledAt.Some? {
          var ttl := if line.ttl.Some? then line.ttl.value else YOLO_LEGACY_TTL_SECS;
          var explicit := if line.explicit.Some? then line.explicit.value else false;
          if WithinTtl(line.enabledAt.value, ttl, now) {
            yolo := yolo[key := Grant(line.enabledAt.value, ttl, explicit)];
          }
        }
      } else if line.ty == ALLOW_TYPE {
        if line.tool.Some? {
          var tools := if key in allowList then allowList[key] else {};
          allowList := allowList[key := tools + {line.tool.value}];
        }
      }
    }

    /** The lines that replace the snapshot file; nothing is written for a map that is only in memory. */
    method Flush() returns (written: Option<seq<Line>>)
      ensures written.None? <==> snapshotPath.None?
      ensures written.Some? ==> IsSnapshot(written.value, Contents())
    {
      if snapshotPath.None? {
        return None;
      }
      var a := SessionLines();
      var b := GrantLines();
      var c := ChatLines();
      var d := AllowLines();
      var buf := a + b + c + d;
      forall i | 0 <= i < |buf|
        ensures IsLineOf(Contents(), buf[i])
      {
        assert buf[i] in a || buf[i] in b || buf[i] in c || buf[i] in d;
      }
      return Some(buf);
    }

    method SessionLines() returns (buf: seq<Line>)
      ensures forall line :: line in buf <==> exists key :: key in sessions && line == SessionLine(key, sessions[key])
    {
      buf := [];
      var todo := sessions.Keys;
      while todo != {}
        invariant todo <= sessions.Keys
        invariant forall line :: line in buf <==>
          exists key :: key in sessions && key !in todo && line == SessionLine(key, sessions[key])
        decreases todo
      {
        var key :| key in todo;
        buf := buf + [SessionLine(key, sessions[key])];
        todo := todo - {key};
      }
    }

    method GrantLines() returns (buf: seq<Line>)
      ensures forall line :: line in buf <==> exists key :: key in yolo && line == GrantLine(key, yolo[key])
    {
      buf := [];
      var todo := yolo.Keys;
      while todo != {}
        invariant todo <= yolo.Keys
        invariant forall line :: line in buf <==>
          exists key :: key in yolo && key !in todo && line == GrantLine(key, yolo[key])
        decreases todo
      {
        var key :| key in todo;
        buf := buf + [GrantLine(key, yolo[key])];
        todo := todo - {key};
      }
    }

    method ChatLines() returns (buf: seq<Line>)
      ensures forall line :: line in buf <==> exists chat :: chat in yoloChat && line == ChatLine(chat, yoloChat[chat])
    {
      buf := [];
      var todo := yoloChat.Keys;
      while todo != {}
        invariant todo <= yoloChat.Keys
        invariant forall line :: line in buf <==>
          exists chat :: chat in yoloChat && chat !in todo && line == ChatLine(chat, yoloChat[chat])
        decreases todo
      {
        var chat :| chat in todo;
        buf := buf + [ChatLine(chat, yoloChat[chat])];
        todo := todo - {chat};
      }
    }

    method AllowLines() returns (buf: seq<Line>)
      ensures forall line :: line in buf <==>
        exists key, tool :: key in allowList && tool in allowList[key] && line == AllowLine(key, tool)
    {
      buf := [];
      var todo := allowList.Keys;
      while todo != {}
        invariant todo <= allowList.Keys
        invariant forall line :: line in buf <==>
          exists key, tool :: key in allowList && key !in todo && tool in allowList[key] && line == AllowLine(key, tool)
        decreases todo
      {
        var key :| key in todo;
        var more := ToolLines(key, allowList[key]);
        buf := buf + more;
        todo := todo - {key};
      }
    }

    static method ToolLines(key: ChannelKey, tools: set<string>) returns (buf: seq<Line>)
      ensures forall line :: line in buf <==> exists tool :: tool in tools && line == AllowLine(key, tool)
    {
      buf := [];
      var todo := tools;
      while todo != {}
        invariant todo <= tools
        invariant forall line :: line in buf <==>
          exists tool :: tool in tools && tool !in todo && line == AllowLine(key, tool)
        decreases todo
      {
        var tool :| tool in todo;
        buf := buf + [AllowLine(key, tool)];
        todo := todo - {tool};
      }
    }

    method Get(chat: ChatId, thread: Option<int>) returns (id: Option<string>)
      ensures id == SessionAt(Contents(), chat, thread)
    {
      var key := MakeKey(chat, thread);
      id := if key in sessions then Some(sessions[key]) else None;
    }

    method Set(chat: ChatId, thread: Option<int>, id: string)
      modifies this`sessions
      ensures Contents() == Apply(old(Contents()), SetSession(MakeKey(chat, thread), id))
      ensures SessionAt(Contents(), chat, thread) == Some(id)
      ensures OtherTopicsKept(old(Contents()), Contents(), chat, thread)
    {
      sessions := sessions[MakeKey(chat, thread) := id];
    }

    method Remove(chat: ChatId, thread: Option<int>)
      modifies this`sessions
      ensures Contents() == Apply(old(Contents()), RemoveSession(MakeKey(chat, thread)))
      ensures SessionAt(Contents(), chat, thread) == None
      ensures OtherTopicsKept(old(Contents()), Contents(), chat, thread)
    {
      sessions := sessions - {MakeKey(chat, thread)};
    }

    /** Also forgets the topic's grant when it has expired. */
    method IsYolo(chat: ChatId, thread: Option<int>, now: int) returns (r: bool)
      modifies this`yolo
      ensures r == ReadsYolo(old(Contents()), MakeKey(chat, thread), now)
      ensures Contents() == Step(old(Contents()), Query(MakeKey(chat, thread), now))
      ensures OtherTopicsKept(old(Contents()), Contents(), chat, thread)
    {
      if chat in yoloChat && yoloChat[chat].permanent {
        return true;
      }
      var key := MakeKey(chat, thread);
      if key in yolo {
        if WithinTtl(yolo[key].enabledAt, yolo[key].ttl, now) {
          return true;
        }
        yolo := yolo - {key};
      }
      assert yolo - {key} == yolo;
      return false;
    }

    method SetTopicGrant(key: ChannelKey, explicit: bool, now: int)
      modifies this`yolo
      ensures Contents() == Apply(old(Contents()), SetGrant(key, now, explicit))
    {
      yolo := yolo[key := Grant(now, YOLO_TTL_SECS, explicit)];
    }

    /** The two accesses of an explicit enable; the result is what the toast is rendered from. */
    method EnableYolo(chat: ChatId, thread: Option<int>, dedup: Option<string>, now: int)
      returns (permanent: bool, count: nat)
      modifies this`yolo, this`yoloChat
      ensures Contents() == Step(old(Contents()), Enable(MakeKey(chat, thread), dedup, now))
      ensures forall later :: ReadsYoloAt(Contents(), chat, thread, later) <==>
        IsPermanent(Contents(), chat) || later < now + 2_592_000
      ensures OtherTopicsKept(old(Contents()), Contents(), chat, thread)
      ensures chat in yoloChat && count == yoloChat[chat].count && permanent == yoloChat[chat].permanent
    {
      var key := MakeKey(chat, thread);
      SetTopicGrant(key, true, now);
      var entry := if chat in yoloChat then yoloChat[chat] else ChatRow(0, false, None);
      var shouldCount: bool;
      match dedup {
        case Some(call) =>
          if entry.lastCall == Some(call) {
            shouldCount := false;
          } else {
            entry := entry.(lastCall := Some(call));
            shouldCount := true;
          }
        case None =>
          entry := entry.(lastCall := None);
          shouldCount := true;
      }
      if shouldCount {
        entry := entry.(count := if entry.count < U32_MAX then entry.count + 1 else U32_MAX);
        if entry.count >= YOLO_PERMANENT_AFTER {
          entry := entry.(permanent := true);
        }
      }
      yoloChat := yoloChat[chat := entry];
      EnableStaysInItsTopic(old(Contents()), chat, thread, dedup, now);
      return entry.permanent, entry.count;
    }

    method GrantTemporaryYolo(chat: ChatId, thread: Option<int>, now: int)
      modifies this`yolo
      ensures Contents() == Step(old(Contents()), GrantTemporary(MakeKey(chat, thread), now))
      ensures forall later :: ReadsYoloAt(Contents(), chat, thread, later) <==>
        IsPermanent(Contents(), chat) || later < now + 2_592_000
      ensures OtherTopicsKept(old(Contents()), Contents(), chat, thread)
    {
      SetTopicGrant(MakeKey(chat, thread), false, now);
    }

    /** Iterates the grants in any order. */
    method SeedMissingChatCounts()
      modifies this`yoloChat
      ensures Contents() == Step(old(Contents()), Seed)
    {
      ghost var was := yoloChat;
      var todo := yolo.Keys;
      while todo != {}
        invariant todo <= yolo.Keys
        invariant forall chat :: chat in was ==> chat in yoloChat && yoloChat[chat] == was[chat]
        invariant forall chat :: chat in yoloChat && chat !in was ==>
          yoloChat[chat] == SEEDED_ROW && chat in Unseeded(old(Contents()))
        invariant forall key :: key in yolo && key !in todo && yolo[key].explicit ==> key.chat in yoloChat
        decreases todo
      {
        var key :| key in todo;
        if yolo[key].explicit {
          if key.chat !in yoloChat {
            yoloChat := yoloChat[key.chat := ChatRow(1, false, None)];
          }
        }
        todo := todo - {key};
      }
      forall chat | chat in Unseeded(old(Contents()))
        ensures chat in yoloChat
      {
        var key :| key in yolo && yolo[key].explicit && key.chat == chat;
      }
      assert yoloChat == SeededChats(old(Contents()));
    }

    method ClearYoloChat(chat: ChatId)
      modifies this`yolo, this`yoloChat
      ensures Contents() == Step(old(Contents()), Clear(chat))
      ensures forall t, now :: !ReadsYoloAt(Contents(), chat, t, now)
      ensures forall c, t :: c != chat ==> TopicKept(old(Contents()), Contents(), c, t, chat)
    {
      yoloChat := yoloChat - {chat};
      yolo := map key | key in yolo && key.chat != chat :: yolo[key];
    }

    method EnableYoloAt(chat: ChatId, thread: Option<int>, enabledAt: int, ttl: int, now: int)
      modifies this`yolo
      ensures Contents() == Step(old(Contents()), Event.Restore(MakeKey(chat, thread), enabledAt, ttl, now))
      ensures OtherTopicsKept(old(Contents()), Contents(), chat, thread)
    {
      if WithinTtl(enabledAt, ttl, now) {
        yolo := yolo[MakeKey(chat, thread) := Grant(enabledAt, ttl, true)];
      }
    }

    method DisableYolo(chat: ChatId, thread: Option<int>)
      modifies this`yolo
      ensures Contents() == Step(old(Contents()), Disable(MakeKey(chat, thread)))
      ensures GrantAt(Contents(), chat, thread) == None
      ensures OtherTopicsKept(old(Contents()), Contents(), chat, thread)
    {
      yolo := yolo - {MakeKey(chat, thread)};
    }

    method AddAllowed(chat: ChatId, thread: Option<int>, tool: string) returns (added: bool)
      modifies this`allowList
      ensures Contents() == Apply(old(Contents()), AllowAdd(MakeKey(chat, thread), tool))
      ensures AllowedAt(Contents(), chat, thread) == AllowedAt(old(Contents()), chat, thread) + {tool}
      ensures added <==> tool !in AllowedAt(old(Contents()), chat, thread)
      ensures OtherTopicsKept(old(Contents()), Contents(), chat, thread)
    {
      var key := MakeKey(chat, thread);
      var tools := if key in allowList then allowList[key] else {};
      added := tool !in tools;
      allowList := allowList[key := tools + {tool}];
    }

    method RemoveAllowed(chat: ChatId, thread: Option<int>, tool: string) returns (removed: bool)
      modifies this`allowList
      ensures Contents() == Apply(old(Contents()), AllowRemove(MakeKey(chat, thread), tool))
      ensures AllowedAt(Contents(), chat, thread) == AllowedAt(old(Contents()), chat, thread) - {tool}
      ensures removed <==> tool in AllowedAt(old(Contents()), chat, thread)
      ensures OtherTopicsKept(old(Contents()), Contents(), chat, thread)
    {
      var key := MakeKey(chat, thread);
      if key !in allowList {
        return false;
      }
      var tools := allowList[key];
      removed := tool in tools;
      tools := tools - {tool};
      if tools == {} {
        allowList := allowList - {key};
      } else {
        allowList := allowList[key := tools];
      }
    }
  }

  /** A topic after a restart: session and tools as before, its grant if it still runs, and the same answers from then on. */
  ghost predicate TopicRestored(before: Tables, after: Tables, c: ChatId, t: Option<int>, now: int) {
    && SessionAt(after, c, t) == SessionAt(before, c, t)
    && AllowedAt(after, c, t) == AllowedAt(before, c, t)
    && forall later :: later >= now ==> (ReadsYoloAt(after, c, t, later) <==> ReadsYoloAt(before, c, t, later))
  }

  lemma RestartKeepsTopics(s: Tables, now: int)
    ensures forall c, t :: TopicRestored(s, Restarted(s, now), c, t, now)
  {
  }

  /**
   A restart: the map is flushed and the file opened again. Whatever order the
   lines were written in, exactly the unexpired part of the tables comes back.
   */
  method FlushAndReopen(m: ChannelSessionMap, now: int) returns (reopened: ChannelSessionMap)
    requires m.snapshotPath.Some? && Storable(m.Contents())
    ensures fresh(reopened) && reopened.snapshotPath == m.snapshotPath
    ensures reopened.Contents() == Step(m.Contents(), Event.Restart(now))
    ensures forall c, t :: TopicRestored(m.Contents(), reopened.Contents(), c, t, now)
  {
    var written := m.Flush();
    ReopeningRestores(written.value, m.Contents(), now);
    reopened := new ChannelSessionMap.Open(m.snapshotPath.value, written, now);
    RestartKeepsTopics(m.Contents(), now);
  }
}
