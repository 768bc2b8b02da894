/**
 The inbound coalescer: a debounced buffer per key with timers that can be
 aborted. `InboundCoalescer` is the object that the submitting side and the timer tasks
 share; the machine below it adds the scheduler (which timer wakes when) and a history of what
 was submitted. The results hold for every interleaving of submits, wake-ups, takes and flushes.
 */
module Coalescer {
  import opened Options

  const MAX_ITEMS: nat := 16

  datatype InboundKey =
    | Album(chat: int, group: string)
    | Text(chat: int, thread: Option<int>, sender: nat, replyTo: Option<int>)

  /** A message is identified by its update number; what else it holds does not matter here. */
  type Message = nat

  datatype Buffer = Buffer(msgs: seq<Message>, dropped: nat, timer: nat)

  /** `Taken` is a timer whose flush has started, `Flushed` one whose flush has ended. */
  datatype Status = Sleeping | Awake | Aborted | Taken | Flushed

  datatype Timer = Timer(key: InboundKey, deadline: int, status: Status)

  datatype Batch = Batch(msgs: seq<Message>, dropped: nat)

  /** The buffers by key, and every timer task ever spawned, in order. */
  datatype Shared = Shared(inner: map<InboundKey, Buffer>, timers: seq<Timer>)

  datatype Decision = Solo | Buffered

  function SetStatus(timers: seq<Timer>, t: nat, status: Status): seq<Timer>
    requires t < |timers|
  {
    timers[t := timers[t].(status := status)]
  }

  /** What aborting a timer task does: it cancels the task wherever it is, in its flush too, unless it has ended. */
  function AbortTimer(timers: seq<Timer>, t: nat): seq<Timer>
    requires t < |timers|
  {
    if timers[t].status.Flushed? then timers else SetStatus(timers, t, Aborted)
  }

  /** A buffer holds a timer that exists. */
  predicate Wired(s: Shared) {
    forall k :: k in s.inner ==> s.inner[k].timer < |s.timers|
  }

  function Appended(b: Buffer, msg: Message): Buffer {
    if |b.msgs| >= MAX_ITEMS then b.(dropped := b.dropped + 1) else b.(msgs := b.msgs + [msg])
  }

  /** Submitting a message under a key at time `now` with a debounce that is not zero. */
  function SubmitEffect(s: Shared, key: InboundKey, msg: Message, now: int, debounce: nat): Shared
    requires Wired(s)
  {
    var before := if key in s.inner then Appended(s.inner[key], msg) else Buffer([msg], 0, 0);
    var timers := if key in s.inner then AbortTimer(s.timers, s.inner[key].timer) else s.timers;
    Shared(s.inner[key := before.(timer := |s.timers|)], timers + [Timer(key, now + debounce, Sleeping)])
  }

  /** An awake timer takes whatever is buffered under its key. */
  function TakeEffect(s: Shared, t: nat): Shared
    requires t < |s.timers|
  {
    var key := s.timers[t].key;
    if key in s.inner then Shared(s.inner - {key}, SetStatus(s.timers, t, Taken))
    else s.(timers := SetStatus(s.timers, t, Flushed))
  }

  class InboundCoalescer {
    var inner: map<InboundKey, Buffer>
    var timers: seq<Timer>

    function Contents(): Shared
      reads this
    {
      Shared(inner, timers)
    }

    constructor ()
      ensures Contents() == Shared(map[], [])
    {
      inner, timers := map[], [];
    }

    /** `submit_keyed`: a zero debounce hands the message straight back. */
    method SubmitKeyed(msg: Message, key: InboundKey, now: int, debounce: nat) returns (d: Decision)
      requires Wired(Contents())
      modifies this
      ensures d == if debounce == 0 then Solo else Buffered
      ensures Contents() == if debounce == 0 then old(Contents()) else SubmitEffect(old(Contents()), key, msg, now, debounce)
    {
      if debounce == 0 {
        return Solo;
      }
      var state: Buffer;
      var armed := key in inner;
      if armed {
        state := inner[key];
      } else {
        state := Buffer([], 0, 0);
      }
      if |state.msgs| >= MAX_ITEMS {
        state := state.(dropped := state.dropped + 1);
      } else {
        assert [] + [msg] == [msg];
        state := state.(msgs := state.msgs + [msg]);
      }
      if armed {
        timers := AbortTimer(timers, state.timer);
      }
      state := state.(timer := |timers|);
      timers := timers + [Timer(key, now + debounce, Sleeping)];
      inner := inner[key := state];
      return Buffered;
    }

    /** `submit_album`: a message outside an album is not buffered. */
    method SubmitAlbum(msg: Message, chat: int, group: Option<string>, now: int, debounce: nat) returns (d: Decision)
      requires Wired(Contents())
      modifies this
      ensures d == if group.None? || debounce == 0 then Solo else Buffered
      ensures Contents() ==
        if d.Solo? then old(Contents())
        else SubmitEffect(old(Contents()), Album(chat, group.value), msg, now, debounce)
    {
      if group.None? {
        return Solo;
      }
      d := SubmitKeyed(msg, Album(chat, group.value), now, debounce);
    }

    /** The timer task after its sleep: the batch to flush, or nothing if its buffer is gone. */
    method TakeBatch(t: nat) returns (batch: Option<Batch>)
      requires t < |timers|
      modifies this
      ensures Contents() == TakeEffect(old(Contents()), t)
      ensures batch == if old(timers)[t].key !in old(inner) then None
                       else Some(Batch(old(inner)[old(timers)[t].key].msgs, old(inner)[old(timers)[t].key].dropped))
    {
      var key := timers[t].key;
      if key !in inner {
        timers := SetStatus(timers, t, Flushed);
        return None;
      }
      var state := inner[key];
      inner := inner - {key};
      timers := SetStatus(timers, t, Taken);
      return Some(Batch(state.msgs, state.dropped));
    }
  }

  // ---------------------------------------------------------------- the machine

  /** A buffered submit: what, when, and for how long it asks to wait. */
  datatype Submission = Submission(key: InboundKey, msg: Message, at: int, debounce: nat)

  /** A batch handed to a flush, with the timer that took it, when, and all it stands for. */
  datatype Delivery = Delivery(key: InboundKey, timer: nat, at: int, batch: Batch, parts: seq<Submission>)

  /** `pending` are the submissions that a buffer stands for; `clock` is the latest time seen. */
  datatype Machine = Machine(
    shared: Shared, clock: int,
    submitted: seq<Submission>, pending: map<InboundKey, seq<Submission>>, deliveries: seq<Delivery>)

  datatype Event =
    | Submit(key: InboundKey, msg: Message, debounce: nat)
    | Wake(t: nat)
    | Take(t: nat)
    | EndFlush(t: nat)
    | Tick(seconds: nat)

  const START: Machine := Machine(Shared(map[], []), 0, [], map[], [])

  predicate Enabled(m: Machine, e: Event) {
    var timers := m.shared.timers;
    match e
    case Submit(_, _, _) => true
    case Wake(t) => t < |timers| && timers[t].status.Sleeping? && timers[t].deadline <= m.clock
    case Take(t) => t < |timers| && timers[t].status.Awake?
    case EndFlush(t) => t < |timers| && timers[t].status.Taken?
    case Tick(_) => true
  }

  function Pending(m: Machine, key: InboundKey): seq<Submission> {
    if key in m.pending then m.pending[key] else []
  }

  function Step(m: Machine, e: Event): Machine
    requires Wired(m.shared) && Enabled(m, e)
  {
    var s := m.shared;
    match e
    case Submit(key, msg, debounce) =>
      if debounce == 0 then m
      else
        var sub := Submission(key, msg, m.clock, debounce);
        m.(shared := SubmitEffect(s, key, msg, m.clock, debounce),
           submitted := m.submitted + [sub], pending := m.pending[key := Pending(m, key) + [sub]])
    case Wake(t) => m.(shared := s.(timers := SetStatus(s.timers, t, Awake)))
    case Take(t) =>
      var key := s.timers[t].key;
      if key !in s.inner then m.(shared := TakeEffect(s, t))
      else m.(shared := TakeEffect(s, t), pending := m.pending - {key},
              deliveries := m.deliveries +
                [Delivery(key, t, m.clock, Batch(s.inner[key].msgs, s.inner[key].dropped), Pending(m, key))])
    case EndFlush(t) => m.(shared := s.(timers := SetStatus(s.timers, t, Flushed)))
    case Tick(seconds) => m.(clock := m.clock + seconds)
  }

  ghost function Run(events: seq<Event>): (m: Machine)
    ensures Wired(m.shared)
  {
    if events == [] then START
    else
      var before, e := Run(events[..|events| - 1]), events[|events| - 1];
      if Enabled(before, e) then Step(before, e) else before
  }

  // ---------------------------------------------------------------- invariant

  function MessagesOf(parts: seq<Submission>): (r: seq<Message>)
    ensures |r| == |parts| && forall i :: 0 <= i < |parts| ==> r[i] == parts[i].msg
  {
    if parts == [] then [] else MessagesOf(parts[..|parts| - 1]) + [parts[|parts| - 1].msg]
  }

  /** The messages kept are the first sixteen, and the rest is counted as dropped. */
  predicate StandsFor(msgs: seq<Message>, dropped: nat, parts: seq<Submission>) {
    && parts != []
    && msgs == MessagesOf(parts)[..if |parts| <= 16 then |parts| else 16]
    && dropped == |parts| - |msgs|
  }

  predicate Live(t: Timer) {
    t.status.Sleeping? || t.status.Awake?
  }

  predicate TookItsBatch(t: Timer) {
    t.status.Taken? || t.status.Flushed?
  }

  function Last(parts: seq<Submission>): Submission
    requires parts != []
  {
    parts[|parts| - 1]
  }

  /** A buffer stands for its pending submissions, and its timer is due a debounce after the last of them. */
  predicate BufferInv(m: Machine, key: InboundKey)
    requires key in m.shared.inner
  {
    var b := m.shared.inner[key];
    && StandsFor(b.msgs, b.dropped, Pending(m, key))
    && b.timer < |m.shared.timers|
    && m.shared.timers[b.timer].key == key
    && Live(m.shared.timers[b.timer])
    && m.shared.timers[b.timer].deadline == Last(Pending(m, key)).at + Last(Pending(m, key)).debounce
  }

  /** Every live timer is the timer of the buffer under its key. */
  predicate TimerInv(m: Machine, t: nat)
    requires t < |m.shared.timers|
  {
    var timer := m.shared.timers[t];
    && (Live(timer) ==> timer.key in m.shared.inner && m.shared.inner[timer.key].timer == t)
    && (timer.status.Awake? ==> timer.deadline <= m.clock)
  }

  predicate DeliveryInv(m: Machine, d: Delivery) {
    && StandsFor(d.batch.msgs, d.batch.dropped, d.parts)
    && d.timer < |m.shared.timers|
    && TookItsBatch(m.shared.timers[d.timer])
    && Last(d.parts).at + Last(d.parts).debounce <= d.at <= m.clock
  }

  function SubmittedTo(submitted: seq<Submission>, key: InboundKey): seq<Submission> {
    if submitted == [] then []
    else
      SubmittedTo(submitted[..|submitted| - 1], key)
      + (if Last(submitted).key == key then [Last(submitted)] else [])
  }

  function DeliveredTo(deliveries: seq<Delivery>, key: InboundKey): seq<Submission> {
    if deliveries == [] then []
    else
      DeliveredTo(deliveries[..|deliveries| - 1], key)
      + (if deliveries[|deliveries| - 1].key == key then deliveries[|deliveries| - 1].parts else [])
  }

  ghost predicate BuffersInv(m: Machine) {
    m.pending.Keys == m.shared.inner.Keys && forall key :: key in m.shared.inner ==> BufferInv(m, key)
  }

  ghost predicate TimersInv(m: Machine) {
    forall t :: 0 <= t < |m.shared.timers| ==> TimerInv(m, t)
  }

  ghost predicate DeliveriesInv(m: Machine) {
    && (forall i :: 0 <= i < |m.deliveries| ==> DeliveryInv(m, m.deliveries[i]))
    && DistinctTimers(m.deliveries)
  }

  ghost predicate DistinctTimers(ds: seq<Delivery>) {
    forall i, j :: 0 <= i < j < |ds| ==> ds[i].timer != ds[j].timer
  }

  /** Per key, what was delivered and then what is pending is what was submitted, in order. */
  ghost predicate Conserved(m: Machine) {
    forall key :: DeliveredTo(m.deliveries, key) + Pending(m, key) == SubmittedTo(m.submitted, key)
  }

  ghost predicate Inv(m: Machine) {
    BuffersInv(m) && TimersInv(m) && DeliveriesInv(m) && Conserved(m)
  }

  lemma AppendedStandsFor(b: Buffer, parts: seq<Submission>, sub: Submission)
    requires StandsFor(b.msgs, b.dropped, parts)
    ensures var c := Appended(b, sub.msg); StandsFor(c.msgs, c.dropped, parts + [sub])
  {
    assert (parts + [sub])[..|parts|] == parts;
    assert MessagesOf(parts + [sub]) == MessagesOf(parts) + [sub.msg];
  }

  lemma FirstStandsFor(sub: Submission)
    ensures StandsFor([sub.msg], 0, [sub])
  {
    assert MessagesOf([sub]) == [sub.msg];
  }

  // One lemma per part of the invariant and event that matters to it.

  lemma SubmitKeepsBuffers(m: Machine, key: InboundKey, msg: Message, debounce: nat)
    requires Wired(m.shared) && BuffersInv(m) && debounce > 0
    ensures BuffersInv(Step(m, Submit(key, msg, debounce)))
  {
    var n := Step(m, Submit(key, msg, debounce));
    SubmitKeepsKeys(m, key, msg, debounce);
    assert key in m.pending <==> key in m.shared.inner;
    forall k | k in n.shared.inner
      ensures BufferInv(n, k)
    {
      if k == key {
        SubmittedBuffer(m, key, msg, debounce);
      } else {
        OtherBufferKept(m, key, msg, debounce, k);
      }
    }
  }

  lemma SubmitKeepsKeys(m: Machine, key: InboundKey, msg: Message, debounce: nat)
    requires Wired(m.shared) && debounce > 0
    requires m.pending.Keys == m.shared.inner.Keys
    ensures var n := Step(m, Submit(key, msg, debounce));
      n.pending.Keys == n.shared.inner.Keys == m.shared.inner.Keys + {key}
  {
  }

  lemma SubmittedBuffer(m: Machine, key: InboundKey, msg: Message, debounce: nat)
    requires Wired(m.shared) && debounce > 0
    requires key in m.pending <==> key in m.shared.inner
    requires key in m.shared.inner ==> BufferInv(m, key)
    ensures BufferInv(Step(m, Submit(key, msg, debounce)), key)
  {
    var sub := Submission(key, msg, m.clock, debounce);
    if key in m.shared.inner {
      AppendedStandsFor(m.shared.inner[key], Pending(m, key), sub);
    } else {
      FirstStandsFor(sub);
      assert Pending(m, key) + [sub] == [sub];
    }
  }

  lemma OtherBufferKept(m: Machine, key: InboundKey, msg: Message, debounce: nat, k: InboundKey)
    requires Wired(m.shared) && debounce > 0 && k != key && k in m.shared.inner && BufferInv(m, k)
    requires key in m.shared.inner ==> BufferInv(m, key)
    ensures BufferInv(Step(m, Submit(key, msg, debounce)), k)
  {
    var n := Step(m, Submit(key, msg, debounce));
    assert Pending(n, k) == Pending(m, k) && n.shared.inner[k] == m.shared.inner[k];
    var t := m.shared.inner[k].timer;
    assert n.shared.timers[t] == m.shared.timers[t];
  }

  /** A submit spawns one timer and touches at most the one that the key's buffer holds. */
  lemma TimersAfterSubmit(s: Shared, key: InboundKey, msg: Message, now: int, debounce: nat, t: nat)
    requires Wired(s) && t < |s.timers|
    ensures var n := SubmitEffect(s, key, msg, now, debounce);
      && |n.timers| == |s.timers| + 1
      && n.timers[|s.timers|] == Timer(key, now + debounce, Sleeping)
      && (key in s.inner && s.inner[key].timer == t ==> n.timers[t] == AbortTimer(s.timers, t)[t])
      && (key !in s.inner || s.inner[key].timer != t ==> n.timers[t] == s.timers[t])
  {
  }

  /** After a submit the old timer of the key is dead, and every other timer is as it was. */
  lemma OldTimerAfterSubmit(m: Machine, key: InboundKey, msg: Message, debounce: nat, t: nat)
    requires Wired(m.shared) && debounce > 0 && t < |m.shared.timers| && TimerInv(m, t)
    requires key in m.shared.inner ==> BufferInv(m, key)
    ensures var n := Step(m, Submit(key, msg, debounce)); t < |n.shared.timers| && TimerInv(n, t)
  {
    TimersAfterSubmit(m.shared, key, msg, m.clock, debounce, t);
  }

  lemma NewTimerAfterSubmit(m: Machine, key: InboundKey, msg: Message, debounce: nat)
    requires Wired(m.shared) && debounce > 0
    ensures var n := Step(m, Submit(key, msg, debounce));
      |n.shared.timers| == |m.shared.timers| + 1 && TimerInv(n, |m.shared.timers|)
  {
  }

  lemma SubmitKeepsTimers(m: Machine, key: InboundKey, msg: Message, debounce: nat)
    requires Wired(m.shared) && BuffersInv(m) && TimersInv(m) && debounce > 0
    ensures TimersInv(Step(m, Submit(key, msg, debounce)))
  {
    NewTimerAfterSubmit(m, key, msg, debounce);
    forall t | 0 <= t < |m.shared.timers|
      ensures TimerInv(Step(m, Submit(key, msg, debounce)), t)
    {
      assert TimerInv(m, t);
      OldTimerAfterSubmit(m, key, msg, debounce, t);
    }
  }

  /** No buffer holds a timer that has taken a batch: taking removes the handle together with the buffer. */
  lemma TakenTimersAreNotHeld(m: Machine, key: InboundKey, t: nat)
    requires BuffersInv(m) && key in m.shared.inner && t < |m.shared.timers|
    requires TookItsBatch(m.shared.timers[t])
    ensures m.shared.inner[key].timer != t
  {
    assert BufferInv(m, key);
  }

  lemma SubmitLeavesTakenTimersAlone(m: Machine, key: InboundKey, msg: Message, debounce: nat, t: nat)
    requires Wired(m.shared) && BuffersInv(m) && debounce > 0 && t < |m.shared.timers|
    requires TookItsBatch(m.shared.timers[t])
    ensures var n := Step(m, Submit(key, msg, debounce));
      t < |n.shared.timers| && n.shared.timers[t] == m.shared.timers[t]
  {
    TimersAfterSubmit(m.shared, key, msg, m.clock, debounce, t);
    if key in m.shared.inner {
      TakenTimersAreNotHeld(m, key, t);
    }
  }

  /** No event touches a timer that has taken its batch, except that its flush ends. */
  lemma TakenTimersAreLeftAlone(m: Machine, e: Event, t: nat)
    requires Wired(m.shared) && BuffersInv(m) && Enabled(m, e) && t < |m.shared.timers|
    requires TookItsBatch(m.shared.timers[t])
    ensures var n := Step(m, e);
      && t < |n.shared.timers|
      && TookItsBatch(n.shared.timers[t])
      && (n.shared.timers[t] == m.shared.timers[t] || e == EndFlush(t))
  {
    if !e.Submit? {
      QuietStepOnTaken(m, e, t);
    } else if e.debounce > 0 {
      SubmitLeavesTakenTimersAlone(m, e.key, e.msg, e.debounce, t);
    }
  }

  lemma QuietStepOnTaken(m: Machine, e: Event, t: nat)
    requires Wired(m.shared) && Enabled(m, e) && !e.Submit? && t < |m.shared.timers| && TookItsBatch(m.shared.timers[t])
    ensures var n := Step(m, e);
      && t < |n.shared.timers| && TookItsBatch(n.shared.timers[t])
      && (n.shared.timers[t] == m.shared.timers[t] || e == EndFlush(t))
  {
  }

  lemma StepKeepsOldDeliveries(m: Machine, e: Event)
    requires Wired(m.shared) && BuffersInv(m) && Enabled(m, e) && DeliveriesInv(m)
    ensures forall i :: 0 <= i < |m.deliveries| ==> DeliveryInv(Step(m, e), m.deliveries[i])
  {
    forall i | 0 <= i < |m.deliveries|
      ensures DeliveryInv(Step(m, e), m.deliveries[i])
    {
      assert DeliveryInv(m, m.deliveries[i]);
      TakenTimersAreLeftAlone(m, e, m.deliveries[i].timer);
    }
  }

  lemma SubmitConserves(m: Machine, key: InboundKey, msg: Message, debounce: nat)
    requires Wired(m.shared) && Conserved(m) && debounce > 0
    ensures Conserved(Step(m, Submit(key, msg, debounce)))
  {
    var n := Step(m, Submit(key, msg, debounce));
    assert n.submitted[..|m.submitted|] == m.submitted;
    forall k
      ensures DeliveredTo(n.deliveries, k) + Pending(n, k) == SubmittedTo(n.submitted, k)
    {
      assert DeliveredTo(m.deliveries, k) + Pending(m, k) == SubmittedTo(m.submitted, k);
    }
  }

  lemma TakeKeepsBuffers(m: Machine, t: nat)
    requires Wired(m.shared) && BuffersInv(m) && TimersInv(m) && Enabled(m, Take(t))
    ensures BuffersInv(Step(m, Take(t)))
  {
    var n := Step(m, Take(t));
    assert TimerInv(m, t);
    forall k | k in n.shared.inner
      ensures BufferInv(n, k)
    {
      assert BufferInv(m, k);
      assert Pending(n, k) == Pending(m, k);
      assert m.shared.inner[k].timer != t;
    }
  }

  lemma TakeKeepsTimers(m: Machine, t: nat)
    requires Wired(m.shared) && TimersInv(m) && Enabled(m, Take(t))
    ensures TimersInv(Step(m, Take(t)))
  {
    var n := Step(m, Take(t));
    assert TimerInv(m, t);
    forall u | 0 <= u < |n.shared.timers|
      ensures TimerInv(n, u)
    {
      assert TimerInv(m, u);
    }
  }

  /** The batch that a timer takes is delivered as the invariant describes. */
  lemma TakenBatchIsDelivered(m: Machine, t: nat)
    requires Wired(m.shared) && BuffersInv(m) && TimersInv(m) && Enabled(m, Take(t))
    ensures var n, k := Step(m, Take(t)), |m.deliveries|;
      && |n.deliveries| == k + 1 && n.deliveries[..k] == m.deliveries
      && n.deliveries[k].timer == t && DeliveryInv(n, n.deliveries[k])
  {
    assert TimerInv(m, t);
    assert BufferInv(m, m.shared.timers[t].key);
  }

  /** A timer that is still awake has delivered nothing. */
  lemma AwakeHasNotDelivered(m: Machine, t: nat, i: nat)
    requires DeliveriesInv(m) && t < |m.shared.timers| && m.shared.timers[t].status.Awake? && i < |m.deliveries|
    ensures m.deliveries[i].timer != t
  {
    assert DeliveryInv(m, m.deliveries[i]);
  }

  lemma TakeKeepsDeliveries(m: Machine, t: nat)
    requires Wired(m.shared) && BuffersInv(m) && TimersInv(m) && DeliveriesInv(m) && Enabled(m, Take(t))
    ensures DeliveriesInv(Step(m, Take(t)))
  {
    var ds := Step(m, Take(t)).deliveries;
    StepKeepsOldDeliveries(m, Take(t));
    TakenBatchIsDelivered(m, t);
    assert ds == m.deliveries + [ds[|m.deliveries|]];
    forall i | 0 <= i < |m.deliveries|
      ensures m.deliveries[i].timer != t
    {
      AwakeHasNotDelivered(m, t, i);
    }
    DistinctAppended(m.deliveries, ds[|m.deliveries|]);
  }

  lemma DistinctAppended(ds: seq<Delivery>, d: Delivery)
    requires DistinctTimers(ds) && forall i :: 0 <= i < |ds| ==> ds[i].timer != d.timer
    ensures DistinctTimers(ds + [d])
  {
  }

  lemma TakeConserves(m: Machine, t: nat)
    requires Wired(m.shared) && Conserved(m) && Enabled(m, Take(t))
    requires m.shared.timers[t].key in m.shared.inner
    ensures Conserved(Step(m, Take(t)))
  {
    var n := Step(m, Take(t));
    assert n.deliveries[..|m.deliveries|] == m.deliveries;
    forall k
      ensures DeliveredTo(n.deliveries, k) + Pending(n, k) == SubmittedTo(n.submitted, k)
    {
      assert DeliveredTo(m.deliveries, k) + Pending(m, k) == SubmittedTo(m.submitted, k);
    }
  }

  lemma OtherStepsKeepInv(m: Machine, e: Event)
    requires Wired(m.shared) && Inv(m) && Enabled(m, e) && (e.Wake? || e.EndFlush? || e.Tick?)
    ensures Inv(Step(m, e))
  {
    StepKeepsOldDeliveries(m, e);
    OtherStepsConserve(m, e);
    forall k | k in m.shared.inner
      ensures BufferInv(Step(m, e), k)
    {
      OtherStepKeepsBuffer(m, e, k);
    }
    forall u | 0 <= u < |m.shared.timers|
      ensures TimerInv(Step(m, e), u)
    {
      OtherStepKeepsTimer(m, e, u);
    }
  }

  lemma OtherStepsConserve(m: Machine, e: Event)
    requires Wired(m.shared) && Conserved(m) && Enabled(m, e) && (e.Wake? || e.EndFlush? || e.Tick?)
    ensures Conserved(Step(m, e))
    ensures Step(m, e).shared.inner == m.shared.inner && Step(m, e).pending == m.pending
    ensures Step(m, e).deliveries == m.deliveries && |Step(m, e).shared.timers| == |m.shared.timers|
  {
    forall k
      ensures DeliveredTo(m.deliveries, k) + Pending(Step(m, e), k) == SubmittedTo(m.submitted, k)
    {
      assert DeliveredTo(m.deliveries, k) + Pending(m, k) == SubmittedTo(m.submitted, k);
    }
  }

  lemma OtherStepKeepsBuffer(m: Machine, e: Event, k: InboundKey)
    requires Wired(m.shared) && BuffersInv(m) && Enabled(m, e) && (e.Wake? || e.EndFlush? || e.Tick?)
    requires k in m.shared.inner
    ensures BufferInv(Step(m, e), k)
  {
    assert BufferInv(m, k) && Pending(Step(m, e), k) == Pending(m, k);
    LiveTimerStaysLive(m, e, m.shared.inner[k].timer);
  }

  /** Waking timers, ending flushes and the clock leave a live timer live. */
  lemma LiveTimerStaysLive(m: Machine, e: Event, t: nat)
    requires Wired(m.shared) && Enabled(m, e) && (e.Wake? || e.EndFlush? || e.Tick?)
    requires t < |m.shared.timers| && Live(m.shared.timers[t])
    ensures var before, after := m.shared.timers, Step(m, e).shared.timers;
      |after| == |before| && Live(after[t]) && after[t].key == before[t].key && after[t].deadline == before[t].deadline
  {
  }

  lemma OtherStepKeepsTimer(m: Machine, e: Event, u: nat)
    requires Wired(m.shared) && TimersInv(m) && Enabled(m, e) && (e.Wake? || e.EndFlush? || e.Tick?)
    requires u < |m.shared.timers|
    ensures TimerInv(Step(m, e), u)
  {
    assert TimerInv(m, u);
  }

  lemma StepKeepsInv(m: Machine, e: Event)
    requires Wired(m.shared) && Inv(m) && Enabled(m, e)
    ensures Inv(Step(m, e))
  {
    if e.Submit? && e.debounce > 0 {
      SubmitKeepsBuffers(m, e.key, e.msg, e.debounce);
      SubmitKeepsTimers(m, e.key, e.msg, e.debounce);
      StepKeepsOldDeliveries(m, e);
      SubmitConserves(m, e.key, e.msg, e.debounce);
    } else if e.Take? {
      TakeKeepsBuffers(m, e.t);
      TakeKeepsTimers(m, e.t);
      TakeKeepsDeliveries(m, e.t);
      assert TimerInv(m, e.t);
      TakeConserves(m, e.t);
    } else if !e.Submit? {
      OtherStepsKeepInv(m, e);
    }
  }

  lemma {:induction false} RunKeepsInv(events: seq<Event>)
    ensures Inv(Run(events))
  {
    if events == [] {
    } else {
      RunKeepsInv(events[..|events| - 1]);
      if Enabled(Run(events[..|events| - 1]), events[|events| - 1]) {
        StepKeepsInv(Run(events[..|events| - 1]), events[|events| - 1]);
      }
    }
  }

  // ---------------------------------------------------------------- results

  /**
   Each submitted message is in exactly one place. Per key the submissions, in order, are
   those of the batches delivered so far followed by those of the buffer; a batch or buffer keeps the
   first sixteen of its submissions and counts the others as dropped.
   */
  lemma EverySubmissionIsInOnePlace(events: seq<Event>, key: InboundKey)
    ensures var m := Run(events);
      && DeliveredTo(m.deliveries, key) + Pending(m, key) == SubmittedTo(m.submitted, key)
      && (key in m.shared.inner ==> StandsFor(m.shared.inner[key].msgs, m.shared.inner[key].dropped, Pending(m, key)))
      && (key !in m.shared.inner ==> Pending(m, key) == [])
      && forall i :: 0 <= i < |m.deliveries| ==>
           StandsFor(m.deliveries[i].batch.msgs, m.deliveries[i].batch.dropped, m.deliveries[i].parts)
  {
    RunKeepsInv(events);
    var m := Run(events);
    assert key in m.shared.inner ==> BufferInv(m, key);
    forall i | 0 <= i < |m.deliveries|
      ensures StandsFor(m.deliveries[i].batch.msgs, m.deliveries[i].batch.dropped, m.deliveries[i].parts)
    {
      assert DeliveryInv(m, m.deliveries[i]);
    }
  }

  /** Never empty, never larger than the cap, and something is dropped only from a full one. */
  predicate Bounded(msgs: seq<Message>, dropped: nat) {
    1 <= |msgs| <= 16 && (dropped > 0 ==> |msgs| == 16)
  }

  predicate BoundedBatch(d: Delivery) {
    Bounded(d.batch.msgs, d.batch.dropped) && |d.batch.msgs| + d.batch.dropped == |d.parts|
  }

  predicate BoundedBuffer(b: Buffer, parts: seq<Submission>) {
    Bounded(b.msgs, b.dropped) && |b.msgs| + b.dropped == |parts|
  }

  /** In every interleaving each batch delivered and each buffer is bounded and accounts for all its submissions. */
  lemma BatchesAreBounded(events: seq<Event>)
    ensures var m := Run(events);
      && (forall i :: 0 <= i < |m.deliveries| ==> BoundedBatch(m.deliveries[i]))
      && (forall key :: key in m.shared.inner ==> BoundedBuffer(m.shared.inner[key], Pending(m, key)))
  {
    RunKeepsInv(events);
    var m := Run(events);
    forall i | 0 <= i < |m.deliveries|
      ensures BoundedBatch(m.deliveries[i])
    {
      assert DeliveryInv(m, m.deliveries[i]);
    }
    forall key | key in m.shared.inner
      ensures BoundedBuffer(m.shared.inner[key], Pending(m, key))
    {
      assert BufferInv(m, key);
    }
  }

  predicate IsLiveTimerOf(s: Shared, t: nat, key: InboundKey) {
    t < |s.timers| && Live(s.timers[t]) && s.timers[t].key == key
  }

  /** A key is buffered exactly if it has a live timer, and then it has exactly one. */
  lemma OneLiveTimerPerBufferedKey(events: seq<Event>, key: InboundKey)
    ensures var s := Run(events).shared;
      && (key in s.inner <==> exists t :: IsLiveTimerOf(s, t, key))
      && forall t, u :: IsLiveTimerOf(s, t, key) && IsLiveTimerOf(s, u, key) ==> t == u
  {
    RunKeepsInv(events);
    var m := Run(events);
    forall t | IsLiveTimerOf(m.shared, t, key)
      ensures key in m.shared.inner && m.shared.inner[key].timer == t
    {
      assert TimerInv(m, t);
    }
    if key in m.shared.inner {
      assert BufferInv(m, key);
      assert IsLiveTimerOf(m.shared, m.shared.inner[key].timer, key);
    }
  }

  /** The run over one event more of a continuation. */
  lemma RunOneMore(events: seq<Event>, rest: seq<Event>, k: nat)
    requires 0 < k <= |rest|
    ensures var before := Run(events + rest[..k - 1]);
      Run(events + rest[..k]) == if Enabled(before, rest[k - 1]) then Step(before, rest[k - 1]) else before
  {
    assert events + rest[..k] == events + rest[..k - 1] + [rest[k - 1]];
    RunAppended(events + rest[..k - 1], rest[k - 1]);
  }

  lemma RunAppended(events: seq<Event>, e: Event)
    ensures Run(events + [e]) == if Enabled(Run(events), e) then Step(Run(events), e) else Run(events)
  {
    assert (events + [e])[..|events|] == events;
  }

  /**
   A timer that has taken its batch is never aborted, whatever happens afterwards, although aborting it would
   cancel its flush: no later submit finds its handle.
   */
  lemma {:induction false} TakenTimersAreNeverAborted(events: seq<Event>, more: seq<Event>, t: nat)
    requires t < |Run(events).shared.timers| && TookItsBatch(Run(events).shared.timers[t])
    ensures t < |Run(events + more).shared.timers| && TookItsBatch(Run(events + more).shared.timers[t])
  {
    if more == [] {
      assert events + more == events;
    } else {
      var n := |more| - 1;
      TakenTimersAreNeverAborted(events, more[..n], t);
      RunKeepsInv(events + more[..n]);
      RunOneMore(events, more, n + 1);
      assert more[..n + 1] == more;
      var before := Run(events + more[..n]);
      if Enabled(before, more[n]) {
        TakenTimersAreLeftAlone(before, more[n], t);
      }
    }
  }

  /** An awake timer always finds its buffer: no flush is lost because a buffer is gone. */
  lemma AwakeTimerFindsItsBatch(events: seq<Event>, t: nat)
    requires Enabled(Run(events), Take(t))
    ensures Run(events).shared.timers[t].key in Run(events).shared.inner
  {
    RunKeepsInv(events);
    assert TimerInv(Run(events), t);
  }

  /** A batch is delivered only after its key was quiet for the debounce of its last submission. */
  lemma DeliveredAfterQuiet(events: seq<Event>, i: nat)
    requires i < |Run(events).deliveries|
    ensures var d := Run(events).deliveries[i];
      d.parts != [] && Last(d.parts).at + Last(d.parts).debounce <= d.at
  {
    RunKeepsInv(events);
    assert DeliveryInv(Run(events), Run(events).deliveries[i]);
  }

  // ---------------------------------------------------------------- every submission is delivered

  /** An event that submits nothing lets timers only go on: none is added, none wakes late, none comes back to life. */
  lemma QuietStep(m: Machine, e: Event, t: nat)
    requires Wired(m.shared) && Enabled(m, e) && !e.Submit? && t < |m.shared.timers|
    ensures var n := Step(m, e); var before, after := m.shared.timers[t], n.shared.timers[t];
      && |n.shared.timers| == |m.shared.timers| && n.clock >= m.clock && after.deadline == before.deadline
      && (after.status.Sleeping? ==> before.status.Sleeping? && e != Wake(t))
      && (Live(after) ==> Live(before) && e != Take(t))
  {
  }

  /** A quiet continuation: no submits, and every timer is first woken and then allowed to take its batch. */
  predicate Serves(rest: seq<Event>, n: nat) {
    && (forall i :: 0 <= i < |rest| ==> !rest[i].Submit?)
    && (forall t: nat :: t < n ==> ServesTimer(rest, t))
  }

  predicate ServesTimer(rest: seq<Event>, t: nat) {
    exists i, j :: 0 <= i < j < |rest| && rest[i] == Wake(t) && rest[j] == Take(t)
  }

  /** For every submission its debounce has passed. */
  predicate AllQuiet(m: Machine) {
    forall i :: 0 <= i < |m.submitted| ==> m.submitted[i].at + m.submitted[i].debounce <= m.clock
  }

  /** All deadlines have passed. */
  predicate AllDue(m: Machine) {
    forall t :: 0 <= t < |m.shared.timers| ==> m.shared.timers[t].deadline <= m.clock
  }

  /** Every timer is due a debounce after a submission. */
  ghost predicate DeadlinesInv(m: Machine) {
    forall t :: 0 <= t < |m.shared.timers| ==> DueAfterSubmission(m, m.shared.timers[t].deadline)
  }

  ghost predicate DueAfterSubmission(m: Machine, deadline: int) {
    exists i :: 0 <= i < |m.submitted| && m.submitted[i].at + m.submitted[i].debounce == deadline
  }

  lemma DueStaysDue(m: Machine, n: Machine, deadline: int)
    requires DueAfterSubmission(m, deadline) && m.submitted <= n.submitted
    ensures DueAfterSubmission(n, deadline)
  {
    var i :| 0 <= i < |m.submitted| && m.submitted[i].at + m.submitted[i].debounce == deadline;
    assert n.submitted[i] == m.submitted[i];
  }

  /** A step arms at most one timer, for the submission it makes. */
  lemma StepArms(m: Machine, e: Event, t: nat)
    requires Wired(m.shared) && Enabled(m, e) && t < |Step(m, e).shared.timers|
    ensures var n := Step(m, e);
      && m.submitted <= n.submitted
      && if t < |m.shared.timers| then n.shared.timers[t].deadline == m.shared.timers[t].deadline
         else n.submitted != [] && n.shared.timers[t].deadline == Last(n.submitted).at + Last(n.submitted).debounce
  {
  }

  lemma {:induction false} RunKeepsDeadlines(events: seq<Event>)
    ensures DeadlinesInv(Run(events))
  {
    if events != [] {
      var m, e := Run(events[..|events| - 1]), events[|events| - 1];
      RunKeepsDeadlines(events[..|events| - 1]);
      if Enabled(m, e) {
        var n := Step(m, e);
        forall t | 0 <= t < |n.shared.timers|
          ensures DueAfterSubmission(n, n.shared.timers[t].deadline)
        {
          StepArms(m, e, t);
          if t < |m.shared.timers| {
            DueStaysDue(m, n, m.shared.timers[t].deadline);
          }
        }
      }
    }
  }

  /** Once every debounce has passed, every timer is due. */
  lemma QuietIsDue(events: seq<Event>)
    requires AllQuiet(Run(events))
    ensures AllDue(Run(events))
  {
    RunKeepsDeadlines(events);
    var m := Run(events);
    forall t | 0 <= t < |m.shared.timers|
      ensures m.shared.timers[t].deadline <= m.clock
    {
      assert DueAfterSubmission(m, m.shared.timers[t].deadline);
    }
  }

  /** The run goes on from `m`. */
  ghost function RunOn(m: Machine, rest: seq<Event>): (n: Machine)
    requires Wired(m.shared)
    ensures Wired(n.shared)
  {
    if rest == [] then m
    else
      var before, e := RunOn(m, rest[..|rest| - 1]), rest[|rest| - 1];
      if Enabled(before, e) then Step(before, e) else before
  }

  lemma {:induction false} RunGoesOn(events: seq<Event>, rest: seq<Event>)
    ensures Run(events + rest) == RunOn(Run(events), rest)
  {
    if rest == [] {
      assert events + rest == events;
    } else {
      var n := |rest| - 1;
      RunGoesOn(events, rest[..n]);
      RunOneMore(events, rest, n + 1);
      assert rest[..n + 1] == rest;
    }
  }

  /** Where a due timer stands: awake or further after `i` events, and no longer live after `j`. */
  predicate Served(m: Machine, t: nat, woken: bool, took: bool) {
    && t < |m.shared.timers| && m.shared.timers[t].deadline <= m.clock
    && (woken ==> !m.shared.timers[t].status.Sleeping?)
    && (took ==> !Live(m.shared.timers[t]))
  }

  /** One event, if it can happen, keeps that and brings the timer on when it is the timer's own. */
  lemma ServedStep(m: Machine, e: Event, t: nat, woken: bool, took: bool)
    requires Wired(m.shared) && !e.Submit? && Served(m, t, woken, took)
    ensures Served(if Enabled(m, e) then Step(m, e) else m, t,
                   woken || e == Wake(t), took || (woken && e == Take(t)))
  {
    if Enabled(m, e) {
      QuietStep(m, e, t);
    }
  }

  lemma ServedNext(m: Machine, e: Event, t: nat, k: nat, i: nat, j: nat)
    requires Wired(m.shared) && !e.Submit? && 0 < k && i < j && Served(m, t, i < k - 1, j < k - 1)
    requires (k - 1 == i ==> e == Wake(t)) && (k - 1 == j ==> e == Take(t))
    ensures Served(if Enabled(m, e) then Step(m, e) else m, t, i < k, j < k)
  {
    ServedStep(m, e, t, i < k - 1, j < k - 1);
  }

  /** What `rest` has done to a timer that it wakes at `i` and lets take at `j`, so far as it goes. */
  lemma {:induction false} ServedTimer(m: Machine, rest: seq<Event>, t: nat, i: nat, j: nat)
    requires Wired(m.shared) && Served(m, t, false, false) && forall x :: 0 <= x < |rest| ==> !rest[x].Submit?
    requires i < j && (i < |rest| ==> rest[i] == Wake(t)) && (j < |rest| ==> rest[j] == Take(t))
    ensures Served(RunOn(m, rest), t, i < |rest|, j < |rest|)
  {
    if rest == [] {
    } else {
      var n := |rest| - 1;
      ServedTimer(m, rest[..n], t, i, j);
      ServedNext(RunOn(m, rest[..n]), rest[n], t, n + 1, i, j);
    }
  }

  /**
   Liveness: once the debounce of every submission has passed, any continuation without submits in which every timer is woken and
   then takes empties every buffer, so each submission ever made has been delivered, in order.
   */
  lemma EverySubmissionIsDelivered(events: seq<Event>, rest: seq<Event>, key: InboundKey)
    requires AllQuiet(Run(events)) && Serves(rest, |Run(events).shared.timers|)
    ensures var n := Run(events + rest);
      && key !in n.shared.inner
      && n.submitted == Run(events).submitted
      && DeliveredTo(n.deliveries, key) == SubmittedTo(n.submitted, key)
  {
    QuietIsDue(events);
    RunGoesOn(events, rest);
    NothingSubmitted(Run(events), rest);
    BufferIsTaken(events, rest, key);
    EverySubmissionIsInOnePlace(events + rest, key);
  }

  lemma ServedByAll(m: Machine, rest: seq<Event>, t: nat)
    requires Wired(m.shared) && AllDue(m) && Serves(rest, |m.shared.timers|) && t < |m.shared.timers|
    ensures t < |RunOn(m, rest).shared.timers| && !Live(RunOn(m, rest).shared.timers[t])
  {
    assert ServesTimer(rest, t);
    var i, j :| 0 <= i < j < |rest| && rest[i] == Wake(t) && rest[j] == Take(t);
    ServedTimer(m, rest, t, i, j);
  }

  lemma BufferIsTaken(events: seq<Event>, rest: seq<Event>, key: InboundKey)
    requires AllDue(Run(events)) && Serves(rest, |Run(events).shared.timers|)
    requires SameSubmissions(Run(events), Run(events + rest))
    ensures key !in Run(events + rest).shared.inner
  {
    var n := Run(events + rest);
    RunKeepsInv(events + rest);
    if key in n.shared.inner {
      assert BufferInv(n, key);
      RunGoesOn(events, rest);
      ServedByAll(Run(events), rest, n.shared.inner[key].timer);
      assert false;
    }
  }

  lemma {:induction false} NothingSubmitted(m: Machine, rest: seq<Event>)
    requires Wired(m.shared) && forall x :: 0 <= x < |rest| ==> !rest[x].Submit?
    ensures SameSubmissions(m, RunOn(m, rest))
  {
    if rest == [] {
    } else {
      var n := |rest| - 1;
      NothingSubmitted(m, rest[..n]);
      if Enabled(RunOn(m, rest[..n]), rest[n]) {
        QuietStepSubmitsNothing(RunOn(m, rest[..n]), rest[n]);
      }
    }
  }

  predicate SameSubmissions(m: Machine, n: Machine) {
    |n.shared.timers| == |m.shared.timers| && n.submitted == m.submitted
  }

  lemma QuietStepSubmitsNothing(m: Machine, e: Event)
    requires Wired(m.shared) && Enabled(m, e) && !e.Submit?
    ensures SameSubmissions(m, Step(m, e))
  {
  }
}
