/**
 The per-conversation lock registry, as a machine: any number of callers look a
 mutex up, register it when it is missing, try it, wait for it, hold it and drop it,
 in any interleaving. `RegistrySerializesEachConversation` is the result.
 */
module PerChatLocks {
  import opened FairRuns
  import opened Registries
  import opened Options

  datatype ChatThreadKey = ChatThreadKey(chat: int, thread: Option<int>)

  /** `Lookup` reads the registry, `Register` writes it, `Try` is `try_lock_owned`, `Wait` is `lock_owned`. */
  datatype Phase = Lookup | Register | Try(m: nat) | Wait(m: nat) | Holding(m: nat, waited: bool) | Dropped

  datatype Caller = Caller(key: ChatThreadKey, phase: Phase)

  datatype State = State(registry: map<ChatThreadKey, nat>, next: nat, callers: seq<Caller>)

  predicate Held(s: State, m: nat) {
    exists t :: 0 <= t < |s.callers| && s.callers[t].phase.Holding? && s.callers[t].phase.m == m
  }

  ghost predicate Enabled(s: State, t: nat) {
    t < |s.callers| && !s.callers[t].phase.Dropped? && (s.callers[t].phase.Wait? ==> !Held(s, s.callers[t].phase.m))
  }

  function MoveTo(s: State, t: nat, p: Phase): State
    requires t < |s.callers|
  {
    s.(callers := s.callers[t := s.callers[t].(phase := p)])
  }

  function Step(s: State, t: nat): State
    requires t < |s.callers|
  {
    var c := s.callers[t];
    match c.phase
    case Lookup => MoveTo(s, t, if c.key in s.registry then Try(s.registry[c.key]) else Register)
    case Register =>
      if c.key in s.registry then MoveTo(s, t, Try(s.registry[c.key]))
      else MoveTo(s.(registry := s.registry[c.key := s.next], next := s.next + 1), t, Try(s.next))
    case Try(m) => MoveTo(s, t, if Held(s, m) then Wait(m) else Holding(m, false))
    case Wait(m) => MoveTo(s, t, Holding(m, true))
    case Holding(_, _) => MoveTo(s, t, Dropped)
    case Dropped => s
  }

  ghost function Run(s: State, schedule: seq<nat>): State {
    if schedule == [] then s
    else
      var before, t := Run(s, schedule[..|schedule| - 1]), schedule[|schedule| - 1];
      if Enabled(before, t) then Step(before, t) else before
  }

  function Start(keys: seq<ChatThreadKey>): State {
    State(map[], 0, seq(|keys|, i requires 0 <= i < |keys| => Caller(keys[i], Lookup)))
  }

  // ---------------------------------------------------------------- invariant

  predicate HasMutex(p: Phase) {
    p.Try? || p.Wait? || p.Holding?
  }

  ghost predicate Inv(s: State) {
    OneMutexPerKey(s.registry, s.next) && OwnMutexes(s.registry, s.callers) && OneHolderEach(s.callers)
  }

  /** Callers use the registered mutex of their key. */
  ghost predicate OwnMutexes(registry: map<ChatThreadKey, nat>, callers: seq<Caller>) {
    forall t :: 0 <= t < |callers| && HasMutex(callers[t].phase) ==>
      callers[t].key in registry && registry[callers[t].key] == callers[t].phase.m
  }

  /** A mutex has at most one holder. */
  ghost predicate OneHolderEach(callers: seq<Caller>) {
    forall t, u :: 0 <= t < u < |callers| && BothHold(callers[t], callers[u]) ==>
      callers[t].phase.m != callers[u].phase.m
  }

  predicate BothHold(a: Caller, b: Caller) {
    a.phase.Holding? && b.phase.Holding?
  }

  lemma StepKeepsInv(s: State, t: nat)
    requires Inv(s) && Enabled(s, t)
    ensures Inv(Step(s, t))
    ensures Extends(Step(s, t).registry, s.registry)
  {
    StepKeepsRegistry(s, t);
    StepKeepsHolders(s, t);
  }

  lemma StepKeepsRegistry(s: State, t: nat)
    requires Inv(s) && Enabled(s, t)
    ensures OneMutexPerKey(Step(s, t).registry, Step(s, t).next) && OwnMutexes(Step(s, t).registry, Step(s, t).callers)
    ensures Extends(Step(s, t).registry, s.registry)
  {
  }

  lemma StepKeepsHolders(s: State, t: nat)
    requires Inv(s) && Enabled(s, t)
    ensures OneHolderEach(Step(s, t).callers)
  {
    var n := Step(s, t).callers;
    forall u, v | 0 <= u < v < |n| && BothHold(n[u], n[v])
      ensures n[u].phase.m != n[v].phase.m
    {
      if u != t && v != t {
        assert BothHold(s.callers[u], s.callers[v]);
      } else {
        assert s.callers[t].phase.Try? || s.callers[t].phase.Wait?;
        assert !Held(s, s.callers[t].phase.m);
        assert s.callers[if u == t then v else u].phase.Holding?;
      }
    }
  }

  lemma {:induction false} RunKeepsInv(s: State, schedule: seq<nat>)
    requires Inv(s)
    ensures Inv(Run(s, schedule))
    ensures Extends(Run(s, schedule).registry, s.registry)
  {
    if schedule == [] {
    } else {
      RunKeepsInv(s, schedule[..|schedule| - 1]);
      var before, t := Run(s, schedule[..|schedule| - 1]), schedule[|schedule| - 1];
      if Enabled(before, t) {
        StepKeepsInv(before, t);
      }
    }
  }

  /** A waiting caller is held up only by a holder of its own key, and that holder can go on. */
  lemma WaitingBehindOwnKey(s: State, t: nat) returns (u: nat)
    requires Inv(s) && t < |s.callers| && s.callers[t].phase.Wait? && !Enabled(s, t)
    ensures u < |s.callers| && s.callers[u].phase.Holding? && s.callers[u].key == s.callers[t].key && Enabled(s, u)
  {
    u :| 0 <= u < |s.callers| && s.callers[u].phase.Holding? && s.callers[u].phase.m == s.callers[t].phase.m;
  }

  lemma {:induction false} RunConcatenates(s: State, a: seq<nat>, b: seq<nat>)
    ensures Run(s, a + b) == Run(Run(s, a), b)
  {
    if b == [] {
      assert a + b == a;
    } else {
      assert (a + b)[..|a + b| - 1] == a + b[..|b| - 1];
      RunConcatenates(s, a, b[..|b| - 1]);
    }
  }

  /**
   In every interleaving of any callers: no two hold the lock of one conversation, a
   registered mutex is never replaced, and while a caller is not done one can go on.
   */
  lemma RegistrySerializesEachConversation(keys: seq<ChatThreadKey>, schedule: seq<nat>, more: seq<nat>)
    ensures var s, later := Run(Start(keys), schedule), Run(Start(keys), schedule + more);
      && (forall t, u :: 0 <= t < u < |s.callers| && BothHold(s.callers[t], s.callers[u]) ==>
            s.callers[t].key != s.callers[u].key)
      && Extends(later.registry, s.registry)
      && ((exists t :: 0 <= t < |s.callers| && !s.callers[t].phase.Dropped?) ==> exists t :: Enabled(s, t))
  {
    var s := Run(Start(keys), schedule);
    RunKeepsInv(Start(keys), schedule);
    RunConcatenates(Start(keys), schedule, more);
    RunKeepsInv(s, more);
    if t :| 0 <= t < |s.callers| && !s.callers[t].phase.Dropped? {
      if !Enabled(s, t) {
        var u := WaitingBehindOwnKey(s, t);
      }
    }
  }

  // ---------------------------------------------------------------- what the guard reports

  /** Some caller holds the lock of the conversation. */
  ghost predicate ConversationHeld(s: State, key: ChatThreadKey) {
    exists u :: 0 <= u < |s.callers| && s.callers[u].phase.Holding? && s.callers[u].key == key
  }

  lemma MutexIsItsConversation(s: State, t: nat)
    requires Inv(s) && t < |s.callers| && HasMutex(s.callers[t].phase)
    ensures Held(s, s.callers[t].phase.m) <==> ConversationHeld(s, s.callers[t].key)
  {
  }

  /** In step `i` the caller tried its mutex, when the conversation was held or not. */
  ghost predicate TriedAt(start: State, schedule: seq<nat>, i: nat, t: nat, busy: bool)
    requires i < |schedule|
  {
    var before := Run(start, schedule[..i]);
    && schedule[i] == t && Enabled(before, t) && before.callers[t].phase.Try?
    && busy == ConversationHeld(before, before.callers[t].key)
  }

  ghost predicate Tried(start: State, schedule: seq<nat>, t: nat, busy: bool) {
    exists i: nat :: i < |schedule| && TriedAt(start, schedule, i, t, busy)
  }

  /** A caller waits only if the lock was held when it tried, and its guard reports just that. */
  ghost predicate ReportsRight(start: State, schedule: seq<nat>, t: nat, p: Phase) {
    && (p.Wait? ==> Tried(start, schedule, t, true))
    && (p.Holding? ==> Tried(start, schedule, t, p.waited))
  }

  lemma TriedStays(start: State, schedule: seq<nat>, u: nat, t: nat, busy: bool)
    requires Tried(start, schedule, t, busy)
    ensures Tried(start, schedule + [u], t, busy)
  {
    var i: nat :| i < |schedule| && TriedAt(start, schedule, i, t, busy);
    assert (schedule + [u])[..i] == schedule[..i];
    assert TriedAt(start, schedule + [u], i, t, busy);
  }

  lemma ReportStaysRight(start: State, schedule: seq<nat>, u: nat, t: nat, p: Phase)
    requires ReportsRight(start, schedule, t, p)
    ensures ReportsRight(start, schedule + [u], t, p)
  {
    if p.Wait? {
      TriedStays(start, schedule, u, t, true);
    } else if p.Holding? {
      TriedStays(start, schedule, u, t, p.waited);
    }
  }

  lemma StepReportsRight(start: State, schedule: seq<nat>, t: nat)
    requires Inv(Run(start, schedule)) && Enabled(Run(start, schedule), t)
    requires ReportsRight(start, schedule, t, Run(start, schedule).callers[t].phase)
    ensures ReportsRight(start, schedule + [t], t, Step(Run(start, schedule), t).callers[t].phase)
  {
    var s := Run(start, schedule);
    assert (schedule + [t])[..|schedule|] == schedule;
    if s.callers[t].phase.Try? {
      MutexIsItsConversation(s, t);
      assert TriedAt(start, schedule + [t], |schedule|, t, Held(s, s.callers[t].phase.m));
    } else if s.callers[t].phase.Wait? {
      TriedStays(start, schedule, t, t, true);
    }
  }

  /** A guard reports that it waited exactly if another caller of the conversation held the lock when it was tried. */
  lemma {:induction false} GuardsReportRight(keys: seq<ChatThreadKey>, schedule: seq<nat>, t: nat)
    requires t < |keys|
    ensures |Run(Start(keys), schedule).callers| == |keys|
    ensures ReportsRight(Start(keys), schedule, t, Run(Start(keys), schedule).callers[t].phase)
  {
    if schedule != [] {
      var n := |schedule| - 1;
      var u, s := schedule[n], Run(Start(keys), schedule[..n]);
      GuardsReportRight(keys, schedule[..n], t);
      RunKeepsInv(Start(keys), schedule[..n]);
      assert schedule == schedule[..n] + [u];
      if Enabled(s, u) && u == t {
        StepReportsRight(Start(keys), schedule[..n], t);
      } else {
        ReportStaysRight(Start(keys), schedule[..n], u, t, s.callers[t].phase);
      }
    }
  }

  // ---------------------------------------------------------------- every caller is served

  /** The steps a caller still has to make. */
  function CallerWork(c: Caller): nat {
    match c.phase
    case Lookup => 5
    case Register => 4
    case Try(_) => 3
    case Wait(_) => 2
    case Holding(_, _) => 1
    case Dropped => 0
  }

  function CallerWorks(callers: seq<Caller>): seq<nat> {
    seq(|callers|, i requires 0 <= i < |callers| => CallerWork(callers[i]))
  }

  predicate AllDropped(s: State) {
    forall t :: 0 <= t < |s.callers| ==> s.callers[t].phase.Dropped?
  }

  lemma StepDoesWork(s: State, t: nat)
    requires Enabled(s, t)
    ensures |Step(s, t).callers| == |s.callers|
    ensures Total(CallerWorks(Step(s, t).callers)) < Total(CallerWorks(s.callers))
  {
    var n := Step(s, t).callers;
    assert n == s.callers[t := n[t]] && CallerWork(n[t]) < CallerWork(s.callers[t]);
    TotalAfterUpdate(CallerWorks(s.callers), t, CallerWork(n[t]));
    assert CallerWorks(n) == CallerWorks(s.callers)[t := CallerWork(n[t])];
  }

  /** Not blocked, or blocked by a holder that can go on. */
  lemma SomeoneCanGoOn(s: State, t: nat)
    requires t < |s.callers| && !s.callers[t].phase.Dropped?
    ensures exists u :: Enabled(s, u)
  {
    if Enabled(s, t) {
    } else {
      var u :| 0 <= u < |s.callers| && s.callers[u].phase.Holding? && s.callers[u].phase.m == s.callers[t].phase.m;
      assert Enabled(s, u);
    }
  }

  /** `n` callers as a system of agents. */
  ghost function Callers(n: nat): System<State, nat> {
    System((s: State, t: nat) => if Enabled(s, t) then Step(s, t) else s, t => t, n,
           (s: State) => |s.callers| == n, (s: State, t: nat) => Enabled(s, t),
           (s: State) => AllDropped(s), (s: State) => Total(CallerWorks(s.callers)))
  }

  lemma CallersProgress(n: nat)
    ensures Progresses(Callers(n))
  {
    var y := Callers(n);
    forall s: State, t: nat | y.inv(s)
      ensures StepGoesOn(y, s, t)
    {
      if Enabled(s, t) {
        StepDoesWork(s, t);
      }
    }
    forall s: State | y.inv(s)
      ensures NobodyStuck(y, s)
    {
      if t :| 0 <= t < |s.callers| && !s.callers[t].phase.Dropped? {
        SomeoneCanGoOn(s, t);
        var u :| Enabled(s, u);
        StepDoesWork(s, u);
        assert y.enabled(s, u);
      }
    }
  }

  lemma {:induction false} ScheduleIsRun(s: State, n: nat, schedule: seq<nat>)
    ensures Run(s, schedule) == FairRuns.Run(Callers(n), s, schedule)
  {
    if schedule == [] {
    } else {
      ScheduleIsRun(s, n, schedule[..|schedule| - 1]);
    }
  }

  /**
   Liveness: under any schedule that names every caller again and again, every caller is granted the lock of its
   conversation and has dropped it in the end.
   */
  lemma EveryCallerIsGranted(keys: seq<ChatThreadKey>, rounds: seq<seq<nat>>)
    requires |rounds| >= Total(CallerWorks(Start(keys).callers))
    requires forall i :: 0 <= i < |rounds| ==> forall t :: 0 <= t < |keys| ==> t in rounds[i]
    ensures AllDropped(Run(Start(keys), Flat(rounds)))
  {
    var y := Callers(|keys|);
    CallersProgress(|keys|);
    forall i | 0 <= i < |rounds|
      ensures IsRound(y, rounds[i])
    {
      forall t: nat | t < y.agents
        ensures Names(y, rounds[i], t)
      {
        assert t in rounds[i];
      }
    }
    FairRunsAreDone(y, Start(keys), rounds);
    ScheduleIsRun(Start(keys), |keys|, Flat(rounds));
  }
}
