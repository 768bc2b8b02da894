/**
 `get_or_insert_with`, as a machine: any number of concurrent callers check the
 session table, fetch the mutex of their key, take it, check again, and create and
 store a session if there is still none. `CreatedAtMostOnce` is the result.
 */
module SessionCreation {
  import opened ChannelState
  import opened FairRuns
  import opened Registries

  /**
   `Check` is the first look-up; `FindLock` and `AddLock` read and write the registry; from
   `Recheck` to `Leave` the caller holds its mutex; `Create` runs the caller's closure.
   */
  datatype Phase =
    | Check | FindLock | AddLock | Wait(m: nat)
    | Recheck(m: nat) | Create(m: nat) | Store(m: nat, id: string) | Leave(m: nat, id: string)
    | Done(id: string)

  datatype Caller = Caller(key: ChannelKey, phase: Phase)

  /** `created` lists the keys for which a session was created. */
  datatype State = State(
    sessions: map<ChannelKey, string>, locks: map<ChannelKey, nat>, next: nat,
    callers: seq<Caller>, created: seq<ChannelKey>)

  predicate Holds(p: Phase) {
    p.Recheck? || p.Create? || p.Store? || p.Leave?
  }

  predicate Held(s: State, m: nat) {
    exists t :: 0 <= t < |s.callers| && Holds(s.callers[t].phase) && s.callers[t].phase.m == m
  }

  ghost predicate Enabled(s: State, t: nat) {
    t < |s.callers| && !s.callers[t].phase.Done? && (s.callers[t].phase.Wait? ==> !Held(s, s.callers[t].phase.m))
  }

  function MoveTo(s: State, t: nat, p: Phase): State
    requires t < |s.callers|
  {
    s.(callers := s.callers[t := s.callers[t].(phase := p)])
  }

  /** `newId` is the id that the closure returns, should this step run it. */
  function Step(s: State, t: nat, newId: string): State
    requires t < |s.callers|
  {
    var c := s.callers[t];
    match c.phase
    case Check => MoveTo(s, t, if c.key in s.sessions then Done(s.sessions[c.key]) else FindLock)
    case FindLock => MoveTo(s, t, if c.key in s.locks then Wait(s.locks[c.key]) else AddLock)
    case AddLock =>
      if c.key in s.locks then MoveTo(s, t, Wait(s.locks[c.key]))
      else MoveTo(s.(locks := s.locks[c.key := s.next], next := s.next + 1), t, Wait(s.next))
    case Wait(m) => MoveTo(s, t, Recheck(m))
    case Recheck(m) => MoveTo(s, t, if c.key in s.sessions then Leave(m, s.sessions[c.key]) else Create(m))
    case Create(m) => MoveTo(s.(created := s.created + [c.key]), t, Store(m, newId))
    case Store(m, id) => MoveTo(s.(sessions := s.sessions[c.key := id]), t, Leave(m, id))
    case Leave(_, id) => MoveTo(s, t, Done(id))
    case Done(_) => s
  }

  datatype Choice = Choice(t: nat, newId: string)

  ghost function Run(s: State, schedule: seq<Choice>): State {
    if schedule == [] then s
    else
      var before, c := Run(s, schedule[..|schedule| - 1]), schedule[|schedule| - 1];
      if Enabled(before, c.t) then Step(before, c.t, c.newId) else before
  }

  function Start(sessions: map<ChannelKey, string>, keys: seq<ChannelKey>): State {
    State(sessions, map[], 0, seq(|keys|, i requires 0 <= i < |keys| => Caller(keys[i], Check)), [])
  }

  // ---------------------------------------------------------------- invariant

  predicate HasLock(p: Phase) {
    p.Wait? || Holds(p)
  }

  ghost predicate LocksInv(s: State) {
    OneMutexPerKey(s.locks, s.next) && OwnLocks(s.locks, s.callers) && HoldersDiffer(s.callers)
  }

  /** Callers use the registered mutex of their key. */
  ghost predicate OwnLocks(locks: map<ChannelKey, nat>, callers: seq<Caller>) {
    forall t :: 0 <= t < |callers| && HasLock(callers[t].phase) ==>
      callers[t].key in locks && locks[callers[t].key] == callers[t].phase.m
  }

  /** No two callers hold the mutex of one key. */
  ghost predicate HoldersDiffer(callers: seq<Caller>) {
    forall t, u :: 0 <= t < |callers| && 0 <= u < |callers| && t != u && BothHold(callers[t], callers[u]) ==>
      callers[t].key != callers[u].key
  }

  predicate BothHold(a: Caller, b: Caller) {
    Holds(a.phase) && Holds(b.phase)
  }

  /** A caller is about to create, or to store what it created, only while there is no session. */
  ghost predicate SessionsInv(s: State) {
    forall t :: 0 <= t < |s.callers| ==>
      var c := s.callers[t];
      && (c.phase.Create? || c.phase.Store? ==> c.key !in s.sessions)
      && (c.phase.Leave? || c.phase.Done? ==> c.key in s.sessions && s.sessions[c.key] == c.phase.id)
  }

  ghost predicate Storing(s: State, k: ChannelKey) {
    exists t :: 0 <= t < |s.callers| && s.callers[t].phase.Store? && s.callers[t].key == k
  }

  /** A session was created for a key exactly if one is stored now that was not there, or is about to be. */
  ghost predicate CreatedInv(s: State, init: map<ChannelKey, string>) {
    && (forall k :: k in init ==> k in s.sessions && s.sessions[k] == init[k])
    && (forall k :: CreatedRight(s, init, k))
  }

  ghost predicate Inv(s: State, init: map<ChannelKey, string>) {
    LocksInv(s) && SessionsInv(s) && CreatedInv(s, init)
  }

  lemma StepKeepsLocks(s: State, t: nat, newId: string)
    requires LocksInv(s) && Enabled(s, t)
    ensures LocksInv(Step(s, t, newId))
  {
    StepKeepsRegistry(s, t, newId);
    StepKeepsHolders(s, t, newId);
  }

  lemma StepKeepsRegistry(s: State, t: nat, newId: string)
    requires LocksInv(s) && Enabled(s, t)
    ensures OneMutexPerKey(Step(s, t, newId).locks, Step(s, t, newId).next)
    ensures Extends(Step(s, t, newId).locks, s.locks)
  {
  }

  lemma StepKeepsHolders(s: State, t: nat, newId: string)
    requires LocksInv(s) && Enabled(s, t)
    ensures HoldersDiffer(Step(s, t, newId).callers)
  {
    var n := Step(s, t, newId).callers;
    forall u, v | 0 <= u < |n| && 0 <= v < |n| && u != v && BothHold(n[u], n[v])
      ensures n[u].key != n[v].key
    {
      if u != t && v != t {
        assert BothHold(s.callers[u], s.callers[v]);
      }
    }
  }

  lemma StepKeepsSessions(s: State, t: nat, newId: string)
    requires LocksInv(s) && SessionsInv(s) && Enabled(s, t)
    ensures SessionsInv(Step(s, t, newId))
    ensures forall k :: k in s.sessions ==> k in Step(s, t, newId).sessions && Step(s, t, newId).sessions[k] == s.sessions[k]
  {
    forall u | 0 <= u < |s.callers| && u != t && (s.callers[u].phase.Create? || s.callers[u].phase.Store?)
      ensures Holds(s.callers[t].phase) ==> s.callers[u].key != s.callers[t].key
    {
      assert Holds(s.callers[t].phase) ==> BothHold(s.callers[t], s.callers[u]);
    }
  }

  /** One session of `k` was created if one is stored that was not there at first, or is about to be; otherwise none. */
  ghost predicate CreatedRight(s: State, init: map<ChannelKey, string>, k: ChannelKey) {
    multiset(s.created)[k] == if (k in s.sessions && k !in init) || Storing(s, k) then 1 else 0
  }

  /** A step that neither creates nor stores leaves that as it is. */
  lemma OtherStepKeepsCreated(s: State, t: nat, newId: string, init: map<ChannelKey, string>, k: ChannelKey)
    requires Enabled(s, t) && CreatedRight(s, init, k)
    requires k != s.callers[t].key || !(s.callers[t].phase.Create? || s.callers[t].phase.Store?)
    ensures CreatedRight(Step(s, t, newId), init, k)
  {
    SameStoring(s, t, newId, k);
  }

  lemma CreatingKeepsCreated(s: State, t: nat, newId: string, init: map<ChannelKey, string>, k: ChannelKey)
    requires Inv(s, init) && Enabled(s, t) && CreatedRight(s, init, k)
    requires k == s.callers[t].key && (s.callers[t].phase.Create? || s.callers[t].phase.Store?)
    ensures CreatedRight(Step(s, t, newId), init, k)
  {
    if s.callers[t].phase.Create? {
      assert Step(s, t, newId).callers[t].phase.Store?;
      assert !Storing(s, k);
    } else {
      assert Storing(s, k);
    }
  }

  lemma StepKeepsCreated(s: State, t: nat, newId: string, init: map<ChannelKey, string>)
    requires Inv(s, init) && Enabled(s, t)
    ensures CreatedInv(Step(s, t, newId), init)
  {
    var n, c := Step(s, t, newId), s.callers[t];
    StepKeepsSessions(s, t, newId);
    forall k
      ensures CreatedRight(n, init, k)
    {
      assert CreatedRight(s, init, k);
      if k != c.key || !(c.phase.Create? || c.phase.Store?) {
        OtherStepKeepsCreated(s, t, newId, init, k);
      } else {
        CreatingKeepsCreated(s, t, newId, init, k);
      }
    }
  }

  lemma SameStoring(s: State, t: nat, newId: string, k: ChannelKey)
    requires Enabled(s, t) && (k != s.callers[t].key || !(s.callers[t].phase.Create? || s.callers[t].phase.Store?))
    ensures Storing(Step(s, t, newId), k) <==> Storing(s, k)
  {
    var n := Step(s, t, newId);
    if u :| 0 <= u < |s.callers| && s.callers[u].phase.Store? && s.callers[u].key == k {
      assert n.callers[u].phase.Store?;
    }
    if u :| 0 <= u < |n.callers| && n.callers[u].phase.Store? && n.callers[u].key == k {
      assert s.callers[u].phase.Store?;
    }
  }

  lemma {:induction false} RunKeepsInv(s: State, schedule: seq<Choice>, init: map<ChannelKey, string>)
    requires Inv(s, init)
    ensures Inv(Run(s, schedule), init)
  {
    if schedule == [] {
    } else {
      RunKeepsInv(s, schedule[..|schedule| - 1], init);
      var before, c := Run(s, schedule[..|schedule| - 1]), schedule[|schedule| - 1];
      if Enabled(before, c.t) {
        StepKeepsLocks(before, c.t, c.newId);
        StepKeepsSessions(before, c.t, c.newId);
        StepKeepsCreated(before, c.t, c.newId, init);
      }
    }
  }

  /** A mutex once registered for a key is never replaced. */
  lemma {:induction false} LocksAreNeverReplaced(s: State, schedule: seq<Choice>, init: map<ChannelKey, string>)
    requires Inv(s, init)
    ensures Extends(Run(s, schedule).locks, s.locks)
  {
    if schedule == [] {
    } else {
      LocksAreNeverReplaced(s, schedule[..|schedule| - 1], init);
      RunKeepsInv(s, schedule[..|schedule| - 1], init);
      var before, c := Run(s, schedule[..|schedule| - 1]), schedule[|schedule| - 1];
      if Enabled(before, c.t) {
        StepKeepsRegistry(before, c.t, c.newId);
      }
    }
  }

  /** While a caller is not done, one can go on: it itself, or the one that holds its mutex. */
  lemma SomeoneCanGoOn(s: State, t: nat)
    requires t < |s.callers| && !s.callers[t].phase.Done?
    ensures exists u :: Enabled(s, u)
  {
    if Enabled(s, t) {
    } else {
      var u :| 0 <= u < |s.callers| && Holds(s.callers[u].phase) && s.callers[u].phase.m == s.callers[t].phase.m;
      assert Enabled(s, u);
    }
  }

  lemma StartKeepsInv(sessions: map<ChannelKey, string>, keys: seq<ChannelKey>)
    ensures Inv(Start(sessions, keys), sessions)
  {
    forall k ensures !Storing(Start(sessions, keys), k) {}
  }

  lemma CreatedOnlyIfMissing(s: State, init: map<ChannelKey, string>, k: ChannelKey)
    requires Inv(s, init)
    ensures multiset(s.created)[k] <= if k in init then 0 else 1
  {
    assert CreatedRight(s, init, k);
    if k in init {
      assert k in s.sessions;
    }
  }

  /** Every caller that is done has returned the stored id of its key. */
  ghost predicate ReturnedStoredId(s: State) {
    forall t :: 0 <= t < |s.callers| && s.callers[t].phase.Done? ==>
      s.callers[t].key in s.sessions && s.sessions[s.callers[t].key] == s.callers[t].phase.id
  }

  /**
   In every interleaving of any callers: at most one session is created per key and
   none for a key that had one, every caller returns the id that is stored for its key, so
   callers of one key all return the same, and while a caller is not done one can go on.
   */
  lemma CreatedAtMostOnce(sessions: map<ChannelKey, string>, keys: seq<ChannelKey>, schedule: seq<Choice>)
    ensures var s := Run(Start(sessions, keys), schedule);
      && (forall k :: multiset(s.created)[k] <= if k in sessions then 0 else 1)
      && ReturnedStoredId(s)
      && ((exists t :: 0 <= t < |s.callers| && !s.callers[t].phase.Done?) ==> exists t :: Enabled(s, t))
  {
    StartKeepsInv(sessions, keys);
    RunKeepsInv(Start(sessions, keys), schedule, sessions);
    var s := Run(Start(sessions, keys), schedule);
    forall k ensures multiset(s.created)[k] <= if k in sessions then 0 else 1 {
      CreatedOnlyIfMissing(s, sessions, k);
    }
    if t :| 0 <= t < |s.callers| && !s.callers[t].phase.Done? {
      SomeoneCanGoOn(s, t);
    }
  }

  // ---------------------------------------------------------------- the id is the closure's

  /** Step `i` of the schedule ran the closure of a caller of `k`, and the closure returned `id`. */
  ghost predicate ClosureGave(start: State, schedule: seq<Choice>, i: nat, k: ChannelKey, id: string)
    requires i < |schedule|
  {
    var before, c := Run(start, schedule[..i]), schedule[i];
    && Enabled(before, c.t) && before.callers[c.t].phase.Create? && before.callers[c.t].key == k
    && c.newId == id
  }

  ghost predicate GivenByClosure(start: State, schedule: seq<Choice>, k: ChannelKey, id: string) {
    exists i: nat :: i < |schedule| && ClosureGave(start, schedule, i, k, id)
  }

  /** Every id stored that was not there at first, or about to be stored, was returned by a closure that a caller ran. */
  ghost predicate IdsAreGiven(start: State, schedule: seq<Choice>, s: State, init: map<ChannelKey, string>) {
    && (forall k :: k in s.sessions && !(k in init && init[k] == s.sessions[k]) ==>
          GivenByClosure(start, schedule, k, s.sessions[k]))
    && (forall t :: 0 <= t < |s.callers| && s.callers[t].phase.Store? ==>
          GivenByClosure(start, schedule, s.callers[t].key, s.callers[t].phase.id))
  }

  lemma GivenStaysGiven(start: State, schedule: seq<Choice>, c: Choice, k: ChannelKey, id: string)
    requires GivenByClosure(start, schedule, k, id)
    ensures GivenByClosure(start, schedule + [c], k, id)
  {
    var i: nat :| i < |schedule| && ClosureGave(start, schedule, i, k, id);
    assert (schedule + [c])[..i] == schedule[..i];
    assert ClosureGave(start, schedule + [c], i, k, id);
  }

  /** A step stores at most the id that its caller was about to store, and makes at most its own id the next to store. */
  lemma StepTakesIdsFromCallers(s: State, t: nat, newId: string)
    requires Enabled(s, t)
    ensures var n, c := Step(s, t, newId), s.callers[t];
      && n.sessions == (if c.phase.Store? then s.sessions[c.key := c.phase.id] else s.sessions)
      && n.callers == s.callers[t := n.callers[t]] && n.callers[t].key == c.key
      && (n.callers[t].phase.Store? ==> c.phase.Create? && n.callers[t].phase.id == newId)
  {
  }

  lemma StepKeepsIdsGiven(start: State, schedule: seq<Choice>, c: Choice, init: map<ChannelKey, string>)
    requires IdsAreGiven(start, schedule, Run(start, schedule), init) && Enabled(Run(start, schedule), c.t)
    ensures IdsAreGiven(start, schedule + [c], Step(Run(start, schedule), c.t, c.newId), init)
  {
    var s := Run(start, schedule);
    var n := Step(s, c.t, c.newId);
    StepTakesIdsFromCallers(s, c.t, c.newId);
    assert (schedule + [c])[..|schedule|] == schedule;
    forall k | k in n.sessions && !(k in init && init[k] == n.sessions[k])
      ensures GivenByClosure(start, schedule + [c], k, n.sessions[k])
    {
      GivenStaysGiven(start, schedule, c, k, n.sessions[k]);
    }
    forall t | 0 <= t < |n.callers| && n.callers[t].phase.Store?
      ensures GivenByClosure(start, schedule + [c], n.callers[t].key, n.callers[t].phase.id)
    {
      if t == c.t {
        assert ClosureGave(start, schedule + [c], |schedule|, n.callers[t].key, n.callers[t].phase.id);
      } else {
        GivenStaysGiven(start, schedule, c, n.callers[t].key, n.callers[t].phase.id);
      }
    }
  }

  lemma {:induction false} RunKeepsIdsGiven(start: State, schedule: seq<Choice>)
    requires forall t :: 0 <= t < |start.callers| ==> start.callers[t].phase.Check?
    ensures IdsAreGiven(start, schedule, Run(start, schedule), start.sessions)
  {
    if schedule == [] {
    } else {
      var n := |schedule| - 1;
      RunKeepsIdsGiven(start, schedule[..n]);
      assert schedule == schedule[..n] + [schedule[n]];
      if Enabled(Run(start, schedule[..n]), schedule[n].t) {
        StepKeepsIdsGiven(start, schedule[..n], schedule[n], start.sessions);
      } else {
        NothingGivenBySkipping(start, schedule[..n], schedule[n]);
      }
    }
  }

  lemma NothingGivenBySkipping(start: State, schedule: seq<Choice>, c: Choice)
    requires IdsAreGiven(start, schedule, Run(start, schedule), start.sessions)
    ensures IdsAreGiven(start, schedule + [c], Run(start, schedule), start.sessions)
  {
    forall k, id | GivenByClosure(start, schedule, k, id)
      ensures GivenByClosure(start, schedule + [c], k, id)
    {
      GivenStaysGiven(start, schedule, c, k, id);
    }
  }

  /**
   In every interleaving: a session that was there stays as it was, and every other caller returns, and the table
   holds, an id that a closure returned to a caller of that very key.
   */
  lemma ReturnedIdsAreOldOrCreated(sessions: map<ChannelKey, string>, keys: seq<ChannelKey>, schedule: seq<Choice>)
    ensures var start := Start(sessions, keys); var s := Run(start, schedule);
      && (forall k :: k in sessions ==> k in s.sessions && s.sessions[k] == sessions[k])
      && (forall k :: k in s.sessions && k !in sessions ==> GivenByClosure(start, schedule, k, s.sessions[k]))
      && (forall t :: 0 <= t < |s.callers| && s.callers[t].phase.Done? ==>
            if s.callers[t].key in sessions then s.callers[t].phase.id == sessions[s.callers[t].key]
            else GivenByClosure(start, schedule, s.callers[t].key, s.callers[t].phase.id))
  {
    RunKeepsIdsGiven(Start(sessions, keys), schedule);
    StartKeepsInv(sessions, keys);
    RunKeepsInv(Start(sessions, keys), schedule, sessions);
  }

  // ---------------------------------------------------------------- every caller is served

  /** The steps a caller still has to make. */
  function CallerWork(c: Caller): nat {
    match c.phase
    case Check => 8
    case FindLock => 7
    case AddLock => 6
    case Wait(_) => 5
    case Recheck(_) => 4
    case Create(_) => 3
    case Store(_, _) => 2
    case Leave(_, _) => 1
    case Done(_) => 0
  }

  function CallerWorks(callers: seq<Caller>): seq<nat> {
    seq(|callers|, i requires 0 <= i < |callers| => CallerWork(callers[i]))
  }

  predicate AllDone(s: State) {
    forall t :: 0 <= t < |s.callers| ==> s.callers[t].phase.Done?
  }

  lemma StepDoesWork(s: State, t: nat, newId: string)
    requires Enabled(s, t)
    ensures var n := Step(s, t, newId);
      |n.callers| == |s.callers| && Total(CallerWorks(n.callers)) < Total(CallerWorks(s.callers))
  {
    var n := Step(s, t, newId).callers;
    assert n == s.callers[t := n[t]] && CallerWork(n[t]) < CallerWork(s.callers[t]);
    TotalAfterUpdate(CallerWorks(s.callers), t, CallerWork(n[t]));
    assert CallerWorks(n) == CallerWorks(s.callers)[t := CallerWork(n[t])];
  }

  /** `n` callers as a system of agents. */
  ghost function Callers(n: nat): System<State, Choice> {
    System((s: State, c: Choice) => if Enabled(s, c.t) then Step(s, c.t, c.newId) else s, (c: Choice) => c.t, n,
           (s: State) => |s.callers| == n, (s: State, t: nat) => Enabled(s, t),
           (s: State) => AllDone(s), (s: State) => Total(CallerWorks(s.callers)))
  }

  lemma CallersProgress(n: nat)
    ensures Progresses(Callers(n))
  {
    var y := Callers(n);
    forall s: State, c: Choice | y.inv(s)
      ensures StepGoesOn(y, s, c)
    {
      if Enabled(s, c.t) {
        StepDoesWork(s, c.t, c.newId);
      }
    }
    forall s: State | y.inv(s)
      ensures NobodyStuck(y, s)
    {
      if t :| 0 <= t < |s.callers| && !s.callers[t].phase.Done? {
        SomeoneCanGoOn(s, t);
        var u :| Enabled(s, u);
        StepDoesWork(s, u, "");
        assert y.enabled(s, u);
      }
    }
  }

  lemma {:induction false} ScheduleIsRun(s: State, n: nat, schedule: seq<Choice>)
    ensures Run(s, schedule) == FairRuns.Run(Callers(n), s, schedule)
  {
    if schedule == [] {
    } else {
      ScheduleIsRun(s, n, schedule[..|schedule| - 1]);
    }
  }

  /** Every caller is given a turn. */
  predicate GivesTurns(round: seq<Choice>, n: nat) {
    forall t :: 0 <= t < n ==> HasTurn(round, t)
  }

  predicate HasTurn(round: seq<Choice>, t: nat) {
    exists i :: 0 <= i < |round| && round[i].t == t
  }

  /**
   Liveness: under any schedule that gives every caller its turn again and again, every caller is granted its mutex,
   if it needs it, and returns the one id that is stored for its key.
   */
  lemma EveryCallerReturns(sessions: map<ChannelKey, string>, keys: seq<ChannelKey>, rounds: seq<seq<Choice>>)
    requires |rounds| >= Total(CallerWorks(Start(sessions, keys).callers))
    requires forall i :: 0 <= i < |rounds| ==> GivesTurns(rounds[i], |keys|)
    ensures var s := Run(Start(sessions, keys), Flat(rounds)); AllDone(s) && ReturnedStoredId(s)
  {
    var y := Callers(|keys|);
    CallersProgress(|keys|);
    forall i | 0 <= i < |rounds|
      ensures IsRound(y, rounds[i])
    {
      forall t: nat | t < y.agents
        ensures Names(y, rounds[i], t)
      {
        assert HasTurn(rounds[i], t);
      }
    }
    FairRunsAreDone(y, Start(sessions, keys), rounds);
    ScheduleIsRun(Start(sessions, keys), |keys|, Flat(rounds));
    CreatedAtMostOnce(sessions, keys, Flat(rounds));
  }
}
