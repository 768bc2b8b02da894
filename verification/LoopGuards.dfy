/**
 The guard against repeated tool calls. `LoopGuard` keeps counters; the
 specification is a function of the whole history of attempts and outcomes, and
 `BlockedFromThirdCall` and `BlockedExactlyFromThirdCall` say what that function
 means in terms of tool arguments that are equal up to the order of object keys.
 */
module LoopGuards {
  import opened CanonicalJson

  const IDENTICAL_CALL_BLOCK_THRESHOLD: nat := 3
  const FAILURE_WARN_THRESHOLD: nat := 3
  const FAILURE_HALT_THRESHOLD: nat := 8
  const U32_MAX: nat := 0xFFFF_FFFF

  /** `times` and `failures` are the numbers quoted in the message. */
  datatype AttemptDecision = Proceed | Block(times: nat)
  datatype OutcomeDecision = Continue | Warn(failures: nat) | Halt(failures: nat)

  datatype Attempt = Attempt(tool: string, args: Json)
  datatype Outcome = Outcome(tool: string, ok: bool)

  function Saturated(n: nat): nat {
    if n > 4_294_967_295 then 4_294_967_295 else n
  }

  // ---------------------------------------------------------------- specification on histories

  /** Number of attempts in the history with this tool and this hash of the arguments. */
  function CallsWithHash(hash: string -> int, history: seq<Attempt>, tool: string, h: int): nat {
    if history == [] then 0
    else
      var last := history[|history| - 1];
      CallsWithHash(hash, history[..|history| - 1], tool, h)
      + (if last.tool == tool && hash(Canonical(last.args)) == h then 1 else 0)
  }

  /** Number of attempts in the history with this tool and these arguments up to key order. */
  ghost function EqualCalls(history: seq<Attempt>, a: Attempt): nat {
    if history == [] then 0
    else
      var last := history[|history| - 1];
      EqualCalls(history[..|history| - 1], a)
      + (if last.tool == a.tool && Equivalent(last.args, a.args) then 1 else 0)
  }

  /** Length of the run of failures of `tool` at the end of the history; other tools do not matter. */
  function FailureRun(history: seq<Outcome>, tool: string): nat {
    if history == [] then 0
    else
      var last := history[|history| - 1];
      if last.tool != tool then FailureRun(history[..|history| - 1], tool)
      else if last.ok then 0
      else FailureRun(history[..|history| - 1], tool) + 1
  }

  /** The decision on attempt `a` after `history`. */
  function DecideAttempt(hash: string -> int, history: seq<Attempt>, a: Attempt): AttemptDecision {
    var earlier := CallsWithHash(hash, history, a.tool, hash(Canonical(a.args)));
    if earlier >= 2 then Block(Saturated(earlier + 1)) else Proceed
  }

  /** The decision on an outcome of `tool`; `history` includes that outcome. */
  function DecideOutcome(history: seq<Outcome>, tool: string): OutcomeDecision {
    var run := FailureRun(history, tool);
    if run >= 8 then Halt(Saturated(run))
    else if run == 3 then Warn(3)
    else Continue
  }

  ghost predicate WellFormedHistory(history: seq<Attempt>) {
    forall i :: 0 <= i < |history| ==> WellFormed(history[i].args)
  }

  /** No attempt of the history collides with `a`: equal hashes come from equal texts. */
  ghost predicate NoCollision(hash: string -> int, history: seq<Attempt>, a: Attempt) {
    forall i :: 0 <= i < |history| && hash(Canonical(history[i].args)) == hash(Canonical(a.args)) ==>
      Canonical(history[i].args) == Canonical(a.args)
  }

  lemma {:induction false} EqualCallsShareHash(hash: string -> int, history: seq<Attempt>, a: Attempt)
    requires WellFormedHistory(history) && WellFormed(a.args)
    ensures EqualCalls(history, a) <= CallsWithHash(hash, history, a.tool, hash(Canonical(a.args)))
    ensures NoCollision(hash, history, a) ==>
      EqualCalls(history, a) == CallsWithHash(hash, history, a.tool, hash(Canonical(a.args)))
  {
    if history == [] {
    } else {
      var rest, last := history[..|history| - 1], history[|history| - 1];
      EqualCallsShareHash(hash, rest, a);
      CanonicalTextIsIdentity(last.args, a.args);
      assert NoCollision(hash, history, a) ==> NoCollision(hash, rest, a);
    }
  }

  /** From the third call with the same arguments on, every attempt is blocked, whatever was called between. */
  lemma BlockedFromThirdCall(hash: string -> int, history: seq<Attempt>, a: Attempt)
    requires WellFormedHistory(history) && WellFormed(a.args)
    requires EqualCalls(history, a) >= 2
    ensures DecideAttempt(hash, history, a).Block?
  {
    EqualCallsShareHash(hash, history, a);
  }

  /** Without a collision nothing else is blocked, and the message counts the equal calls. */
  lemma BlockedExactlyFromThirdCall(hash: string -> int, history: seq<Attempt>, a: Attempt)
    requires WellFormedHistory(history) && WellFormed(a.args) && NoCollision(hash, history, a)
    ensures DecideAttempt(hash, history, a) ==
      if EqualCalls(history, a) >= 2 then Block(Saturated(EqualCalls(history, a) + 1)) else Proceed
  {
    EqualCallsShareHash(hash, history, a);
  }

  /** A declarative reading of a failure run: the last `n` outcomes of the tool failed, the one before did not. */
  ghost predicate EndsWithFailures(history: seq<Outcome>, tool: string, n: nat) {
    var own := OutcomesOf(history, tool);
    n <= |own|
    && (forall i :: |own| - n <= i < |own| ==> !own[i].ok)
    && (n < |own| ==> own[|own| - n - 1].ok)
  }

  function OutcomesOf(history: seq<Outcome>, tool: string): seq<Outcome> {
    if history == [] then []
    else
      var last := history[|history| - 1];
      OutcomesOf(history[..|history| - 1], tool) + (if last.tool == tool then [last] else [])
  }

  lemma {:induction false} FailureRunIsMaximal(history: seq<Outcome>, tool: string)
    ensures EndsWithFailures(history, tool, FailureRun(history, tool))
  {
    if history == [] {
    } else {
      FailureRunIsMaximal(history[..|history| - 1], tool);
    }
  }

  /** Warned exactly at a run of three, halted exactly from a run of eight on. */
  lemma OutcomeDecisionsFollowRuns(history: seq<Outcome>, tool: string, n: nat)
    requires EndsWithFailures(history, tool, n)
    ensures DecideOutcome(history, tool).Warn? <==> n == 3
    ensures DecideOutcome(history, tool).Halt? <==> n >= 8
  {
    FailureRunIsMaximal(history, tool);
    var own, m := OutcomesOf(history, tool), FailureRun(history, tool);
    assert m < |own| ==> own[|own| - m - 1].ok;
    assert n < |own| ==> own[|own| - n - 1].ok;
  }

  // ---------------------------------------------------------------- the guard

  class LoopGuard {
    const hash: string -> int
    var callCounts: map<(string, int), nat>
    var failureCounts: map<string, nat>
    ghost var attempts: seq<Attempt>
    ghost var outcomes: seq<Outcome>

    ghost predicate Valid()
      reads this
    {
      && (forall tool, h :: (tool, h) in callCounts ==>
            callCounts[(tool, h)] == Saturated(CallsWithHash(hash, attempts, tool, h)))
      && (forall tool, h :: (tool, h) !in callCounts ==> CallsWithHash(hash, attempts, tool, h) == 0)
      && (forall tool :: tool in failureCounts ==> failureCounts[tool] == Saturated(FailureRun(outcomes, tool)))
      && (forall tool :: tool !in failureCounts ==> FailureRun(outcomes, tool) == 0)
    }

    constructor (hash: string -> int)
      ensures Valid() && this.hash == hash && attempts == [] && outcomes == []
    {
      this.hash := hash;
      callCounts, failureCounts := map[], map[];
      attempts, outcomes := [], [];
    }

    method HashArgs(args: Json) returns (h: int)
      ensures h == hash(Canonical(args))
    {
      var buf := WriteCanonical(args, "");
      assert buf == Canonical(args);
      h := hash(buf);
    }

    method RecordAttempt(tool: string, args: Json) returns (d: AttemptDecision)
      requires Valid()
      modifies this
      ensures Valid()
      ensures attempts == old(attempts) + [Attempt(tool, args)] && outcomes == old(outcomes)
      ensures d == DecideAttempt(hash, old(attempts), Attempt(tool, args))
    {
      var h := HashArgs(args);
      var key := (tool, h);
      var count := if key in callCounts then callCounts[key] else 0;
      count := if count < U32_MAX then count + 1 else U32_MAX;
      callCounts := callCounts[key := count];
      attempts := attempts + [Attempt(tool, args)];
      assert attempts[..|attempts| - 1] == old(attempts);
      if count >= IDENTICAL_CALL_BLOCK_THRESHOLD {
        return Block(count);
      }
      return Proceed;
    }

    method RecordOutcome(tool: string, ok: bool) returns (d: OutcomeDecision)
      requires Valid()
      modifies this
      ensures Valid()
      ensures outcomes == old(outcomes) + [Outcome(tool, ok)] && attempts == old(attempts)
      ensures d == DecideOutcome(outcomes, tool)
    {
      var failures := if tool in failureCounts then failureCounts[tool] else 0;
      outcomes := outcomes + [Outcome(tool, ok)];
      assert outcomes[..|outcomes| - 1] == old(outcomes);
      if ok {
        failureCounts := failureCounts[tool := 0];
        return Continue;
      }
      failures := if failures < U32_MAX then failures + 1 else U32_MAX;
      failureCounts := failureCounts[tool := failures];
      if failures >= FAILURE_HALT_THRESHOLD {
        return Halt(failures);
      }
      if failures == FAILURE_WARN_THRESHOLD {
        return Warn(failures);
      }
      return Continue;
    }
  }
}
