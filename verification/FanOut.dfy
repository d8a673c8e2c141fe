/**
  `graph.py`: fan-out, retry and routing, and the task rows `service.py` writes afterwards. A runner is
  a function of the agent and of how often that agent ran before; as no run is repeated, every behaviour
  of an agent runner, whatever it depends on, is one of these.
 */
module FanOut {
  import opened Common
  import Ordering

  datatype Outcome = Success(findings: seq<string>) | Transient | Permanent(error: string) | TimedOut

  type Runner = (string, nat) -> Outcome

  datatype Cause = HardTimeout | Reported(error: string) | Exhausted

  datatype AgentResult = AgentResult(key: string, findings: seq<string>)

  datatype AgentFailure = AgentFailure(key: string, cause: Cause, attempts: nat)

  /** The graph state; `calls` logs the agent runs in order. */
  datatype State = State(
    results: seq<AgentResult>,
    failed: seq<AgentFailure>,
    retries: map<string, nat>,
    pending: seq<string>,
    calls: seq<string>)

  datatype Terminal = Complete | FailedTerminal

  ghost predicate Distinct(keys: seq<string>) {
    forall i, j :: 0 <= i < j < |keys| ==> keys[i] != keys[j]
  }

  function RetryCount(retries: map<string, nat>, key: string): nat {
    if key in retries then retries[key] else 0
  }

  // ---------------------------------------------------------------- one agent on its own

  /** Where one agent stands, looked at in isolation. */
  datatype Progress = Waiting | Finished(findings: seq<string>) | Failed(cause: Cause, attempts: nat)

  function CauseOf(o: Outcome): Cause
    requires o.Permanent? || o.TimedOut?
  {
    if o.TimedOut? then HardTimeout
    else Reported(if o.error == "" then "permanent agent failure" else o.error)
  }

  /** One agent after `p` rounds if it were alone: run again after a transient failure while retries last. */
  function After(runner: Runner, maxRetries: nat, key: string, p: nat): Progress {
    if p == 0 then Waiting
    else
      var before := After(runner, maxRetries, key, p - 1);
      if before != Waiting then before
      else
        match runner(key, p - 1)
        case Success(findings) => Finished(findings)
        case Transient => if p >= maxRetries then Failed(Exhausted, p) else Waiting
        case other => Failed(CauseOf(other), p)
  }

  /** How often it ran, and how many of these runs failed transiently. */
  function Runs(runner: Runner, maxRetries: nat, key: string, p: nat): nat {
    if p == 0 then 0
    else Runs(runner, maxRetries, key, p - 1) + (if After(runner, maxRetries, key, p - 1) == Waiting then 1 else 0)
  }

  function Transients(runner: Runner, maxRetries: nat, key: string, p: nat): nat {
    if p == 0 then 0
    else
      Transients(runner, maxRetries, key, p - 1) +
      (if After(runner, maxRetries, key, p - 1) == Waiting && runner(key, p - 1) == Transient then 1 else 0)
  }

  /** After this many rounds nobody is left waiting. */
  function Limit(maxRetries: nat): nat {
    if maxRetries == 0 then 1 else maxRetries
  }

  function Verdict(runner: Runner, maxRetries: nat, key: string): Progress {
    After(runner, maxRetries, key, Limit(maxRetries))
  }

  lemma {:induction false} WaitingRanEveryRound(runner: Runner, maxRetries: nat, key: string, p: nat)
    requires After(runner, maxRetries, key, p) == Waiting
    ensures Runs(runner, maxRetries, key, p) == p && Transients(runner, maxRetries, key, p) == p
    ensures p < Limit(maxRetries)
  {
    if p > 0 {
      WaitingRanEveryRound(runner, maxRetries, key, p - 1);
    }
  }

  /** Once decided, an agent never runs again. */
  lemma {:induction false} DecidedStays(runner: Runner, maxRetries: nat, key: string, p: nat, q: nat)
    requires p <= q && After(runner, maxRetries, key, p) != Waiting
    ensures After(runner, maxRetries, key, q) == After(runner, maxRetries, key, p)
    ensures Runs(runner, maxRetries, key, q) == Runs(runner, maxRetries, key, p)
    ensures Transients(runner, maxRetries, key, q) == Transients(runner, maxRetries, key, p)
  {
    if p < q {
      DecidedStays(runner, maxRetries, key, p, q - 1);
    }
  }

  /** The verdict is reached by the round limit, within as many runs, and reports the runs it took. */
  lemma {:induction false} VerdictReached(runner: Runner, maxRetries: nat, key: string, p: nat)
    ensures var v := After(runner, maxRetries, key, p);
            var runs := Runs(runner, maxRetries, key, p);
            && runs <= p && runs <= Limit(maxRetries)
            && (v.Failed? ==> v.attempts == runs && 1 <= runs)
            && (v.Finished? ==> 1 <= runs && runner(key, runs - 1) == Success(v.findings))
            && (v == Waiting ==> p < Limit(maxRetries))
  {
    if After(runner, maxRetries, key, p) == Waiting {
      WaitingRanEveryRound(runner, maxRetries, key, p);
    } else {
      VerdictReached(runner, maxRetries, key, p - 1);
      if After(runner, maxRetries, key, p - 1) == Waiting {
        WaitingRanEveryRound(runner, maxRetries, key, p - 1);
      }
    }
  }

  /** What the last run of a decided agent was like. */
  ghost predicate Explains(last: Outcome, runs: nat, maxRetries: nat, v: Progress) {
    match last
    case Success(findings) => v == Finished(findings)
    case Transient => v == Failed(Exhausted, runs) && runs >= maxRetries
    case Permanent(error) => v == Failed(Reported(if error == "" then "permanent agent failure" else error), runs)
    case TimedOut => v == Failed(HardTimeout, runs)
  }

  /** A verdict is what the last run came to, and every run before it was a transient failure. */
  lemma {:induction false} VerdictExplained(runner: Runner, maxRetries: nat, key: string, p: nat)
    requires After(runner, maxRetries, key, p) != Waiting
    ensures
      var runs := Runs(runner, maxRetries, key, p);
      && 1 <= runs && Explains(runner(key, runs - 1), runs, maxRetries, After(runner, maxRetries, key, p))
      && forall q :: 0 <= q < runs - 1 ==> runner(key, q) == Transient
  {
    if After(runner, maxRetries, key, p - 1) == Waiting {
      WaitingRanEveryRound(runner, maxRetries, key, p - 1);
      WaitingWasTransient(runner, maxRetries, key, p - 1);
    } else {
      VerdictExplained(runner, maxRetries, key, p - 1);
    }
  }

  lemma {:induction false} WaitingWasTransient(runner: Runner, maxRetries: nat, key: string, p: nat)
    requires After(runner, maxRetries, key, p) == Waiting
    ensures forall q :: 0 <= q < p ==> runner(key, q) == Transient
  {
    if p > 0 {
      WaitingWasTransient(runner, maxRetries, key, p - 1);
    }
  }

  // ---------------------------------------------------------------- one round of all agents

  /** The planned agents still waiting after `p` rounds. */
  function Targets(plan: seq<string>, runner: Runner, maxRetries: nat, p: nat): (r: seq<string>) {
    if plan == [] then []
    else
      var n := |plan| - 1;
      Targets(plan[..n], runner, maxRetries, p) +
        (if After(runner, maxRetries, plan[n], p) == Waiting then [plan[n]] else [])
  }

  function ResultsOf(targets: seq<string>, runner: Runner, p: nat): seq<AgentResult> {
    if targets == [] then []
    else
      var (n, key) := (|targets| - 1, targets[|targets| - 1]);
      ResultsOf(targets[..n], runner, p) +
        (match runner(key, p) case Success(findings) => [AgentResult(key, findings)] case _ => [])
  }

  function PermanentOf(targets: seq<string>, runner: Runner, p: nat): seq<AgentFailure> {
    if targets == [] then []
    else
      var (n, key) := (|targets| - 1, targets[|targets| - 1]);
      var o := runner(key, p);
      PermanentOf(targets[..n], runner, p) +
        (if o.Permanent? || o.TimedOut? then [AgentFailure(key, CauseOf(o), p + 1)] else [])
  }

  function TransientOf(targets: seq<string>, runner: Runner, p: nat): seq<string> {
    if targets == [] then []
    else
      var (n, key) := (|targets| - 1, targets[|targets| - 1]);
      TransientOf(targets[..n], runner, p) + (if runner(key, p) == Transient then [key] else [])
  }

  /** The pending agents whose retries are used up. */
  function ExhaustedOf(pending: seq<string>, retries: map<string, nat>, maxRetries: nat): seq<AgentFailure> {
    if pending == [] then []
    else
      var (n, key) := (|pending| - 1, pending[|pending| - 1]);
      ExhaustedOf(pending[..n], retries, maxRetries) +
        (if RetryCount(retries, key) + 1 >= maxRetries
         then [AgentFailure(key, Exhausted, RetryCount(retries, key) + 1)] else [])
  }

  function ResultKeys(results: seq<AgentResult>): (r: seq<string>)
    ensures |r| == |results| && forall i :: 0 <= i < |r| ==> r[i] == results[i].key
  {
    seq(|results|, i requires 0 <= i < |results| => results[i].key)
  }

  function FailedKeys(failed: seq<AgentFailure>): (r: seq<string>)
    ensures |r| == |failed| && forall i :: 0 <= i < |r| ==> r[i] == failed[i].key
  {
    seq(|failed|, i requires 0 <= i < |failed| => failed[i].key)
  }

  // ---------------------------------------------------------------- what the loop keeps

  /** The result, or the failure, is what its agent alone would have after `p` rounds. */
  ghost predicate RightResult(runner: Runner, maxRetries: nat, p: nat, r: AgentResult) {
    After(runner, maxRetries, r.key, p) == Finished(r.findings)
  }

  ghost predicate RightFailure(runner: Runner, maxRetries: nat, p: nat, f: AgentFailure) {
    After(runner, maxRetries, f.key, p) == Failed(f.cause, f.attempts)
  }

  ghost predicate RightResults(runner: Runner, maxRetries: nat, p: nat, rs: seq<AgentResult>) {
    forall r :: r in rs ==> RightResult(runner, maxRetries, p, r)
  }

  ghost predicate RightFailures(runner: Runner, maxRetries: nat, p: nat, fs: seq<AgentFailure>) {
    forall f :: f in fs ==> RightFailure(runner, maxRetries, p, f)
  }

  ghost predicate Recorded(runner: Runner, maxRetries: nat, s: State, p: nat) {
    RightResults(runner, maxRetries, p, s.results) && RightFailures(runner, maxRetries, p, s.failed)
  }

  ghost predicate Accounted(plan: seq<string>, runner: Runner, maxRetries: nat, s: State, p: nat) {
    multiset(ResultKeys(s.results)) + multiset(FailedKeys(s.failed)) + multiset(Targets(plan, runner, maxRetries, p))
    == multiset(plan)
  }

  ghost predicate Counted(plan: seq<string>, runner: Runner, maxRetries: nat, s: State, p: nat) {
    forall k :: k in multiset(plan) ==>
      RetryCount(s.retries, k) == Transients(runner, maxRetries, k, p) &&
      multiset(s.calls)[k] == Runs(runner, maxRetries, k, p)
  }

  /** The state before round `p`: every agent stands where it would stand alone. */
  ghost predicate Before(plan: seq<string>, runner: Runner, maxRetries: nat, s: State, p: nat) {
    && s.pending == []
    && Recorded(runner, maxRetries, s, p)
    && Accounted(plan, runner, maxRetries, s, p)
    && Counted(plan, runner, maxRetries, s, p)
  }

  lemma {:induction false} TargetsAre(plan: seq<string>, runner: Runner, maxRetries: nat, p: nat)
    ensures var t := Targets(plan, runner, maxRetries, p);
      && (forall i :: 0 <= i < |t| ==> t[i] in plan && After(runner, maxRetries, t[i], p) == Waiting)
      && (forall i :: 0 <= i < |plan| && After(runner, maxRetries, plan[i], p) == Waiting ==> plan[i] in t)
      && (Distinct(plan) ==> Distinct(t))
  {
    if plan != [] {
      var n := |plan| - 1;
      TargetsAre(plan[..n], runner, maxRetries, p);
      assert Distinct(plan) ==> Distinct(plan[..n]);
      assert plan == plan[..n] + [plan[n]];
      assert Distinct(plan) ==> forall i :: 0 <= i < n ==> plan[i] != plan[n];
    }
  }

  /** Under the invariant, an agent has no entry yet exactly when it is waiting. */
  lemma UnfinishedIff(plan: seq<string>, runner: Runner, maxRetries: nat, s: State, p: nat, key: string)
    requires Before(plan, runner, maxRetries, s, p) && key in plan
    ensures key !in ResultKeys(s.results) && key !in FailedKeys(s.failed)
      <==> After(runner, maxRetries, key, p) == Waiting
  {
    var (t, rs, fs) := (Targets(plan, runner, maxRetries, p), ResultKeys(s.results), FailedKeys(s.failed));
    TargetsAre(plan, runner, maxRetries, p);
    assert key in multiset(plan);
    assert key in multiset(rs) || key in multiset(fs) || key in multiset(t);
    if key in rs {
      var i :| 0 <= i < |rs| && rs[i] == key;
      assert s.results[i] in s.results;
    }
    if key in fs {
      var i :| 0 <= i < |fs| && fs[i] == key;
      assert s.failed[i] in s.failed;
    }
  }

  method UnfinishedAgents(plan: seq<string>, s: State, ghost runner: Runner, ghost maxRetries: nat, ghost p: nat)
    returns (targets: seq<string>)
    requires Before(plan, runner, maxRetries, s, p)
    ensures targets == Targets(plan, runner, maxRetries, p)
  {
    targets := [];
    var (done, gone) := (ResultKeys(s.results), FailedKeys(s.failed));
    for n := 0 to |plan|
      invariant targets == Targets(plan[..n], runner, maxRetries, p)
    {
      assert plan[..n + 1][..n] == plan[..n];
      UnfinishedIff(plan, runner, maxRetries, s, p, plan[n]);
      if plan[n] !in done && plan[n] !in gone {
        targets := targets + [plan[n]];
      }
    }
    assert plan[..|plan|] == plan;
  }

  // ---------------------------------------------------------------- fan-out and retry

  /** The state after a pass over `targets` that each ran `p` times before. */
  function FannedOut(s: State, targets: seq<string>, runner: Runner, p: nat): State {
    State(s.results + ResultsOf(targets, runner, p), s.failed + PermanentOf(targets, runner, p), s.retries,
          TransientOf(targets, runner, p), s.calls + targets)
  }

  lemma EachRanBefore(plan: seq<string>, runner: Runner, maxRetries: nat, s: State, p: nat)
    requires Before(plan, runner, maxRetries, s, p) && Distinct(plan)
    ensures var t := Targets(plan, runner, maxRetries, p);
      Distinct(t) && forall n :: 0 <= n < |t| ==> RetryCount(s.retries, t[n]) == p && multiset(s.calls)[t[n]] == p
  {
    var t := Targets(plan, runner, maxRetries, p);
    TargetsAre(plan, runner, maxRetries, p);
    forall n | 0 <= n < |t| ensures RetryCount(s.retries, t[n]) == p && multiset(s.calls)[t[n]] == p {
      WaitingRanEveryRound(runner, maxRetries, t[n], p);
      assert t[n] in multiset(plan);
    }
  }

  /** The pass continued by one more agent. */
  ghost predicate Noted(s: State, key: string, o: Outcome, attempts: nat, s': State) {
    s' == State(
      s.results + (if o.Success? then [AgentResult(key, o.findings)] else []),
      s.failed + (if o.Permanent? || o.TimedOut? then [AgentFailure(key, CauseOf(o), attempts)] else []),
      s.retries,
      s.pending + (if o == Transient then [key] else []),
      s.calls + [key])
  }

  lemma FannedOutSnoc(s: State, before: seq<string>, key: string, runner: Runner, p: nat, s': State)
    requires Noted(FannedOut(s, before, runner, p), key, runner(key, p), p + 1, s')
    ensures s' == FannedOut(s, before + [key], runner, p)
  {
    assert (before + [key])[..|before|] == before;
    assert s'.calls == s.calls + (before + [key]);
    var o := runner(key, p);
    assert s'.results == s.results + ResultsOf(before + [key], runner, p);
    assert s'.failed == s.failed + PermanentOf(before + [key], runner, p);
  }

  /** One agent: its outcome is classified and recorded. */
  method RunAgent(s: State, key: string, runner: Runner) returns (s': State)
    ensures Noted(s, key, runner(key, multiset(s.calls)[key]), RetryCount(s.retries, key) + 1, s')
  {
    var outcome := runner(key, multiset(s.calls)[key]);
    var attempts := RetryCount(s.retries, key) + 1;
    s' := s.(calls := s.calls + [key]);
    match outcome
    case TimedOut => s' := s'.(failed := s.failed + [AgentFailure(key, HardTimeout, attempts)]);
    case Success(findings) => s' := s'.(results := s.results + [AgentResult(key, findings)]);
    case Transient => s' := s'.(pending := s.pending + [key]);
    case Permanent(_) => s' := s'.(failed := s.failed + [AgentFailure(key, CauseOf(outcome), attempts)]);
  }

  method RunTargets(targets: seq<string>, runner: Runner, s: State, ghost p: nat) returns (s': State)
    requires forall n :: 0 <= n < |targets| ==>
      RetryCount(s.retries, targets[n]) == p && multiset(s.calls)[targets[n]] == p
    requires Distinct(targets) && s.pending == []
    ensures s' == FannedOut(s, targets, runner, p)
  {
    s' := s;
    assert s' == FannedOut(s, targets[..0], runner, p);
    for n := 0 to |targets|
      invariant s' == FannedOut(s, targets[..n], runner, p)
    {
      ghost var before := targets[..n];
      assert targets[n] !in before && multiset(s.calls + before)[targets[n]] == p;
      s' := RunAgent(s', targets[n], runner);
      FannedOutSnoc(s, before, targets[n], runner, p, s');
      assert targets[..n + 1] == before + [targets[n]];
    }
    assert targets[..|targets|] == targets;
  }

  /** Every agent still waiting runs once more; the others do not. */
  method FanOut(plan: seq<string>, runner: Runner, s: State, ghost maxRetries: nat, ghost p: nat) returns (s': State)
    requires Before(plan, runner, maxRetries, s, p) && Distinct(plan)
    ensures s' == FannedOut(s, Targets(plan, runner, maxRetries, p), runner, p)
  {
    var targets := UnfinishedAgents(plan, s, runner, maxRetries, p);
    EachRanBefore(plan, runner, maxRetries, s, p);
    s' := RunTargets(targets, runner, s, p);
  }

  /** The counts of `keys` went up by one, no other count changed. */
  ghost predicate CountedOnce(retries: map<string, nat>, retries': map<string, nat>, keys: seq<string>) {
    forall k :: OneMore(retries, retries', keys, k)
  }

  ghost predicate OneMore(retries: map<string, nat>, retries': map<string, nat>, keys: seq<string>, k: string) {
    RetryCount(retries', k) == RetryCount(retries, k) + (if k in keys then 1 else 0)
  }

  lemma CountNext(retries: map<string, nat>, retries': map<string, nat>, keys: seq<string>, key: string)
    requires CountedOnce(retries, retries', keys) && key !in keys
    ensures CountedOnce(retries, retries'[key := RetryCount(retries', key) + 1], keys + [key])
  {
    var (next, more) := (retries'[key := RetryCount(retries', key) + 1], keys + [key]);
    forall k ensures OneMore(retries, next, more, k) {
      assert OneMore(retries, retries', keys, k);
    }
  }

  /** Every pending agent's count goes up by one, and those that reach the bound fail. */
  method Retry(s: State, maxRetries: nat) returns (s': State)
    requires Distinct(s.pending)
    ensures s'.results == s.results && s'.calls == s.calls && s'.pending == []
    ensures s'.failed == s.failed + ExhaustedOf(s.pending, s.retries, maxRetries)
    ensures forall k :: RetryCount(s'.retries, k) == RetryCount(s.retries, k) + (if k in s.pending then 1 else 0)
  {
    var retries: map<string, nat> := s.retries;
    var failed := s.failed;
    for n := 0 to |s.pending|
      invariant failed == s.failed + ExhaustedOf(s.pending[..n], s.retries, maxRetries)
      invariant CountedOnce(s.retries, retries, s.pending[..n])
    {
      var key := s.pending[n];
      assert s.pending[..n + 1][..n] == s.pending[..n];
      assert key !in s.pending[..n];
      var attempt := RetryCount(retries, key) + 1;
      assert OneMore(s.retries, retries, s.pending[..n], key);
      CountNext(s.retries, retries, s.pending[..n], key);
      assert s.pending[..n + 1] == s.pending[..n] + [key];
      retries := retries[key := attempt];
      if attempt >= maxRetries {
        failed := failed + [AgentFailure(key, Exhausted, attempt)];
      }
    }
    assert s.pending[..|s.pending|] == s.pending;
    forall k ensures RetryCount(retries, k) == RetryCount(s.retries, k) + (if k in s.pending then 1 else 0) {
      assert OneMore(s.retries, retries, s.pending, k);
    }
    s' := s.(retries := retries, failed := failed, pending := []);
  }

  // ---------------------------------------------------------------- a round keeps the invariant

  /** Each agent of a pass ends up as a result, a failure or pending. */
  lemma {:induction false} OutcomesSplit(targets: seq<string>, runner: Runner, p: nat)
    ensures multiset(ResultKeys(ResultsOf(targets, runner, p))) + multiset(FailedKeys(PermanentOf(targets, runner, p)))
            + multiset(TransientOf(targets, runner, p)) == multiset(targets)
  {
    if targets != [] {
      var (before, key) := (targets[..|targets| - 1], targets[|targets| - 1]);
      OutcomesSplit(before, runner, p);
      assert targets == before + [key];
      OutcomeOf(before, key, runner, p);
    }
  }

  lemma OutcomeOf(before: seq<string>, key: string, runner: Runner, p: nat)
    ensures var o := runner(key, p);
      && ResultKeys(ResultsOf(before + [key], runner, p)) == ResultKeys(ResultsOf(before, runner, p))
        + (if o.Success? then [key] else [])
      && FailedKeys(PermanentOf(before + [key], runner, p))
         == FailedKeys(PermanentOf(before, runner, p)) + (if o.Permanent? || o.TimedOut? then [key] else [])
      && TransientOf(before + [key], runner, p) == TransientOf(before, runner, p)
        + (if o == Transient then [key] else [])
  {
    assert (before + [key])[..|before|] == before;
  }

  lemma AfterNext(runner: Runner, maxRetries: nat, key: string, p: nat)
    ensures After(runner, maxRetries, key, p + 1) ==
      var before := After(runner, maxRetries, key, p);
      var o := runner(key, p);
      if before != Waiting then before
      else if o.Success? then Finished(o.findings)
      else if o == Transient then (if p + 1 >= maxRetries then Failed(Exhausted, p + 1) else Waiting)
      else Failed(CauseOf(o), p + 1)
  {}

  /** The entries a pass adds are the ones each agent would get alone. */
  lemma {:induction false} ResultsRecorded(targets: seq<string>, runner: Runner, maxRetries: nat, p: nat)
    requires forall i :: 0 <= i < |targets| ==> After(runner, maxRetries, targets[i], p) == Waiting
    ensures RightResults(runner, maxRetries, p + 1, ResultsOf(targets, runner, p))
  {
    if targets != [] {
      var key := targets[|targets| - 1];
      ResultsRecorded(targets[..|targets| - 1], runner, maxRetries, p);
      AfterNext(runner, maxRetries, key, p);
    }
  }

  lemma {:induction false} FailuresRecorded(targets: seq<string>, runner: Runner, maxRetries: nat, p: nat)
    requires forall i :: 0 <= i < |targets| ==> After(runner, maxRetries, targets[i], p) == Waiting
    ensures RightFailures(runner, maxRetries, p + 1, PermanentOf(targets, runner, p))
  {
    if targets != [] {
      var key := targets[|targets| - 1];
      FailuresRecorded(targets[..|targets| - 1], runner, maxRetries, p);
      AfterNext(runner, maxRetries, key, p);
    }
  }

  lemma {:induction false} PendingAre(targets: seq<string>, runner: Runner, p: nat)
    ensures var t := TransientOf(targets, runner, p);
      && (forall i :: 0 <= i < |t| ==> t[i] in targets && runner(t[i], p) == Transient)
      && (forall i :: 0 <= i < |targets| && runner(targets[i], p) == Transient ==> targets[i] in t)
      && (Distinct(targets) ==> Distinct(t))
  {
    if targets != [] {
      var n := |targets| - 1;
      PendingAre(targets[..n], runner, p);
      assert Distinct(targets) ==> Distinct(targets[..n]);
      assert targets == targets[..n] + [targets[n]];
      assert Distinct(targets) ==> forall i :: 0 <= i < n ==> targets[i] != targets[n];
    }
  }

  /** Who is pending either exhausts its retries or is a target of the next round. */
  lemma {:induction false} PendingSplit(pending: seq<string>, retries: map<string, nat>, maxRetries: nat, p: nat)
    requires forall i :: 0 <= i < |pending| ==> RetryCount(retries, pending[i]) == p
    ensures var fs := ExhaustedOf(pending, retries, maxRetries);
      && (p + 1 < maxRetries ==> fs == [])
      && (p + 1 >= maxRetries ==> FailedKeys(fs) == pending)
      && forall i :: 0 <= i < |fs| ==> fs[i].key in pending && fs[i].cause == Exhausted && fs[i].attempts == p + 1
  {
    if pending != [] {
      var n := |pending| - 1;
      PendingSplit(pending[..n], retries, maxRetries, p);
      assert pending == pending[..n] + [pending[n]];
    }
  }

  lemma {:induction false} NextTargets(plan: seq<string>, runner: Runner, maxRetries: nat, p: nat)
    ensures Targets(plan, runner, maxRetries, p + 1)
            == if p + 1 < maxRetries then TransientOf(Targets(plan, runner, maxRetries, p), runner, p) else []
  {
    if plan != [] {
      var n := |plan| - 1;
      NextTargets(plan[..n], runner, maxRetries, p);
      AfterNext(runner, maxRetries, plan[n], p);
      var t := Targets(plan[..n], runner, maxRetries, p);
      if After(runner, maxRetries, plan[n], p) == Waiting {
        assert Targets(plan, runner, maxRetries, p) == t + [plan[n]];
        assert (t + [plan[n]])[..|t|] == t;
      } else {
        assert Targets(plan, runner, maxRetries, p) == t;
      }
    }
  }

  /** `s'` follows `s` by a fan-out pass and the retry node. */
  ghost predicate Round(plan: seq<string>, runner: Runner, maxRetries: nat, s: State, p: nat, s': State) {
    var mid := FannedOut(s, Targets(plan, runner, maxRetries, p), runner, p);
    && s'.results == mid.results && s'.calls == mid.calls && s'.pending == []
    && s'.failed == mid.failed + ExhaustedOf(mid.pending, mid.retries, maxRetries)
    && forall k :: RetryCount(s'.retries, k) == RetryCount(mid.retries, k) + (if k in mid.pending then 1 else 0)
  }

  lemma OldEntriesStay(runner: Runner, maxRetries: nat, s: State, p: nat)
    requires Recorded(runner, maxRetries, s, p)
    ensures Recorded(runner, maxRetries, s, p + 1)
  {
    forall r | r in s.results ensures RightResult(runner, maxRetries, p + 1, r) {
      DecidedStays(runner, maxRetries, r.key, p, p + 1);
    }
    forall f | f in s.failed ensures RightFailure(runner, maxRetries, p + 1, f) {
      DecidedStays(runner, maxRetries, f.key, p, p + 1);
    }
  }

  /** The agents pending after a pass, and their retry counts. */
  lemma PendingFacts(plan: seq<string>, runner: Runner, maxRetries: nat, s: State, p: nat)
    requires Before(plan, runner, maxRetries, s, p) && Distinct(plan)
    ensures var pending := TransientOf(Targets(plan, runner, maxRetries, p), runner, p);
      && Distinct(pending)
      && forall i :: 0 <= i < |pending| ==>
          && RetryCount(s.retries, pending[i]) == p && pending[i] in plan
          && After(runner, maxRetries, pending[i], p) == Waiting && runner(pending[i], p) == Transient
  {
    var t := Targets(plan, runner, maxRetries, p);
    TargetsAre(plan, runner, maxRetries, p);
    EachRanBefore(plan, runner, maxRetries, s, p);
    PendingAre(t, runner, p);
    var pending := TransientOf(t, runner, p);
    forall i | 0 <= i < |pending|
      ensures RetryCount(s.retries, pending[i]) == p && pending[i] in plan
              && After(runner, maxRetries, pending[i], p) == Waiting && runner(pending[i], p) == Transient
    {
      var j :| 0 <= j < |t| && t[j] == pending[i];
    }
  }

  lemma ExhaustedRecorded(plan: seq<string>, runner: Runner, maxRetries: nat, s: State, p: nat)
    requires Before(plan, runner, maxRetries, s, p) && Distinct(plan)
    ensures var pending := TransientOf(Targets(plan, runner, maxRetries, p), runner, p);
      RightFailures(runner, maxRetries, p + 1, ExhaustedOf(pending, s.retries, maxRetries))
  {
    var pending := TransientOf(Targets(plan, runner, maxRetries, p), runner, p);
    PendingFacts(plan, runner, maxRetries, s, p);
    ExhaustedRight(pending, s.retries, runner, maxRetries, p);
  }

  lemma ExhaustedRight(pending: seq<string>, retries: map<string, nat>, runner: Runner, maxRetries: nat, p: nat)
    requires forall i :: 0 <= i < |pending| ==>
      RetryCount(retries, pending[i]) == p && After(runner, maxRetries, pending[i], p) == Waiting
        && runner(pending[i], p) == Transient
    ensures RightFailures(runner, maxRetries, p + 1, ExhaustedOf(pending, retries, maxRetries))
  {
    PendingSplit(pending, retries, maxRetries, p);
    forall f | f in ExhaustedOf(pending, retries, maxRetries) ensures RightFailure(runner, maxRetries, p + 1, f) {
      assert f.key in pending;
      AfterNext(runner, maxRetries, f.key, p);
    }
  }

  lemma FailuresConcat(runner: Runner, maxRetries: nat, p: nat, a: seq<AgentFailure>, b: seq<AgentFailure>)
    requires RightFailures(runner, maxRetries, p, a) && RightFailures(runner, maxRetries, p, b)
    ensures RightFailures(runner, maxRetries, p, a + b)
  {}

  lemma ResultsConcat(runner: Runner, maxRetries: nat, p: nat, a: seq<AgentResult>, b: seq<AgentResult>)
    requires RightResults(runner, maxRetries, p, a) && RightResults(runner, maxRetries, p, b)
    ensures RightResults(runner, maxRetries, p, a + b)
  {}

  lemma RecordedKept(plan: seq<string>, runner: Runner, maxRetries: nat, s: State, p: nat, s': State)
    requires Before(plan, runner, maxRetries, s, p) && Distinct(plan) && Round(plan, runner, maxRetries, s, p, s')
    ensures Recorded(runner, maxRetries, s', p + 1)
  {
    var t := Targets(plan, runner, maxRetries, p);
    var (rs, fs) := (ResultsOf(t, runner, p), PermanentOf(t, runner, p));
    var gone := ExhaustedOf(TransientOf(t, runner, p), s.retries, maxRetries);
    TargetsAre(plan, runner, maxRetries, p);
    OldEntriesStay(runner, maxRetries, s, p);
    ResultsRecorded(t, runner, maxRetries, p);
    ResultsConcat(runner, maxRetries, p + 1, s.results, rs);
    FailuresRecorded(t, runner, maxRetries, p);
    FailuresConcat(runner, maxRetries, p + 1, s.failed, fs);
    ExhaustedRecorded(plan, runner, maxRetries, s, p);
    FailuresConcat(runner, maxRetries, p + 1, s.failed + fs, gone);
  }

  /** What becomes of the waiting agents: the pending ones are exhausted or the next targets. */
  lemma PendingAccounted(plan: seq<string>, runner: Runner, maxRetries: nat, s: State, p: nat)
    requires Before(plan, runner, maxRetries, s, p) && Distinct(plan)
    ensures var pending := TransientOf(Targets(plan, runner, maxRetries, p), runner, p);
      multiset(FailedKeys(ExhaustedOf(pending, s.retries, maxRetries)))
        + multiset(Targets(plan, runner, maxRetries, p + 1))
      == multiset(pending)
  {
    var pending := TransientOf(Targets(plan, runner, maxRetries, p), runner, p);
    PendingFacts(plan, runner, maxRetries, s, p);
    PendingSplit(pending, s.retries, maxRetries, p);
    NextTargets(plan, runner, maxRetries, p);
  }

  lemma KeysConcat(s: State, rs: seq<AgentResult>, fs: seq<AgentFailure>, gone: seq<AgentFailure>)
    ensures multiset(ResultKeys(s.results + rs)) == multiset(ResultKeys(s.results)) + multiset(ResultKeys(rs))
    ensures multiset(FailedKeys(s.failed + fs + gone))
            == multiset(FailedKeys(s.failed)) + multiset(FailedKeys(fs)) + multiset(FailedKeys(gone))
  {
    assert ResultKeys(s.results + rs) == ResultKeys(s.results) + ResultKeys(rs);
    assert FailedKeys(s.failed + fs + gone) == FailedKeys(s.failed) + FailedKeys(fs) + FailedKeys(gone);
  }

  lemma AccountedKept(plan: seq<string>, runner: Runner, maxRetries: nat, s: State, p: nat, s': State)
    requires Before(plan, runner, maxRetries, s, p) && Distinct(plan) && Round(plan, runner, maxRetries, s, p, s')
    ensures Accounted(plan, runner, maxRetries, s', p + 1)
  {
    var t := Targets(plan, runner, maxRetries, p);
    var pending := TransientOf(t, runner, p);
    OutcomesSplit(t, runner, p);
    PendingAccounted(plan, runner, maxRetries, s, p);
    KeysConcat(s, ResultsOf(t, runner, p), PermanentOf(t, runner, p), ExhaustedOf(pending, s.retries, maxRetries));
  }

  lemma DistinctCount(keys: seq<string>, key: string)
    requires Distinct(keys)
    ensures multiset(keys)[key] == if key in keys then 1 else 0
  {
    Ordering.OnceIn((k: string) => k, keys, key);
    assert key in keys <==> key in multiset(keys);
  }

  lemma CountedKept(plan: seq<string>, runner: Runner, maxRetries: nat, s: State, p: nat, s': State, key: string)
    requires Before(plan, runner, maxRetries, s, p) && Distinct(plan) && Round(plan, runner, maxRetries, s, p, s')
    requires key in plan
    ensures RetryCount(s'.retries, key) == Transients(runner, maxRetries, key, p + 1)
    ensures multiset(s'.calls)[key] == Runs(runner, maxRetries, key, p + 1)
  {
    var t := Targets(plan, runner, maxRetries, p);
    var pending := TransientOf(t, runner, p);
    TargetsAre(plan, runner, maxRetries, p);
    DistinctCount(t, key);
    PendingAre(t, runner, p);
    assert key in multiset(plan);
    assert multiset(s'.calls)[key] == multiset(s.calls)[key] + multiset(t)[key];
    if key in t {
      assert runner(key, p) == Transient <==> key in pending;
    }
  }

  /** Every round keeps each agent where it would stand alone. */
  lemma RoundKeeps(plan: seq<string>, runner: Runner, maxRetries: nat, s: State, p: nat, s': State)
    requires Before(plan, runner, maxRetries, s, p) && Distinct(plan) && Round(plan, runner, maxRetries, s, p, s')
    ensures Before(plan, runner, maxRetries, s', p + 1)
  {
    RecordedKept(plan, runner, maxRetries, s, p, s');
    AccountedKept(plan, runner, maxRetries, s, p, s');
    forall k | k in multiset(plan)
      ensures RetryCount(s'.retries, k) == Transients(runner, maxRetries, k, p + 1)
              && multiset(s'.calls)[k] == Runs(runner, maxRetries, k, p + 1)
    {
      CountedKept(plan, runner, maxRetries, s, p, s', k);
    }
  }

  // ---------------------------------------------------------------- the whole run

  /** Everything recorded about one agent is its verdict when run alone. */
  ghost predicate SettledAgent(runner: Runner, maxRetries: nat, s: State, key: string) {
    var v := Verdict(runner, maxRetries, key);
    && (key in ResultKeys(s.results) <==> v.Finished?)
    && (key in FailedKeys(s.failed) <==> v.Failed?)
    && (v.Finished? ==> AgentResult(key, v.findings) in s.results)
    && (v.Failed? ==> AgentFailure(key, v.cause, v.attempts) in s.failed)
    && RetryCount(s.retries, key) == Transients(runner, maxRetries, key, Limit(maxRetries))
    && multiset(s.calls)[key] == Runs(runner, maxRetries, key, Limit(maxRetries))
  }

  ghost predicate Settled(plan: seq<string>, runner: Runner, maxRetries: nat, s: State) {
    && multiset(ResultKeys(s.results)) + multiset(FailedKeys(s.failed)) == multiset(plan)
    && forall k :: k in multiset(plan) ==> SettledAgent(runner, maxRetries, s, k)
  }

  /** Nothing changes between a round without waiting agents and the round limit. */
  lemma VerdictIs(runner: Runner, maxRetries: nat, key: string, p: nat)
    requires After(runner, maxRetries, key, p) != Waiting
    ensures After(runner, maxRetries, key, p) == Verdict(runner, maxRetries, key)
    ensures Runs(runner, maxRetries, key, p) == Runs(runner, maxRetries, key, Limit(maxRetries))
    ensures Transients(runner, maxRetries, key, p) == Transients(runner, maxRetries, key, Limit(maxRetries))
  {
    var limit := Limit(maxRetries);
    if p <= limit {
      DecidedStays(runner, maxRetries, key, p, limit);
    } else {
      VerdictReached(runner, maxRetries, key, limit);
      DecidedStays(runner, maxRetries, key, limit, p);
    }
  }

  lemma EntryOfResult(runner: Runner, maxRetries: nat, s: State, p: nat, key: string)
    requires Recorded(runner, maxRetries, s, p)
    ensures key in ResultKeys(s.results) ==>
      var a := After(runner, maxRetries, key, p);
      a.Finished? && AgentResult(key, a.findings) in s.results
  {
    if i :| 0 <= i < |s.results| && ResultKeys(s.results)[i] == key {
      assert s.results[i] in s.results && RightResult(runner, maxRetries, p, s.results[i]);
    }
  }

  lemma EntryOfFailure(runner: Runner, maxRetries: nat, s: State, p: nat, key: string)
    requires Recorded(runner, maxRetries, s, p)
    ensures key in FailedKeys(s.failed) ==>
      var a := After(runner, maxRetries, key, p);
      a.Failed? && AgentFailure(key, a.cause, a.attempts) in s.failed
  {
    if i :| 0 <= i < |s.failed| && FailedKeys(s.failed)[i] == key {
      assert s.failed[i] in s.failed && RightFailure(runner, maxRetries, p, s.failed[i]);
    }
  }

  lemma AgentSettles(plan: seq<string>, runner: Runner, maxRetries: nat, s: State, p: nat, key: string)
    requires Before(plan, runner, maxRetries, s, p) && key in plan && After(runner, maxRetries, key, p) != Waiting
    ensures SettledAgent(runner, maxRetries, s, key)
  {
    UnfinishedIff(plan, runner, maxRetries, s, p, key);
    EntryOfResult(runner, maxRetries, s, p, key);
    EntryOfFailure(runner, maxRetries, s, p, key);
    VerdictIs(runner, maxRetries, key, p);
    assert key in multiset(plan);
  }

  /** When a pass leaves nobody pending, everything is settled. */
  lemma LastPassSettles(plan: seq<string>, runner: Runner, maxRetries: nat, s: State, p: nat)
    requires Before(plan, runner, maxRetries, s, p) && Distinct(plan)
    requires TransientOf(Targets(plan, runner, maxRetries, p), runner, p) == []
    ensures Settled(plan, runner, maxRetries, FannedOut(s, Targets(plan, runner, maxRetries, p), runner, p))
  {
    var last := FannedOut(s, Targets(plan, runner, maxRetries, p), runner, p);
    assert last.failed + [] == last.failed;
    RoundKeeps(plan, runner, maxRetries, s, p, last);
    NextTargets(plan, runner, maxRetries, p);
    TargetsAre(plan, runner, maxRetries, p + 1);
    forall k | k in multiset(plan) ensures SettledAgent(runner, maxRetries, last, k) {
      assert k in plan;
      AgentSettles(plan, runner, maxRetries, last, p + 1, k);
    }
  }

  /** Someone is pending only while rounds remain. */
  lemma PendingMeansRoundsLeft(plan: seq<string>, runner: Runner, maxRetries: nat, s: State, p: nat)
    requires Before(plan, runner, maxRetries, s, p) && Distinct(plan)
    requires TransientOf(Targets(plan, runner, maxRetries, p), runner, p) != []
    ensures p < Limit(maxRetries)
  {
    PendingFacts(plan, runner, maxRetries, s, p);
    WaitingRanEveryRound(runner, maxRetries, TransientOf(Targets(plan, runner, maxRetries, p), runner, p)[0], p);
  }

  lemma EmptyStart(plan: seq<string>, runner: Runner, maxRetries: nat)
    ensures Before(plan, runner, maxRetries, State([], [], map[], [], []), 0)
  {
    AllWaiting(plan, runner, maxRetries);
  }

  lemma {:induction false} AllWaiting(plan: seq<string>, runner: Runner, maxRetries: nat)
    ensures Targets(plan, runner, maxRetries, 0) == plan
  {
    if plan != [] {
      AllWaiting(plan[..|plan| - 1], runner, maxRetries);
    }
  }

  /**
    The graph terminates for every runner, and every agent ends as it would alone, however
    the others behave. The review is COMPLETE exactly when no agent's verdict is a failure.
   */
  method RunGraph(plan: seq<string>, runner: Runner, maxRetries: nat) returns (s: State, terminal: Terminal)
    requires Distinct(plan)
    ensures Settled(plan, runner, maxRetries, s)
    ensures terminal == Complete <==> forall i :: 0 <= i < |plan| ==> Verdict(runner, maxRetries, plan[i]).Finished?
  {
    ghost var (start, p) := (State([], [], map[], [], []), 0);
    EmptyStart(plan, runner, maxRetries);
    s := FanOut(plan, runner, State([], [], map[], [], []), maxRetries, 0);
    while s.pending != []
      invariant Before(plan, runner, maxRetries, start, p)
      invariant s == FannedOut(start, Targets(plan, runner, maxRetries, p), runner, p)
      decreases Limit(maxRetries) - p
    {
      PendingMeansRoundsLeft(plan, runner, maxRetries, start, p);
      PendingFacts(plan, runner, maxRetries, start, p);
      var next := Retry(s, maxRetries);
      RoundKeeps(plan, runner, maxRetries, start, p, next);
      start, p := next, p + 1;
      s := FanOut(plan, runner, next, maxRetries, p);
    }
    LastPassSettles(plan, runner, maxRetries, start, p);
    CompleteIff(plan, runner, maxRetries, s);
    terminal := if s.failed == [] then Complete else FailedTerminal;
  }

  lemma CompleteIff(plan: seq<string>, runner: Runner, maxRetries: nat, s: State)
    requires Settled(plan, runner, maxRetries, s)
    ensures s.failed == [] <==> forall i :: 0 <= i < |plan| ==> Verdict(runner, maxRetries, plan[i]).Finished?
  {
    forall i | 0 <= i < |plan|
      ensures SettledAgent(runner, maxRetries, s, plan[i]) && Verdict(runner, maxRetries, plan[i]) != Waiting {
      assert plan[i] in multiset(plan);
      VerdictReached(runner, maxRetries, plan[i], Limit(maxRetries));
    }
    if s.failed != [] {
      var key := FailedKeys(s.failed)[0];
      assert key in multiset(FailedKeys(s.failed));
      assert key in multiset(plan);
      var i :| 0 <= i < |plan| && plan[i] == key;
    }
  }

  // ---------------------------------------------------------------- task rows

  datatype TaskRow = TaskRow(key: string, succeeded: bool, retryCount: nat, lastError: Option<Cause>)

  function ResultFor(results: seq<AgentResult>, key: string): (r: Option<AgentResult>)
    ensures r.Some? ==> r.value in results && r.value.key == key
    ensures r.None? ==> key !in ResultKeys(results)
  {
    if results == [] then None
    else if results[0].key == key then Some(results[0])
    else ResultFor(results[1..], key)
  }

  function FailureFor(failed: seq<AgentFailure>, key: string): (r: Option<AgentFailure>)
    ensures r.Some? ==> r.value in failed && r.value.key == key
    ensures r.None? ==> key !in FailedKeys(failed)
  {
    if failed == [] then None
    else if failed[0].key == key then Some(failed[0])
    else FailureFor(failed[1..], key)
  }

  /** The row of one planned agent, from its verdict alone. */
  function RowOf(runner: Runner, maxRetries: nat, key: string): TaskRow {
    var v := Verdict(runner, maxRetries, key);
    TaskRow(key, v.Finished?, Transients(runner, maxRetries, key, Limit(maxRetries)), if v.Failed? then Some(v.cause)
            else None)
  }

  function FindingsOf(plan: seq<string>, runner: Runner, maxRetries: nat): seq<string> {
    if plan == [] then []
    else
      var v := Verdict(runner, maxRetries, plan[|plan| - 1]);
      FindingsOf(plan[..|plan| - 1], runner, maxRetries) + (if v.Finished? then v.findings else [])
  }

  /** Each key has one result or one failure. */
  lemma EntriesUnique(plan: seq<string>, runner: Runner, maxRetries: nat, s: State)
    requires Distinct(plan) && Settled(plan, runner, maxRetries, s)
    ensures Distinct(ResultKeys(s.results)) && Distinct(FailedKeys(s.failed))
  {
    CountsToDistinct(plan, ResultKeys(s.results), FailedKeys(s.failed));
    CountsToDistinct(plan, FailedKeys(s.failed), ResultKeys(s.results));
  }

  lemma CountsToDistinct(plan: seq<string>, keys: seq<string>, others: seq<string>)
    requires Distinct(plan) && multiset(keys) + multiset(others) == multiset(plan)
    ensures Distinct(keys)
  {
    forall i, j | 0 <= i < j < |keys| ensures keys[i] != keys[j] {
      if keys[i] == keys[j] {
        Ordering.TwiceIn(keys, i, j);
        DistinctCount(plan, keys[i]);
      }
    }
  }

  /** One row per planned agent in plan order, and the findings of the agents that finished, in the same order. */
  method PersistTasks(plan: seq<string>, s: State, ghost runner: Runner, ghost maxRetries: nat)
    returns (rows: seq<TaskRow>, findings: seq<string>)
    requires Distinct(plan) && Settled(plan, runner, maxRetries, s)
    ensures |rows| == |plan| && forall i :: 0 <= i < |rows| ==> rows[i] == RowOf(runner, maxRetries, plan[i])
    ensures findings == FindingsOf(plan, runner, maxRetries)
    ensures forall i :: 0 <= i < |rows| ==>
      Shown(s, plan[i], rows[i])
  {
    rows, findings := [], [];
    for n := 0 to |plan|
      invariant |rows| == n && forall i :: 0 <= i < n ==> rows[i] == RowOf(runner, maxRetries, plan[i])
      invariant findings == FindingsOf(plan[..n], runner, maxRetries)
    {
      var key := plan[n];
      assert plan[..n + 1][..n] == plan[..n];
      var (success, failure) := (ResultFor(s.results, key), FailureFor(s.failed, key));
      RowIs(plan, runner, maxRetries, s, key);
      rows := rows + [TaskRow(key, success.Some?, RetryCount(s.retries, key),
                              if failure.Some? then Some(failure.value.cause) else None)];
      if success.Some? {
        findings := findings + success.value.findings;
      }
    }
    assert plan[..|plan|] == plan;
    RowsAreShown(plan, runner, maxRetries, s, rows);
  }

  lemma RowsAreShown(plan: seq<string>, runner: Runner, maxRetries: nat, s: State, rows: seq<TaskRow>)
    requires Distinct(plan) && Settled(plan, runner, maxRetries, s)
    requires |rows| == |plan| && forall i :: 0 <= i < |rows| ==> rows[i] == RowOf(runner, maxRetries, plan[i])
    ensures forall i :: 0 <= i < |rows| ==> Shown(s, plan[i], rows[i])
  {
    forall i | 0 <= i < |rows| ensures Shown(s, plan[i], rows[i]) {
      RowIs(plan, runner, maxRetries, s, plan[i]);
      RowIsShown(plan, runner, maxRetries, s, plan[i], rows[i]);
    }
  }

  lemma RowIs(plan: seq<string>, runner: Runner, maxRetries: nat, s: State, key: string)
    requires Distinct(plan) && Settled(plan, runner, maxRetries, s) && key in plan
    ensures var (success, failure) := (ResultFor(s.results, key), FailureFor(s.failed, key));
            var v := Verdict(runner, maxRetries, key);
            && (if v.Finished? then success == Some(AgentResult(key, v.findings)) else success == None)
            && (if v.Failed? then failure == Some(AgentFailure(key, v.cause, v.attempts)) else failure == None)
            && RetryCount(s.retries, key) == Transients(runner, maxRetries, key, Limit(maxRetries))
  {
    assert key in multiset(plan);
    EntriesUnique(plan, runner, maxRetries, s);
    assert SettledAgent(runner, maxRetries, s, key);
  }

  /** The row tells what is recorded of the agent. */
  ghost predicate Shown(s: State, key: string, row: TaskRow) {
    && row.key == key
    && (row.succeeded <==> key in ResultKeys(s.results))
    && (row.lastError.Some? <==> key in FailedKeys(s.failed))
    && (forall f :: f in s.failed && f.key == key ==> row.lastError == Some(f.cause))
  }

  /** A row shows what the state records of its agent. */
  lemma RowShows(plan: seq<string>, runner: Runner, maxRetries: nat, s: State, key: string)
    requires Distinct(plan) && Settled(plan, runner, maxRetries, s) && key in plan
    ensures ResultFor(s.results, key).Some? <==> key in ResultKeys(s.results)
    ensures FailureFor(s.failed, key).Some? <==> key in FailedKeys(s.failed)
    ensures forall f :: f in s.failed && f.key == key ==> FailureFor(s.failed, key) == Some(f)
  {
    EntriesUnique(plan, runner, maxRetries, s);
    FailureIs(s.failed, key);
    if ResultFor(s.results, key).Some? {
      var i :| 0 <= i < |s.results| && s.results[i] == ResultFor(s.results, key).value;
      assert ResultKeys(s.results)[i] == key;
    }
  }

  lemma RowIsShown(plan: seq<string>, runner: Runner, maxRetries: nat, s: State, key: string, row: TaskRow)
    requires Distinct(plan) && Settled(plan, runner, maxRetries, s) && key in plan
    requires
      var failure := FailureFor(s.failed, key);
      && row.key == key && row.succeeded == ResultFor(s.results, key).Some?
      && row.lastError == if failure.Some? then Some(failure.value.cause) else None
    ensures Shown(s, key, row)
  {
    RowShows(plan, runner, maxRetries, s, key);
  }

  lemma FailureIs(failed: seq<AgentFailure>, key: string)
    requires Distinct(FailedKeys(failed))
    ensures FailureFor(failed, key).Some? <==> key in FailedKeys(failed)
    ensures forall f :: f in failed && f.key == key ==> FailureFor(failed, key) == Some(f)
  {
    var found := FailureFor(failed, key);
    if found.Some? {
      var i :| 0 <= i < |failed| && failed[i] == found.value;
      assert FailedKeys(failed)[i] == key;
      forall f | f in failed && f.key == key ensures f == found.value {
        var j :| 0 <= j < |failed| && failed[j] == f;
        assert FailedKeys(failed)[j] == key;
      }
    } else {
      forall f | f in failed ensures f.key != key {
        var j :| 0 <= j < |failed| && failed[j] == f;
        assert FailedKeys(failed)[j] == f.key;
      }
    }
  }
}
