/**
  `ratelimit.py`: a sliding-window limiter that keeps a pruned list of approvals per bucket, proved
  against a limiter that forgets nothing.
 */
module RateLimiter {
  /** A bucket and the key counted in it. */
  datatype Pair = Pair(bucket: string, key: string)

  datatype Answer = Approved | Refused | UnknownBucket

  datatype Call = Call(now: real, pairs: seq<Pair>)

  /** The approval times of each pair; a missing pair has none. */
  type Log = map<Pair, seq<real>>

  function Times(log: Log, p: Pair): seq<real> {
    if p in log then log[p] else []
  }

  // ---------------------------------------------------------------- the limiter that forgets nothing

  /** The times after `cutoff`. */
  function Live(times: seq<real>, cutoff: real): seq<real> {
    if times == [] then []
    else
      var n := |times| - 1;
      Live(times[..n], cutoff) + (if times[n] > cutoff then [times[n]] else [])
  }

  /** Pairs are looked at in order; the first that is unknown or full decides. */
  function Decide(log: Log, caps: map<string, int>, cutoff: real, pairs: seq<Pair>): Answer {
    if pairs == [] then Approved
    else
      var p := pairs[0];
      if p.bucket !in caps then UnknownBucket
      else if |Live(Times(log, p), cutoff)| >= caps[p.bucket] then Refused
      else Decide(log, caps, cutoff, pairs[1..])
  }

  function Record(log: Log, pairs: seq<Pair>, now: real): Log {
    if pairs == [] then log
    else
      var (before, p) := (Record(log, pairs[..|pairs| - 1], now), pairs[|pairs| - 1]);
      before[p := Times(before, p) + [now]]
  }

  /** All approvals so far. */
  function Approvals(calls: seq<Call>, caps: map<string, int>, window: real): Log {
    if calls == [] then map[]
    else
      var (before, c) := (Approvals(calls[..|calls| - 1], caps, window), calls[|calls| - 1]);
      if Decide(before, caps, c.now - window, c.pairs) == Approved then Record(before, c.pairs, c.now) else before
  }

  /** `p` has used up its cap after `cutoff`. */
  predicate Full(log: Log, caps: map<string, int>, cutoff: real, p: Pair) {
    p.bucket in caps && |Live(Times(log, p), cutoff)| >= caps[p.bucket]
  }

  predicate HasRoom(log: Log, caps: map<string, int>, cutoff: real, p: Pair) {
    p.bucket in caps && !Full(log, caps, cutoff, p)
  }

  /** The `i`-th pair is full and every earlier one is known and has room. */
  ghost predicate Blocks(log: Log, caps: map<string, int>, cutoff: real, pairs: seq<Pair>, i: nat) {
    i < |pairs| && Full(log, caps, cutoff, pairs[i]) && forall j :: 0 <= j < i ==> HasRoom(log, caps, cutoff, pairs[j])
  }

  /** A call passes exactly when every pair is known and has room, and is refused exactly when one really is full. */
  lemma {:induction false} DecideIff(log: Log, caps: map<string, int>, cutoff: real, pairs: seq<Pair>)
    ensures Decide(log, caps, cutoff, pairs) == Approved <==>
      forall i :: 0 <= i < |pairs| ==> HasRoom(log, caps, cutoff, pairs[i])
    ensures Decide(log, caps, cutoff, pairs) == Refused <==> exists i :: Blocks(log, caps, cutoff, pairs, i)
  {
    if pairs != [] {
      var rest := pairs[1..];
      DecideIff(log, caps, cutoff, rest);
      if HasRoom(log, caps, cutoff, pairs[0]) {
        if i: nat :| Blocks(log, caps, cutoff, pairs, i) {
          assert Blocks(log, caps, cutoff, rest, i - 1);
        }
        if i: nat :| Blocks(log, caps, cutoff, rest, i) {
          assert forall j :: 1 <= j < i + 1 ==> pairs[j] == rest[j - 1];
          assert Blocks(log, caps, cutoff, pairs, i + 1);
        }
        assert forall i :: 0 <= i < |rest| ==> rest[i] == pairs[i + 1];
      } else if Full(log, caps, cutoff, pairs[0]) {
        assert Blocks(log, caps, cutoff, pairs, 0);
      }
    }
  }

  // ---------------------------------------------------------------- the pruned lists

  ghost predicate Rising(times: seq<real>) {
    forall i, j :: 0 <= i <= j < |times| ==> times[i] <= times[j]
  }

  /** `kept` is what is left of `all` after dropping some oldest times, all up to `cutoff`. */
  ghost predicate Pruned(kept: seq<real>, all: seq<real>, cutoff: real) {
    && |kept| <= |all| && kept == all[|all| - |kept|..]
    && forall i :: 0 <= i < |all| - |kept| ==> all[i] <= cutoff
  }

  /** Pruning the oldest times leaves exactly the live ones. */
  lemma {:induction false} LiveIsSuffix(all: seq<real>, n: nat, cutoff: real)
    requires n <= |all|
    requires forall i :: 0 <= i < n ==> all[i] <= cutoff
    requires forall i :: n <= i < |all| ==> all[i] > cutoff
    ensures Live(all, cutoff) == all[n..]
  {
    if all != [] {
      var last := |all| - 1;
      if n <= last {
        LiveIsSuffix(all[..last], n, cutoff);
        assert all[n..] == all[..last][n..] + [all[last]];
      } else {
        LiveIsSuffix(all[..last], last, cutoff);
      }
    }
  }

  method Prune(events: seq<real>, cutoff: real, ghost all: seq<real>) returns (kept: seq<real>)
    requires Rising(all) && Pruned(events, all, cutoff)
    ensures kept == Live(all, cutoff) && Pruned(kept, all, cutoff)
  {
    kept := events;
    while kept != [] && kept[0] <= cutoff
      invariant Pruned(kept, all, cutoff)
      decreases |kept|
    {
      assert all[|all| - |kept|] == kept[0];
      kept := kept[1..];
    }
    ghost var n := |all| - |kept|;
    assert kept != [] ==> kept[0] == all[n];
    LiveIsSuffix(all, n, cutoff);
  }

  // ---------------------------------------------------------------- approval times

  ghost predicate Chronological(calls: seq<Call>) {
    forall i, j :: 0 <= i < j < |calls| ==> calls[i].now <= calls[j].now
  }

  ghost predicate RisingUpTo(times: seq<real>, now: real) {
    Rising(times) && forall i :: 0 <= i < |times| ==> times[i] <= now
  }

  ghost predicate RisingAt(log: Log, now: real, p: Pair) {
    RisingUpTo(Times(log, p), now)
  }

  ghost predicate RisingTo(log: Log, now: real) {
    forall p :: RisingAt(log, now, p)
  }

  lemma {:induction false} RecordRises(log: Log, pairs: seq<Pair>, now: real, p: Pair)
    requires RisingAt(log, now, p)
    ensures RisingAt(Record(log, pairs, now), now, p)
  {
    if pairs != [] {
      RecordRises(log, pairs[..|pairs| - 1], now, p);
    }
  }

  lemma {:induction false} ApprovalsRise(calls: seq<Call>, caps: map<string, int>, window: real, now: real)
    requires Chronological(calls) && (calls != [] ==> calls[|calls| - 1].now <= now)
    ensures RisingTo(Approvals(calls, caps, window), now)
  {
    if calls != [] {
      var (before, c) := (calls[..|calls| - 1], calls[|calls| - 1]);
      ApprovalsRise(before, caps, window, c.now);
      var log := Approvals(before, caps, window);
      forall p ensures RisingAt(Approvals(calls, caps, window), now, p) {
        RecordRises(log, c.pairs, c.now, p);
      }
    }
  }

  // ---------------------------------------------------------------- the limiter

  ghost predicate PrunedAt(hits: Log, log: Log, cutoff: real, p: Pair) {
    Pruned(Times(hits, p), Times(log, p), cutoff)
  }

  /** Every pruned list is a live suffix of the full one. */
  ghost predicate InStep(hits: Log, log: Log, cutoff: real) {
    forall p :: PrunedAt(hits, log, cutoff, p)
  }

  lemma TimesPut(log: Log, p: Pair, times: seq<real>, q: Pair)
    ensures Times(log[p := times], q) == if q == p then times else Times(log, q)
  {}

  lemma PrunedSnoc(kept: seq<real>, all: seq<real>, cutoff: real, now: real)
    requires Pruned(kept, all, cutoff)
    ensures Pruned(kept + [now], all + [now], cutoff)
  {}

  lemma {:induction false} RecordKeepsPruned(hits: Log, log: Log, cutoff: real, pairs: seq<Pair>, now: real, p: Pair)
    requires PrunedAt(hits, log, cutoff, p)
    ensures PrunedAt(Record(hits, pairs, now), Record(log, pairs, now), cutoff, p)
  {
    if pairs != [] {
      var (before, q) := (pairs[..|pairs| - 1], pairs[|pairs| - 1]);
      RecordKeepsPruned(hits, log, cutoff, before, now, p);
      var (h, l) := (Record(hits, before, now), Record(log, before, now));
      TimesPut(h, q, Times(h, q) + [now], p);
      TimesPut(l, q, Times(l, q) + [now], p);
      PrunedSnoc(Times(h, p), Times(l, p), cutoff, now);
    }
  }

  lemma RecordKeepsStep(hits: Log, log: Log, cutoff: real, pairs: seq<Pair>, now: real)
    requires InStep(hits, log, cutoff)
    ensures InStep(Record(hits, pairs, now), Record(log, pairs, now), cutoff)
  {
    forall p ensures PrunedAt(Record(hits, pairs, now), Record(log, pairs, now), cutoff, p) {
      RecordKeepsPruned(hits, log, cutoff, pairs, now, p);
    }
  }

  /** The list of `p` is exactly the part of its history after `cutoff`. */
  ghost predicate Exact(hits: Log, log: Log, cutoff: real, p: Pair) {
    Times(hits, p) == Live(Times(log, p), cutoff)
  }

  lemma {:induction false} RecordKeepsExact(hits: Log, log: Log, cutoff: real, pairs: seq<Pair>, now: real, p: Pair)
    requires Exact(hits, log, cutoff, p) && now > cutoff
    ensures Exact(Record(hits, pairs, now), Record(log, pairs, now), cutoff, p)
  {
    if pairs != [] {
      var before := pairs[..|pairs| - 1];
      RecordKeepsExact(hits, log, cutoff, before, now, p);
      var all := Times(Record(log, before, now), p);
      assert (all + [now])[..|all|] == all;
    }
  }

  /** The lists after pruning those of `pairs`. */
  ghost function PrunedAll(hits: Log, log: Log, cutoff: real, pairs: seq<Pair>): Log {
    if pairs == [] then hits
    else
      var p := pairs[|pairs| - 1];
      PrunedAll(hits, log, cutoff, pairs[..|pairs| - 1])[p := Live(Times(log, p), cutoff)]
  }

  lemma {:induction false} LiveIsPruned(times: seq<real>, cutoff: real)
    requires Rising(times)
    ensures Pruned(Live(times, cutoff), times, cutoff)
  {
    if times != [] {
      var n := |times| - 1;
      LiveIsPruned(times[..n], cutoff);
      if times[n] <= cutoff {
        assert Live(times[..n], cutoff) != [] ==> Live(times[..n], cutoff)[0] <= cutoff;
        LiveIsSuffix(times, n + 1, cutoff);
      }
    }
  }

  /** Pruning makes the lists of the pairs exact and leaves every list a live suffix. */
  lemma {:induction false} PrunedAllFacts(hits: Log, log: Log, cutoff: real, pairs: seq<Pair>, q: Pair)
    requires PrunedAt(hits, log, cutoff, q) && Rising(Times(log, q))
    ensures PrunedAt(PrunedAll(hits, log, cutoff, pairs), log, cutoff, q)
    ensures q in pairs ==> Exact(PrunedAll(hits, log, cutoff, pairs), log, cutoff, q)
  {
    if pairs != [] {
      var (before, p) := (pairs[..|pairs| - 1], pairs[|pairs| - 1]);
      PrunedAllFacts(hits, log, cutoff, before, q);
      TimesPut(PrunedAll(hits, log, cutoff, before), p, Live(Times(log, p), cutoff), q);
      if q == p {
        LiveIsPruned(Times(log, q), cutoff);
      } else {
        assert q in pairs ==> q in before;
      }
    }
  }

  lemma PrunedAllInStep(hits: Log, log: Log, cutoff: real, pairs: seq<Pair>, now: real)
    requires InStep(hits, log, cutoff) && RisingTo(log, now)
    ensures InStep(PrunedAll(hits, log, cutoff, pairs), log, cutoff)
    ensures forall i :: 0 <= i < |pairs| ==> Exact(PrunedAll(hits, log, cutoff, pairs), log, cutoff, pairs[i])
  {
    forall q ensures PrunedAt(PrunedAll(hits, log, cutoff, pairs), log, cutoff, q) {
      assert PrunedAt(hits, log, cutoff, q) && RisingAt(log, now, q);
      PrunedAllFacts(hits, log, cutoff, pairs, q);
    }
    forall i | 0 <= i < |pairs| ensures Exact(PrunedAll(hits, log, cutoff, pairs), log, cutoff, pairs[i]) {
      assert PrunedAt(hits, log, cutoff, pairs[i]) && RisingAt(log, now, pairs[i]);
      PrunedAllFacts(hits, log, cutoff, pairs, pairs[i]);
    }
  }

  /** What pruning one more list needs. */
  lemma PruneReady(hits: Log, log: Log, cutoff: real, done: seq<Pair>, now: real, p: Pair)
    requires InStep(hits, log, cutoff) && RisingTo(log, now)
    ensures Rising(Times(log, p)) && Pruned(Times(PrunedAll(hits, log, cutoff, done), p), Times(log, p), cutoff)
  {
    assert RisingAt(log, now, p) && PrunedAt(hits, log, cutoff, p);
    PrunedAllFacts(hits, log, cutoff, done, p);
    assert PrunedAt(PrunedAll(hits, log, cutoff, done), log, cutoff, p);
  }

  lemma RecordAllExact(hits: Log, log: Log, cutoff: real, pairs: seq<Pair>, now: real)
    requires now > cutoff && forall i :: 0 <= i < |pairs| ==> Exact(hits, log, cutoff, pairs[i])
    ensures forall i :: 0 <= i < |pairs| ==> Exact(Record(hits, pairs, now), Record(log, pairs, now), cutoff, pairs[i])
  {
    forall i | 0 <= i < |pairs| ensures Exact(Record(hits, pairs, now), Record(log, pairs, now), cutoff, pairs[i]) {
      RecordKeepsExact(hits, log, cutoff, pairs, now, pairs[i]);
    }
  }

  /** The lists belong to the history `calls`, as of its last call. */
  ghost predicate InSync(hits: Log, calls: seq<Call>, caps: map<string, int>, window: real) {
    && Chronological(calls)
    && (calls == [] ==> hits == map[])
    && (calls != [] ==> InStep(hits, Approvals(calls, caps, window), calls[|calls| - 1].now - window))
  }

  lemma InSyncSnoc(hits: Log, calls: seq<Call>, c: Call, caps: map<string, int>, window: real)
    requires Chronological(calls) && (calls != [] ==> calls[|calls| - 1].now <= c.now)
    requires InStep(hits, Approvals(calls + [c], caps, window), c.now - window)
    ensures InSync(hits, calls + [c], caps, window)
  {
    assert (calls + [c])[|calls + [c]| - 1] == c;
  }

  /** What a call records. */
  ghost function Outcome(log: Log, c: Call, caps: map<string, int>, window: real): Log {
    if Decide(log, caps, c.now - window, c.pairs) == Approved then Record(log, c.pairs, c.now) else log
  }

  /** The pruned lists lag behind the clock only by times that are over by now. */
  lemma StepAt(hits: Log, calls: seq<Call>, caps: map<string, int>, window: real, now: real)
    requires InSync(hits, calls, caps, window) && (calls != [] ==> calls[|calls| - 1].now <= now)
    ensures InStep(hits, Approvals(calls, caps, window), now - window)
    ensures RisingTo(Approvals(calls, caps, window), now)
  {
    var (log, cutoff) := (Approvals(calls, caps, window), now - window);
    ApprovalsRise(calls, caps, window, now);
    forall p ensures PrunedAt(hits, log, cutoff, p) {
      if calls != [] {
        assert PrunedAt(hits, log, calls[|calls| - 1].now - window, p);
      }
    }
  }

  lemma ApprovalsSnoc(calls: seq<Call>, c: Call, caps: map<string, int>, window: real)
    ensures Approvals(calls + [c], caps, window) == Outcome(Approvals(calls, caps, window), c, caps, window)
  {
    assert (calls + [c])[..|calls|] == calls;
  }

  /** A call as the pruned limiter makes it: prune, decide, record. */
  ghost function Stepped(hits: Log, log: Log, c: Call, caps: map<string, int>, window: real): Log {
    var pruned := PrunedAll(hits, log, c.now - window, c.pairs);
    if Decide(log, caps, c.now - window, c.pairs) == Approved then Record(pruned, c.pairs, c.now) else pruned
  }

  lemma StepInStep(hits: Log, log: Log, c: Call, caps: map<string, int>, window: real)
    requires InStep(hits, log, c.now - window) && RisingTo(log, c.now)
    ensures InStep(Stepped(hits, log, c, caps, window), Outcome(log, c, caps, window), c.now - window)
  {
    var cutoff := c.now - window;
    PrunedAllInStep(hits, log, cutoff, c.pairs, c.now);
    RecordKeepsStep(PrunedAll(hits, log, cutoff, c.pairs), log, cutoff, c.pairs, c.now);
  }

  ghost predicate AllExact(hits: Log, log: Log, c: Call, window: real) {
    forall i :: 0 <= i < |c.pairs| ==> Exact(hits, log, c.now - window, c.pairs[i])
  }

  lemma StepExact(hits: Log, log: Log, c: Call, caps: map<string, int>, window: real)
    requires InStep(hits, log, c.now - window) && RisingTo(log, c.now) && window > 0.0
    ensures AllExact(Stepped(hits, log, c, caps, window), Outcome(log, c, caps, window), c, window)
  {
    var cutoff := c.now - window;
    PrunedAllInStep(hits, log, cutoff, c.pairs, c.now);
    RecordAllExact(PrunedAll(hits, log, cutoff, c.pairs), log, cutoff, c.pairs, c.now);
  }

  /** One call keeps the lists in step with the history, and exact for the pairs it asked for. */
  lemma StepKeeps(hits: Log, calls: seq<Call>, c: Call, caps: map<string, int>, window: real)
    requires InSync(hits, calls, caps, window) && (calls != [] ==> calls[|calls| - 1].now <= c.now)
    ensures
      var hits' := Stepped(hits, Approvals(calls, caps, window), c, caps, window);
      && InSync(hits', calls + [c], caps, window)
      && (window > 0.0 ==> AllExact(hits', Approvals(calls + [c], caps, window), c, window))
  {
    var log := Approvals(calls, caps, window);
    var hits' := Stepped(hits, log, c, caps, window);
    StepAt(hits, calls, caps, window, c.now);
    ApprovalsSnoc(calls, c, caps, window);
    assert InSync(hits', calls + [c], caps, window) by {
      StepInStep(hits, log, c, caps, window);
      InSyncSnoc(hits', calls, c, caps, window);
    }
    if window > 0.0 {
      StepExact(hits, log, c, caps, window);
    }
  }

  class MemoryRateLimiter {
    const window: real
    const caps: map<string, int>
    var hits: Log
    /** Every call since the last reset. */
    ghost var calls: seq<Call>

    ghost predicate Valid()
      reads this
    {
    InSync(hits, calls, caps, window)
    }

    constructor (perIpPerMinute: int, perRepoBurst: int, windowSeconds: real)
      ensures Valid() && calls == [] && window == windowSeconds
      ensures caps == map["ip" := perIpPerMinute, "repo" := perRepoBurst]
    {
      window, caps := windowSeconds, map["ip" := perIpPerMinute, "repo" := perRepoBurst];
      hits, calls := map[], [];
    }

    method Reset()
      modifies this
      ensures Valid() && calls == []
    {
      hits, calls := map[], [];
    }

    method PruneAll(pairs: seq<Pair>, now: real, ghost log: Log)
      requires RisingTo(log, now) && InStep(hits, log, now - window)
      modifies this`hits
      ensures hits == PrunedAll(old(hits), log, now - window, pairs)
    {
      for n := 0 to |pairs|
        invariant hits == PrunedAll(old(hits), log, now - window, pairs[..n])
      {
        assert pairs[..n + 1][..n] == pairs[..n];
        var p := pairs[n];
        PruneReady(old(hits), log, now - window, pairs[..n], now, p);
        var kept := Prune(Times(hits, p), now - window, Times(log, p));
        hits := hits[p := kept];
      }
      assert pairs[..|pairs|] == pairs;
    }

    method AllUnderCap(pairs: seq<Pair>, ghost log: Log, ghost cutoff: real) returns (answer: Answer)
      requires forall i :: 0 <= i < |pairs| ==> Exact(hits, log, cutoff, pairs[i])
      ensures answer == Decide(log, caps, cutoff, pairs)
    {
      answer := Approved;
      for n := 0 to |pairs|
        invariant answer == Approved && Decide(log, caps, cutoff, pairs) == Decide(log, caps, cutoff, pairs[n..])
      {
        var p := pairs[n];
        assert Exact(hits, log, cutoff, p) && pairs[n..][1..] == pairs[n + 1..];
        if p.bucket !in caps {
          return UnknownBucket;
        }
        if |Times(hits, p)| >= caps[p.bucket] {
          return Refused;
        }
      }
    }

    /** The two read passes: prune the lists of the pairs, then compare each with its cap. */
    method PruneAndCheck(pairs: seq<Pair>, now: real, ghost log: Log) returns (answer: Answer)
      requires RisingTo(log, now) && InStep(hits, log, now - window)
      modifies this`hits
      ensures hits == PrunedAll(old(hits), log, now - window, pairs)
      ensures answer == Decide(log, caps, now - window, pairs)
    {
      PrunedAllInStep(hits, log, now - window, pairs, now);
      PruneAll(pairs, now, log);
      answer := AllUnderCap(pairs, log, now - window);
    }

    method Append(pairs: seq<Pair>, now: real)
      modifies this`hits
      ensures hits == Record(old(hits), pairs, now)
    {
      for n := 0 to |pairs|
        invariant hits == Record(old(hits), pairs[..n], now)
      {
        assert pairs[..n + 1][..n] == pairs[..n];
        hits := hits[pairs[n] := Times(hits, pairs[n]) + [now]];
      }
      assert pairs[..|pairs|] == pairs;
    }

    /**
      Answers as the limiter that forgets nothing would, and leaves exactly the live approvals of the
      pairs asked for.
     */
    method Allow(now: real, pairs: seq<Pair>) returns (answer: Answer)
      requires Valid() && (calls != [] ==> calls[|calls| - 1].now <= now)
      modifies this
      ensures Valid() && calls == old(calls) + [Call(now, pairs)]
      ensures answer == Decide(Approvals(old(calls), caps, window), caps, now - window, pairs)
      ensures window > 0.0 ==> AllExact(hits, Approvals(calls, caps, window), Call(now, pairs), window)
    {
      ghost var log := Approvals(calls, caps, window);
      StepKeeps(hits, calls, Call(now, pairs), caps, window);
      StepAt(hits, calls, caps, window, now);
      answer := PruneAndCheck(pairs, now, log);
      if answer == Approved {
        Append(pairs, now);
      }
      calls := calls + [Call(now, pairs)];
    }
  }

  // ---------------------------------------------------------------- the sliding window

  ghost predicate DistinctPairs(pairs: seq<Pair>) {
    forall i, j :: 0 <= i < j < |pairs| ==> pairs[i] != pairs[j]
  }

  /** Any approvals less than `window` apart are at most `cap`. */
  ghost predicate Spaced(times: seq<real>, window: real, cap: int) {
    forall i, j :: 0 <= i <= j < |times| && times[j] - times[i] < window ==> j - i + 1 <= cap
  }

  lemma {:induction false} LiveCount(times: seq<real>, i: nat, cutoff: real)
    requires i <= |times| && forall k :: i <= k < |times| ==> times[k] > cutoff
    ensures |Live(times, cutoff)| >= |times| - i
  {
    if i < |times| {
      LiveCount(times[..|times| - 1], i, cutoff);
    }
  }

  lemma SpacedSnoc(times: seq<real>, window: real, cap: int, now: real)
    requires Spaced(times, window, cap) && RisingUpTo(times, now) && |Live(times, now - window)| < cap
    ensures Spaced(times + [now], window, cap)
  {
    var more := times + [now];
    forall i, j | 0 <= i <= j < |more| && more[j] - more[i] < window ensures j - i + 1 <= cap {
      if j == |times| {
        LiveCount(times, i, now - window);
      }
    }
  }

  lemma {:induction false} TimesRecord(log: Log, pairs: seq<Pair>, now: real, p: Pair)
    requires DistinctPairs(pairs)
    ensures Times(Record(log, pairs, now), p) == Times(log, p) + (if p in pairs then [now] else [])
  {
    if pairs != [] {
      var n := |pairs| - 1;
      TimesRecord(log, pairs[..n], now, p);
      assert pairs == pairs[..n] + [pairs[n]];
      assert pairs[n] !in pairs[..n];
    }
  }

  /** Over any run, approvals of one pair less than a window apart never exceed its cap. */
  lemma {:induction false} NeverMoreThanCap(calls: seq<Call>, caps: map<string, int>, window: real, p: Pair)
    requires Chronological(calls) && forall i :: 0 <= i < |calls| ==> DistinctPairs(calls[i].pairs)
    ensures p.bucket in caps ==> Spaced(Times(Approvals(calls, caps, window), p), window, caps[p.bucket])
    ensures p.bucket !in caps ==> Times(Approvals(calls, caps, window), p) == []
  {
    if calls != [] {
      var (before, c) := (calls[..|calls| - 1], calls[|calls| - 1]);
      NeverMoreThanCap(before, caps, window, p);
      ApprovalsRise(before, caps, window, c.now);
      var log := Approvals(before, caps, window);
      if Decide(log, caps, c.now - window, c.pairs) == Approved {
        TimesRecord(log, c.pairs, c.now, p);
        DecideIff(log, caps, c.now - window, c.pairs);
        if p in c.pairs {
          var i :| 0 <= i < |c.pairs| && c.pairs[i] == p;
          assert HasRoom(log, caps, c.now - window, c.pairs[i]);
          assert RisingAt(log, c.now, p);
          SpacedSnoc(Times(log, p), window, caps[p.bucket], c.now);
        }
      }
    }
  }

  /** How many times lie in the window that starts after `from`. */
  function InWindow(times: seq<real>, from: real, window: real): nat {
    if times == [] then 0
    else
      var n := |times| - 1;
      InWindow(times[..n], from, window) + (if from < times[n] <= from + window then 1 else 0)
  }

  lemma {:induction false} WindowCount(times: seq<real>, from: real, window: real, cap: nat)
    requires Rising(times) && Spaced(times, window, cap)
    ensures InWindow(times, from, window) <= cap
  {
    if times != [] {
      var n := |times| - 1;
      if from < times[n] <= from + window {
        WindowEnds(times, from, window, n);
      } else {
        WindowCount(times[..n], from, window, cap);
      }
    }
  }

  /** The times in a window that holds the last one stand at the end, without a gap. */
  lemma {:induction false} WindowEnds(times: seq<real>, from: real, window: real, last: nat)
    requires Rising(times) && last + 1 == |times| && from < times[last] <= from + window
    ensures var k := InWindow(times, from, window); 1 <= k <= |times| && times[last + 1 - k] > from
  {
    if last > 0 && from < times[last - 1] {
      WindowEnds(times[..last], from, window, last - 1);
    } else {
      NoneBefore(times[..last], from, window);
    }
  }

  lemma {:induction false} NoneBefore(times: seq<real>, from: real, window: real)
    requires forall i :: 0 <= i < |times| ==> times[i] <= from
    ensures InWindow(times, from, window) == 0
  {
    if times != [] {
      NoneBefore(times[..|times| - 1], from, window);
    }
  }

  /** Sliding-window theorem: no half-open window of the configured length ever holds more than `cap` approvals. */
  lemma EveryWindowHoldsAtMostCap(calls: seq<Call>, caps: map<string, int>, window: real, p: Pair, from: real)
    requires Chronological(calls) && forall i :: 0 <= i < |calls| ==> DistinctPairs(calls[i].pairs)
    requires p.bucket in caps && 0 <= caps[p.bucket]
    ensures InWindow(Times(Approvals(calls, caps, window), p), from, window) <= caps[p.bucket]
  {
    NeverMoreThanCap(calls, caps, window, p);
    if calls != [] {
      ApprovalsRise(calls, caps, window, calls[|calls| - 1].now);
      assert RisingAt(Approvals(calls, caps, window), calls[|calls| - 1].now, p);
    }
    WindowCount(Times(Approvals(calls, caps, window), p), from, window, caps[p.bucket]);
  }

  /** Without distinct pairs a single call can pass its cap. */
  lemma RepeatedPairOvershoots(window: real, now: real)
    ensures var p := Pair("ip", "a");
      Times(Approvals([Call(now, [p, p])], map["ip" := 1], window), p) == [now, now]
  {
    var (p, caps) := (Pair("ip", "a"), map["ip" := 1]);
    var (c, log) := (Call(now, [p, p]), map[]);
    assert [c][..0] == [] && [p, p][..1] == [p] && [p][..0] == [] && [p, p][1..] == [p] && [p][1..] == [];
    assert Times(log, p) == [] && |Live([], now - window)| == 0;
    assert Decide(log, caps, now - window, [p]) == Approved;
    assert Record(log, [], now) == log;
    assert Times(Record(log, [p], now), p) == [now];
    assert Times(Record(log, [p, p], now), p) == [now, now];
  }
}
