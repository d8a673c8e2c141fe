/**
  "Never double-post": when it holds and how it breaks. While no live attempt outlasts the stale
  window, a review can be posted again exactly as long as one of its findings is still scheduled.
  So it is posted at most once unless the answer to a POST is lost or marking the findings fails.
 */
module PostOnce {
  import opened Common
  import opened Records
  import opened Protocol
  import opened ProtocolSafety
  import opened NothingLost

  // ---------------------------------------------------------------- at most once

  /** This step neither loses the answer to an accepted POST nor fails to mark the posted findings. */
  predicate CleanStep(s: State, l: Label) {
    l.Act? && l.attempt < |s.attempts| && s.attempts[l.attempt].Holding? && !l.how.Done? ==>
      var stage := s.attempts[l.attempt].stage;
      !TakesEffect(stage, l.how) && !stage.Recording?
  }

  ghost predicate AlwaysClean(cfg: Config, s: State, labels: seq<Label>) {
    forall n :: 0 <= n < |labels| ==> CleanStep(Run(cfg, s, labels[..n]), labels[n])
  }

  predicate AboutToPost(a: Attempt) {
    a.Holding? && (a.stage.Posting? || a.stage.Degrading?)
  }

  predicate IsRecording(a: Attempt) {
    a.Holding? && a.stage.Recording?
  }

  /** Nothing is left to post and nobody is about to. */
  ghost predicate Finished(cfg: Config, s: State) {
    && NoneScheduled(cfg.reviewId, s.rows)
    && forall k :: 0 <= k < |s.attempts| ==> !AboutToPost(s.attempts[k])
  }

  /** Once posted, the poster is marking the findings or all of them are marked. */
  ghost predicate Settled(cfg: Config, s: State) {
    && |s.posts| <= 1
    && (s.posts != [] ==>
          Finished(cfg, s) || exists k :: 0 <= k < |s.attempts| && IsRecording(s.attempts[k]))
  }

  lemma NothingToRead(rows: seq<Row>, reviewId: string)
    ensures Payload(rows, reviewId) == [] <==> NoneScheduled(reviewId, rows)
  {
    if Payload(rows, reviewId) != [] {
      var row := Payload(rows, reviewId)[0];
      PayloadMember(rows, reviewId, row);
      var i :| 0 <= i < |rows| && rows[i] == row;
    }
    if i :| 0 <= i < |rows| && IsScheduled(rows[i], reviewId) {
      PayloadMember(rows, reviewId, rows[i]);
    }
  }

  lemma {:induction false} MarkOneSchedulesNone(rows: seq<Row>, rid: string, id: string, commentId: Option<int>)
    requires NoneScheduled(rid, rows)
    ensures NoneScheduled(rid, MarkOne(rows, rid, id, commentId))
  {
    if rows != [] && !(rows[0].id == id && rows[0].reviewId == rid) {
      MarkOneSchedulesNone(rows[1..], rid, id, commentId);
    }
  }

  lemma {:induction false} MarkAllSchedulesNone(rows: seq<Row>, rid: string, updates: seq<Update>)
    requires NoneScheduled(rid, rows)
    ensures NoneScheduled(rid, MarkAll(rows, rid, updates))
  {
    if updates != [] {
      var (front, last) := (updates[..|updates| - 1], updates[|updates| - 1]);
      MarkAllSchedulesNone(rows, rid, front);
      MarkOneSchedulesNone(MarkAll(rows, rid, front), rid, last.id, last.commentId);
    }
  }

  /** A finished review stays finished, and nothing more is posted. */
  lemma FinishedStep(cfg: Config, s: State, l: Label)
    requires Finished(cfg, s)
    ensures Finished(cfg, Next(cfg, s, l)) && Next(cfg, s, l).posts == s.posts
  {
    NothingToRead(s.rows, cfg.reviewId);
    if l.Act? && l.attempt < |s.attempts| && IsRecording(s.attempts[l.attempt]) {
      MarkAllSchedulesNone(s.rows, cfg.reviewId, Updates(s.attempts[l.attempt].stage.post));
    }
  }

  /** While the only holder is recording its post, no other attempt moves on. */
  lemma RecordingStep(cfg: Config, s: State, l: Label, k: nat, before: seq<Row>)
    requires Exclusive(s) && Exclusive(Next(cfg, s, l)) && CleanStep(s, l)
    requires Sound(cfg, before, Next(cfg, s, l))
    requires k < |s.attempts| && IsRecording(s.attempts[k])
    ensures Next(cfg, s, l).posts == s.posts
    ensures IsRecording(Next(cfg, s, l).attempts[k]) || Finished(cfg, Next(cfg, s, l))
  {
    var t := Next(cfg, s, l);
    if l.Act? && l.attempt == k {
      assert t.attempts[k].Holding? && t.attempts[k].stage.Closing?;
      assert StageSound(cfg, before, t.rows, t.posts, t.attempts[k].stage);
      assert forall j :: 0 <= j < |t.attempts| && j != k ==> !t.attempts[j].Holding?;
    } else {
      assert t.attempts[k] == s.attempts[k];
      assert l.Act? && l.attempt < |s.attempts| ==> !s.attempts[l.attempt].Holding?;
    }
  }

  lemma SettledStep(cfg: Config, s: State, l: Label, before: seq<Row>)
    requires Exclusive(s) && Exclusive(Next(cfg, s, l)) && CleanStep(s, l) && Settled(cfg, s)
    requires Sound(cfg, before, Next(cfg, s, l))
    ensures Settled(cfg, Next(cfg, s, l))
  {
    var t := Next(cfg, s, l);
    if s.posts != [] {
      if k :| 0 <= k < |s.attempts| && IsRecording(s.attempts[k]) {
        RecordingStep(cfg, s, l, k, before);
      } else {
        FinishedStep(cfg, s, l);
      }
    } else if t.posts != [] {
      assert IsRecording(t.attempts[l.attempt]);
    }
  }

  /** Over every prompt, clean run a review is posted at most once, whatever else fails. */
  lemma {:induction false} PostedAtMostOnce(cfg: Config, s: State, labels: seq<Label>, n: nat)
    requires Initial(cfg, s) && n <= |labels|
    requires AlwaysPrompt(cfg, s, labels) && AlwaysClean(cfg, s, labels)
    ensures Settled(cfg, Run(cfg, s, labels[..n]))
    ensures |Run(cfg, s, labels[..n]).posts| <= 1
  {
    if n > 0 {
      PostedAtMostOnce(cfg, s, labels, n - 1);
      OneLiveHolder(cfg, s, labels, n - 1);
      OneLiveHolder(cfg, s, labels, n);
      SoundAlways(cfg, s, labels[..n]);
      RunStep(cfg, s, labels, n - 1);
      assert CleanStep(Run(cfg, s, labels[..n - 1]), labels[n - 1]);
      SettledStep(cfg, Run(cfg, s, labels[..n - 1]), labels[n - 1], s.rows);
    }
  }

  // ---------------------------------------------------------------- a new attempt posts

  /** The payload names a repository and a pull request to post to. */
  predicate Postable(cfg: Config, rec: Review) {
    IsOwnerAndRepo(FullName(cfg, rec)) && rec.prNumber.Some?
  }

  /** The repository row names the place when it has a name, and the review itself otherwise. */
  lemma PostableIff(cfg: Config, rec: Review)
    ensures
      var known := rec.repositoryId in cfg.repositories && cfg.repositories[rec.repositoryId] != "";
      var name := if known then cfg.repositories[rec.repositoryId] else rec.fullName;
      Postable(cfg, rec) <==>
        && rec.prNumber.Some?
        && exists owner, repo :: '/' !in owner && owner != "" && repo != "" && name == owner + "/" + repo
  {
    OwnerAndRepoIff(FullName(cfg, rec));
  }

  /** The labels of a new attempt `m` that claims, reads the payload and posts it. */
  function Attempting(m: nat, reply: Reply): seq<Label> {
    [Start(0), Act(m, Done, reply)] + [Act(m, Done, reply), Act(m, Done, reply)]
  }

  /** The first half: the attempt starts and is granted the claim. */
  lemma AttemptClaims(cfg: Config, s: State, reply: Reply)
    requires Claimable(s.review, s.clock - cfg.staleAfter)
    ensures
      var m := |s.attempts|;
      Run(cfg, s, [Start(0), Act(m, Done, reply)])
      == s.(review := Claimed(s.review, s.clock), granted := s.granted + {m},
            attempts := s.attempts + [Holding(s.clock, s.clock, Reading)])
  {
    var (m, l) := (|s.attempts|, Act(|s.attempts|, Done, reply));
    RunTwo(cfg, s, Start(0), l);
    var started := s.(attempts := s.attempts + [Starting(s.clock)]);
    assert Next(cfg, s, Start(0)) == started;
    assert Next(cfg, started, l) == Claim(cfg, started, m, s.clock);
    assert started.attempts[m := Holding(s.clock, s.clock, Reading)] == s.attempts
      + [Holding(s.clock, s.clock, Reading)];
  }

  /** The second half: the last attempt reads the payload and posts it. */
  lemma AttemptReadsAndPosts(cfg: Config, s: State, others: seq<Attempt>, a: Attempt, reply: Reply)
    requires a.Holding? && a.stage == Reading && s.attempts == others + [a]
    requires Payload(s.rows, cfg.reviewId) != [] && Postable(cfg, s.review)
    ensures
      var (m, findings) := (|others|, Payload(s.rows, cfg.reviewId));
      var post := Post(m, Inline(findings, cfg.capacity), Body(findings, cfg.capacity), reply);
      Run(cfg, s, [Act(m, Done, reply), Act(m, Done, reply)])
      == s.(posts := s.posts + [post], attempts := others + [a.(stage := Recording(post))])
  {
    var (step, findings) := (Act(|others|, Done, reply), Payload(s.rows, cfg.reviewId));
    RunTwo(cfg, s, step, step);
    assert Next(cfg, s, step) == s.(attempts := others + [a.(stage := Posting(findings))]);
  }

  /** A new attempt on a claimable review posts the scheduled findings. */
  lemma NewAttemptPosts(cfg: Config, s: State, reply: Reply)
    requires Claimable(s.review, s.clock - cfg.staleAfter)
    requires Payload(s.rows, cfg.reviewId) != [] && Postable(cfg, s.review)
    ensures
      var (m, findings) := (|s.attempts|, Payload(s.rows, cfg.reviewId));
      var post := Post(m, Inline(findings, cfg.capacity), Body(findings, cfg.capacity), reply);
      Run(cfg, s, Attempting(m, reply))
      == s.(review := Claimed(s.review, s.clock), granted := s.granted + {m}, posts := s.posts + [post],
            attempts := s.attempts + [Holding(s.clock, s.clock, Recording(post))])
  {
    var step := Act(|s.attempts|, Done, reply);
    RunConcat(cfg, s, [Start(0), step], [step, step]);
    AttemptClaims(cfg, s, reply);
    var claimed := Run(cfg, s, [Start(0), step]);
    assert Postable(cfg, claimed.review) by {
      assert FullName(cfg, claimed.review) == FullName(cfg, s.review);
    }
    AttemptReadsAndPosts(cfg, claimed, s.attempts, Holding(s.clock, s.clock, Reading), reply);
  }

  // ---------------------------------------------------------------- posted again

  lemma PromptOne(cfg: Config, s: State, l: Label)
    requires Prompt(cfg, s) && Prompt(cfg, Next(cfg, s, l))
    ensures AlwaysPrompt(cfg, s, [l])
  {
    RunOne(cfg, s, l);
    assert [l][..0] == [] && [l][..1] == [l];
  }

  lemma PromptConcat(cfg: Config, s: State, a: seq<Label>, b: seq<Label>)
    requires AlwaysPrompt(cfg, s, a) && AlwaysPrompt(cfg, Run(cfg, s, a), b)
    ensures AlwaysPrompt(cfg, s, a + b)
  {
    forall n | 0 <= n <= |a + b| ensures Prompt(cfg, Run(cfg, s, (a + b)[..n])) {
      if n <= |a| {
        assert (a + b)[..n] == a[..n];
      } else {
        assert (a + b)[..n] == a + b[..n - |a|];
        RunConcat(cfg, s, a, b[..n - |a|]);
      }
    }
  }

  lemma PromptTwo(cfg: Config, s: State, l: Label, l': Label)
    requires Prompt(cfg, s) && Prompt(cfg, Next(cfg, s, l)) && Prompt(cfg, Next(cfg, Next(cfg, s, l), l'))
    ensures AlwaysPrompt(cfg, s, [l, l'])
  {
    PromptOne(cfg, s, l);
    PromptOne(cfg, Next(cfg, s, l), l');
    RunOne(cfg, s, l);
    PromptConcat(cfg, s, [l], [l']);
    assert [l] + [l'] == [l, l'];
  }

  ghost predicate NoHolder(s: State) {
    forall k :: 0 <= k < |s.attempts| ==> !s.attempts[k].Holding?
  }

  lemma AttemptIsPrompt(cfg: Config, s: State, reply: Reply)
    requires NoHolder(s) && 0 < cfg.staleAfter
    ensures AlwaysPrompt(cfg, s, Attempting(|s.attempts|, reply))
  {
    var step := Act(|s.attempts|, Done, reply);
    PromptTwo(cfg, s, Start(0), step);
    RunTwo(cfg, s, Start(0), step);
    var claimed := Run(cfg, s, [Start(0), step]);
    PromptTwo(cfg, claimed, step, step);
    PromptConcat(cfg, s, [Start(0), step], [step, step]);
  }

  /** A continuation after which the holder, if there is one, is gone and its claim is stale. */
  lemma ClaimRunsOut(cfg: Config, s: State, reply: Reply) returns (more: seq<Label>)
    requires Exclusive(s) && Prompt(cfg, s) && 0 < cfg.staleAfter
    ensures AlwaysPrompt(cfg, s, more)
    ensures
      var t := Run(cfg, s, more);
      NoHolder(t) && t == s.(clock := s.clock + cfg.staleAfter, attempts := t.attempts)
  {
    var tick := Tick(cfg.staleAfter);
    if k :| 0 <= k < |s.attempts| && s.attempts[k].Holding? {
      var crash := Act(k, Crash(false), reply);
      more := [crash, tick];
      assert forall j :: 0 <= j < |s.attempts| && j != k ==> !s.attempts[j].Holding?;
      PromptTwo(cfg, s, crash, tick);
      RunTwo(cfg, s, crash, tick);
    } else {
      more := [tick];
      PromptOne(cfg, s, tick);
      RunOne(cfg, s, tick);
    }
  }

  /** As long as a finding is scheduled, some prompt continuation posts the review once more. */
  lemma PostedAgain(cfg: Config, s: State, labels: seq<Label>, reply: Reply) returns (more: seq<Label>)
    requires Initial(cfg, s) && AlwaysPrompt(cfg, s, labels) && 0 < cfg.staleAfter
    requires
      var r := Run(cfg, s, labels);
      Postable(cfg, r.review) && Payload(r.rows, cfg.reviewId) != []
    ensures
      var r := Run(cfg, s, labels);
      AlwaysPrompt(cfg, r, more) && |Run(cfg, r, more).posts| == |r.posts| + 1
  {
    var r := Run(cfg, s, labels);
    assert labels[..|labels|] == labels;
    OneLiveHolder(cfg, s, labels, |labels|);
    RecoverableAlways(cfg, s, labels);
    SoundAlways(cfg, s, labels);
    NothingToRead(r.rows, cfg.reviewId);
    var wait := ClaimRunsOut(cfg, r, reply);
    var t := Run(cfg, r, wait);
    NewAttemptPosts(cfg, t, reply);
    AttemptIsPrompt(cfg, t, reply);
    more := wait + Attempting(|t.attempts|, reply);
    PromptConcat(cfg, r, wait, Attempting(|t.attempts|, reply));
    RunConcat(cfg, r, wait, Attempting(|t.attempts|, reply));
  }

  lemma PostableKept(cfg: Config, s: State, l: Label)
    ensures Postable(cfg, Next(cfg, s, l).review) == Postable(cfg, s.review)
  {
  }

  /** Whoever is about to post has something to post, and somewhere to post it. */
  ghost predicate Aligned(cfg: Config, s: State) {
    forall k :: 0 <= k < |s.attempts| && AboutToPost(s.attempts[k]) ==>
      Postable(cfg, s.review) && !NoneScheduled(cfg.reviewId, s.rows)
  }

  /** The review stays postable, and only recording a post changes rows. */
  lemma RowsKept(cfg: Config, s: State, l: Label)
    ensures Postable(cfg, Next(cfg, s, l).review) == Postable(cfg, s.review)
    ensures !(l.Act? && l.attempt < |s.attempts| && IsRecording(s.attempts[l.attempt])) ==>
      Next(cfg, s, l).rows == s.rows
  {
    PostableKept(cfg, s, l);
  }

  /** Who is about to post after a step already was, or has just read the payload. */
  lemma NewPoster(cfg: Config, s: State, l: Label, k: nat)
    requires k < |Next(cfg, s, l).attempts| && AboutToPost(Next(cfg, s, l).attempts[k])
    ensures k < |s.attempts|
    ensures AboutToPost(s.attempts[k]) || (Postable(cfg, s.review) && Payload(s.rows, cfg.reviewId) != [])
    ensures l.Act? && l.attempt != k ==> AboutToPost(s.attempts[k])
    ensures l.Act? && l.attempt == k ==> !IsRecording(s.attempts[k])
  {
  }

  lemma AlignedStep(cfg: Config, s: State, l: Label)
    requires Exclusive(s) && Aligned(cfg, s)
    ensures Aligned(cfg, Next(cfg, s, l))
  {
    var t := Next(cfg, s, l);
    NothingToRead(s.rows, cfg.reviewId);
    RowsKept(cfg, s, l);
    forall k | 0 <= k < |t.attempts| && AboutToPost(t.attempts[k])
      ensures Postable(cfg, t.review) && !NoneScheduled(cfg.reviewId, t.rows)
    {
      NewPoster(cfg, s, l, k);
      assert !(l.Act? && l.attempt < |s.attempts| && IsRecording(s.attempts[l.attempt]));
    }
  }

  lemma {:induction false} AlignedAlways(cfg: Config, s: State, labels: seq<Label>, n: nat)
    requires Initial(cfg, s) && AlwaysPrompt(cfg, s, labels) && n <= |labels|
    ensures Aligned(cfg, Run(cfg, s, labels[..n]))
  {
    if n > 0 {
      AlignedAlways(cfg, s, labels, n - 1);
      OneLiveHolder(cfg, s, labels, n - 1);
      RunStep(cfg, s, labels, n - 1);
      AlignedStep(cfg, Run(cfg, s, labels[..n - 1]), labels[n - 1]);
    }
  }

  /** Nobody is about to post, and nobody can be. */
  ghost predicate Quiet(cfg: Config, s: State) {
    && (forall k :: 0 <= k < |s.attempts| ==> !AboutToPost(s.attempts[k]))
    && (NoneScheduled(cfg.reviewId, s.rows) || !Postable(cfg, s.review))
  }

  lemma QuietStep(cfg: Config, s: State, l: Label)
    requires Quiet(cfg, s)
    ensures Quiet(cfg, Next(cfg, s, l)) && Next(cfg, s, l).posts == s.posts
  {
    if NoneScheduled(cfg.reviewId, s.rows) {
      FinishedStep(cfg, s, l);
    } else {
      PostableKept(cfg, s, l);
    }
  }

  lemma {:induction false} QuietAlways(cfg: Config, s: State, more: seq<Label>)
    requires Quiet(cfg, s)
    ensures Quiet(cfg, Run(cfg, s, more)) && Run(cfg, s, more).posts == s.posts
  {
    if more != [] {
      QuietAlways(cfg, s, more[..|more| - 1]);
      QuietStep(cfg, Run(cfg, s, more[..|more| - 1]), more[|more| - 1]);
    }
  }

  /** Some prompt continuation brings a further accepted post. */
  ghost predicate CanPostAgain(cfg: Config, r: State) {
    exists more :: AlwaysPrompt(cfg, r, more) && |Run(cfg, r, more).posts| > |r.posts|
  }

  /**
    Exactly when a review can be posted again: after any prompt run, some prompt continuation posts it
    once more if and only if a finding is still scheduled and the payload names a place to post to.
   */
  lemma CanPostAgainIff(cfg: Config, s: State, labels: seq<Label>)
    requires Initial(cfg, s) && AlwaysPrompt(cfg, s, labels) && 0 < cfg.staleAfter
    ensures
      var r := Run(cfg, s, labels);
      CanPostAgain(cfg, r) <==> Payload(r.rows, cfg.reviewId) != [] && Postable(cfg, r.review)
  {
    var r := Run(cfg, s, labels);
    assert labels[..|labels|] == labels;
    AlignedAlways(cfg, s, labels, |labels|);
    NothingToRead(r.rows, cfg.reviewId);
    if Payload(r.rows, cfg.reviewId) != [] && Postable(cfg, r.review) {
      var more := PostedAgain(cfg, s, labels, Reply(0, []));
      assert CanPostAgain(cfg, r);
    } else if more :| AlwaysPrompt(cfg, r, more) && |Run(cfg, r, more).posts| > |r.posts| {
      assert Quiet(cfg, r);
      QuietAlways(cfg, r, more);
    }
  }

  // ---------------------------------------------------------------- two posts

  /** What the handler of `publish_review` does when marking raises: it releases the claim. */
  lemma HandlerReleases(cfg: Config, s: State, k: nat, reply: Reply)
    requires k < |s.attempts| && IsRecording(s.attempts[k])
    requires s.review.status == Some(Publishing)
    ensures Run(cfg, s, [Act(k, Broken(false), reply), Act(k, Done, reply)])
            == s.(review := Released(s.review, s.clock), attempts := s.attempts[k := Ended])
  {
    RunTwo(cfg, s, Act(k, Broken(false), reply), Act(k, Done, reply));
    var failed := Next(cfg, s, Act(k, Broken(false), reply));
    assert failed == s.(attempts := s.attempts[k := s.attempts[k].(stage := Releasing(false))]);
    assert failed.attempts[k := Ended] == s.attempts[k := Ended];
  }

  /** The handler's steps of attempt `k`, then a new attempt `m`. */
  function HandlerThenAttempt(k: nat, m: nat, reply: Reply): seq<Label> {
    [Act(k, Broken(false), reply), Act(k, Done, reply)] + Attempting(m, reply)
  }

  /** When marking raises after an accepted post, the next attempt posts the scheduled findings again. */
  lemma StoreFailureReposts(cfg: Config, s: State, k: nat, reply: Reply)
    requires k < |s.attempts| && IsRecording(s.attempts[k])
    requires s.review.status == Some(Publishing)
    requires Payload(s.rows, cfg.reviewId) != [] && Postable(cfg, s.review)
    ensures
      var (m, findings) := (|s.attempts|, Payload(s.rows, cfg.reviewId));
      Run(cfg, s, HandlerThenAttempt(k, m, reply)).posts
      == s.posts + [Post(m, Inline(findings, cfg.capacity), Body(findings, cfg.capacity), reply)]
  {
    HandlerReleases(cfg, s, k, reply);
    var released := s.(review := Released(s.review, s.clock), attempts := s.attempts[k := Ended]);
    assert FullName(cfg, released.review) == FullName(cfg, s.review);
    NewAttemptPosts(cfg, released, reply);
    RunConcat(cfg, s, [Act(k, Broken(false), reply), Act(k, Done, reply)], Attempting(|s.attempts|, reply));
  }

  /** From every start with something to post, one failure while marking leads to two posts of the same findings. */
  lemma PostedTwiceReachable(cfg: Config, s: State, reply: Reply)
    requires Initial(cfg, s) && Payload(s.rows, cfg.reviewId) != [] && Postable(cfg, s.review)
    ensures
      var findings := Payload(s.rows, cfg.reviewId);
      var (inline, body) := (Inline(findings, cfg.capacity), Body(findings, cfg.capacity));
      Run(cfg, s, Attempting(0, reply) + HandlerThenAttempt(0, 1, reply)).posts
      == [Post(0, inline, body, reply), Post(1, inline, body, reply)]
  {
    NewAttemptPosts(cfg, s, reply);
    var posted := Run(cfg, s, Attempting(0, reply));
    assert FullName(cfg, posted.review) == FullName(cfg, s.review);
    StoreFailureReposts(cfg, posted, 0, reply);
    RunConcat(cfg, s, Attempting(0, reply), HandlerThenAttempt(0, 1, reply));
  }

  /** No failure is needed when a live attempt outlasts the stale window: both holders post. */
  lemma SlowHolderPostsTwice(cfg: Config, s: State, reply: Reply)
    requires Initial(cfg, s) && 0 <= cfg.staleAfter
    requires Payload(s.rows, cfg.reviewId) != [] && Postable(cfg, s.review)
    ensures
      var findings := Payload(s.rows, cfg.reviewId);
      var (inline, body) := (Inline(findings, cfg.capacity), Body(findings, cfg.capacity));
      Run(cfg, s, Attempting(0, reply) + ([Tick(cfg.staleAfter)] + Attempting(1, reply))).posts
      == [Post(0, inline, body, reply), Post(1, inline, body, reply)]
  {
    NewAttemptPosts(cfg, s, reply);
    var posted := Run(cfg, s, Attempting(0, reply));
    RunOne(cfg, posted, Tick(cfg.staleAfter));
    var later := Next(cfg, posted, Tick(cfg.staleAfter));
    assert FullName(cfg, later.review) == FullName(cfg, s.review);
    NewAttemptPosts(cfg, later, reply);
    RunConcat(cfg, posted, [Tick(cfg.staleAfter)], Attempting(1, reply));
    RunConcat(cfg, s, Attempting(0, reply), [Tick(cfg.staleAfter)] + Attempting(1, reply));
  }
}
