/** Safety of the publication protocol over every run. */
module ProtocolSafety {
  import opened Common
  import opened Records
  import opened Protocol

  // ---------------------------------------------------------------- one live holder

  /** No live attempt has held its claim for the whole stale window. */
  ghost predicate Prompt(cfg: Config, s: State) {
    forall k :: 0 <= k < |s.attempts| && s.attempts[k].Holding? ==>
      s.clock < s.attempts[k].claimTime + cfg.staleAfter
  }

  ghost predicate AlwaysPrompt(cfg: Config, s: State, labels: seq<Label>) {
    forall n :: 0 <= n <= |labels| ==> Prompt(cfg, Run(cfg, s, labels[..n]))
  }

  /** The claim recorded on the review is the one this attempt was granted. */
  predicate Owns(s: State, a: Attempt) {
    a.Holding? ==>
      || (s.review.status == Some(Publishing) && s.review.claimedAt == Some(a.claimTime))
      || (s.review.status == Some(Published) && a.stage.Releasing?)
  }

  ghost predicate AtMostOneHolder(s: State) {
    forall j, k :: 0 <= j < k < |s.attempts| ==> !(s.attempts[j].Holding? && s.attempts[k].Holding?)
  }

  ghost predicate Exclusive(s: State) {
    && AtMostOneHolder(s)
    && (forall k :: 0 <= k < |s.attempts| ==> Owns(s, s.attempts[k]))
    && (forall k :: 0 <= k < |s.attempts| && s.attempts[k].Starting? ==> s.attempts[k].timestamp <= s.clock)
  }

  lemma ExclusiveStep(cfg: Config, s: State, l: Label)
    requires Exclusive(s) && Prompt(cfg, s)
    ensures Exclusive(Next(cfg, s, l))
  {
  }

  lemma RunStep(cfg: Config, s: State, labels: seq<Label>, n: nat)
    requires n < |labels|
    ensures Run(cfg, s, labels[..n + 1]) == Next(cfg, Run(cfg, s, labels[..n]), labels[n])
  {
    assert labels[..n + 1][..n] == labels[..n];
  }

  lemma {:induction false} RunConcat(cfg: Config, s: State, labels: seq<Label>, more: seq<Label>)
    ensures Run(cfg, s, labels + more) == Run(cfg, Run(cfg, s, labels), more)
  {
    if more == [] {
      assert labels + more == labels;
    } else {
      var n := |more| - 1;
      assert (labels + more)[..|labels| + n] == labels + more[..n];
      RunConcat(cfg, s, labels, more[..n]);
    }
  }

  lemma RunOne(cfg: Config, s: State, l: Label)
    ensures Run(cfg, s, [l]) == Next(cfg, s, l)
  {
    assert [l][..0] == [];
  }

  lemma RunTwo(cfg: Config, s: State, l: Label, l': Label)
    ensures Run(cfg, s, [l, l']) == Next(cfg, Next(cfg, s, l), l')
  {
    RunOne(cfg, s, l);
    assert [l, l'][..1] == [l];
  }

  /** While every live attempt is younger than the stale window, at most one holds the claim. */
  lemma {:induction false} OneLiveHolder(cfg: Config, s: State, labels: seq<Label>, n: nat)
    requires Initial(cfg, s) && AlwaysPrompt(cfg, s, labels) && n <= |labels|
    ensures Exclusive(Run(cfg, s, labels[..n]))
  {
    if n > 0 {
      OneLiveHolder(cfg, s, labels, n - 1);
      RunStep(cfg, s, labels, n - 1);
      assert Prompt(cfg, Run(cfg, s, labels[..n - 1]));
      ExclusiveStep(cfg, Run(cfg, s, labels[..n - 1]), labels[n - 1]);
    }
  }

  /** Without that assumption two attempts hold the claim: the first outlives the window. */
  lemma SlowHolderIsJoined(cfg: Config, s: State, reply: Reply)
    requires Initial(cfg, s) && cfg.staleAfter >= 0
    ensures var labels := [Start(0), Act(0, Done, reply), Tick(cfg.staleAfter), Start(0), Act(1, Done, reply)];
            !AtMostOneHolder(Run(cfg, s, labels))
  {
    var labels := [Start(0), Act(0, Done, reply), Tick(cfg.staleAfter), Start(0), Act(1, Done, reply)];
    var s1 := Next(cfg, s, labels[0]);
    var s2 := Next(cfg, s1, labels[1]);
    var s3 := Next(cfg, s2, labels[2]);
    var s4 := Next(cfg, s3, labels[3]);
    var s5 := Next(cfg, s4, labels[4]);
    assert Run(cfg, s, labels[..0]) == s;
    RunStep(cfg, s, labels, 0);
    RunStep(cfg, s, labels, 1);
    RunStep(cfg, s, labels, 2);
    RunStep(cfg, s, labels, 3);
    RunStep(cfg, s, labels, 4);
    assert labels[..5] == labels;
    assert s5.attempts[0].Holding? && s5.attempts[1].Holding?;
  }

  // ---------------------------------------------------------------- the terminal status

  /** PUBLISHED absorbs every step, late releases and marks included, and grants no claim. */
  lemma PublishedAbsorbs(cfg: Config, s: State, l: Label)
    requires s.review.status == Some(Published)
    ensures Next(cfg, s, l).review.status == Some(Published)
    ensures Next(cfg, s, l).granted == s.granted
  {
  }

  lemma {:induction false} PublishedForever(cfg: Config, s: State, labels: seq<Label>, m: nat, n: nat)
    requires m <= n <= |labels|
    requires Run(cfg, s, labels[..m]).review.status == Some(Published)
    ensures Run(cfg, s, labels[..n]).review.status == Some(Published)
    ensures Run(cfg, s, labels[..n]).granted == Run(cfg, s, labels[..m]).granted
  {
    if m < n {
      PublishedForever(cfg, s, labels, m, n - 1);
      RunStep(cfg, s, labels, n - 1);
      PublishedAbsorbs(cfg, Run(cfg, s, labels[..n - 1]), labels[n - 1]);
    }
  }

  // ---------------------------------------------------------------- posts and claims

  /** The attempt has been granted a claim and has not posted yet. */
  predicate BeforePost(a: Attempt) {
    a.Starting? || (a.Holding? && (a.stage.Reading? || a.stage.Posting? || a.stage.Degrading?))
  }

  ghost predicate Accounted(s: State) {
    && (forall k :: k in s.granted ==> k < |s.attempts| && !s.attempts[k].Starting?)
    && (forall k :: 0 <= k < |s.attempts| && s.attempts[k].Holding? ==> k in s.granted)
    && (forall i :: 0 <= i < |s.posts| ==> s.posts[i].attempt in s.granted)
    && (forall i, j :: 0 <= i < j < |s.posts| ==> s.posts[i].attempt != s.posts[j].attempt)
    && (forall i :: 0 <= i < |s.posts| ==> !BeforePost(s.attempts[s.posts[i].attempt]))
  }

  lemma AccountedStep(cfg: Config, s: State, l: Label)
    requires Accounted(s)
    ensures Accounted(Next(cfg, s, l))
  {
    if l.Act? && l.attempt < |s.attempts| {
      AccountedAct(cfg, s, l);
    }
  }

  lemma AccountedAct(cfg: Config, s: State, l: Label)
    requires Accounted(s) && l.Act? && l.attempt < |s.attempts|
    ensures Accounted(Next(cfg, s, l))
  {
  }

  /** Distinct members of a set are no more than the set has. */
  lemma {:induction false} DistinctAreFew(ids: seq<nat>, s: set<nat>)
    requires forall i :: 0 <= i < |ids| ==> ids[i] in s
    requires forall i, j :: 0 <= i < j < |ids| ==> ids[i] != ids[j]
    ensures |ids| <= |s|
  {
    if ids != [] {
      var last := ids[|ids| - 1];
      DistinctAreFew(ids[..|ids| - 1], s - {last});
    }
  }

  /**
    In every state of every run, each attempt has at most one accepted POST, only attempts that
    were granted a claim have one, and accepted POSTs never outnumber granted claims.
   */
  lemma {:induction false} PostsNeverExceedClaims(cfg: Config, s: State, labels: seq<Label>)
    requires Initial(cfg, s)
    ensures Accounted(Run(cfg, s, labels))
    ensures |Run(cfg, s, labels).posts| <= |Run(cfg, s, labels).granted|
  {
    var r := Run(cfg, s, labels);
    if labels != [] {
      PostsNeverExceedClaims(cfg, s, labels[..|labels| - 1]);
      AccountedStep(cfg, Run(cfg, s, labels[..|labels| - 1]), labels[|labels| - 1]);
    }
    DistinctAreFew(seq(|r.posts|, i requires 0 <= i < |r.posts| => r.posts[i].attempt), r.granted);
  }

  /** The status history stays a linked chain ending in the current status. */
  lemma {:induction false} HistoryStaysLinked(cfg: Config, s: State, labels: seq<Label>)
    requires Initial(cfg, s)
    ensures LinkedHistory(Run(cfg, s, labels).review)
  {
    if labels != [] {
      var before := Run(cfg, s, labels[..|labels| - 1]);
      HistoryStaysLinked(cfg, s, labels[..|labels| - 1]);
      match labels[|labels| - 1]
      case Act(k, how, reply) =>
        if k < |before.attempts| && before.attempts[k].Holding? && before.attempts[k].stage.Closing? {
          OperationsKeepLinks(before.review, Published, Details(None, None, None),
                              before.attempts[k].stage.githubReviewId,
                              before.attempts[k].timestamp, before.clock);
        }
        OperationsKeepLinks(before.review, Published, Details(None, None, None), None, 0, before.clock);
      case _ =>
    }
  }

  // ---------------------------------------------------------------- no review is stuck

  /** The statuses publication can leave a review in: FAILED is not among them. */
  predicate Recoverable(s: State) {
    || s.review.status == Some(Deciding)
    || s.review.status == Some(Iterating)
    || s.review.status == Some(Published)
    || (s.review.status == Some(Publishing) && s.review.claimedAt.Some? && s.review.claimedAt.value <= s.clock)
  }

  lemma {:induction false} RecoverableAlways(cfg: Config, s: State, labels: seq<Label>)
    requires Initial(cfg, s)
    ensures Recoverable(Run(cfg, s, labels))
  {
    if labels != [] {
      RecoverableAlways(cfg, s, labels[..|labels| - 1]);
    }
  }

  /**
    A review that is not PUBLISHED is never stuck, although permanent refusals and crashes leave it
    PUBLISHING: once the stale window has passed, a new attempt is granted the claim.
   */
  lemma NeverStuck(cfg: Config, s: State, labels: seq<Label>, reply: Reply)
    requires Initial(cfg, s) && 0 <= cfg.staleAfter
    ensures var r := Run(cfg, s, labels);
            var k := |r.attempts|;
            var t := Next(cfg, Run(cfg, r, [Tick(cfg.staleAfter), Start(0)]), Act(k, Done, reply));
            k in t.granted <==> r.review.status != Some(Published)
  {
    var r := Run(cfg, s, labels);
    RecoverableAlways(cfg, s, labels);
    PostsNeverExceedClaims(cfg, s, labels);
    RunTwo(cfg, r, Tick(cfg.staleAfter), Start(0));
  }
}
