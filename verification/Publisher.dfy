/** `publish_review`: one attempt against the in-memory store, step by step. */
module Publisher {
  import opened Common
  import opened Records
  import opened Protocol
  import opened ProtocolSafety
  import opened MemoryStore

  /** What the GitHub client does with one request. */
  datatype Answer = Accepted(reply: Reply) | ApiError(retryable: bool) | Exception

  /** A create-review request: the findings sent as inline comments and those in the body. */
  datatype Request = Request(inline: seq<Row>, body: seq<Row>)

  /** The client: `answers(n)` is whatever happens to the n-th request ever sent. */
  class Client {
    var sent: seq<Request>
    const answers: nat -> Answer

    constructor (answers: nat -> Answer)
      ensures sent == [] && this.answers == answers
    {
      sent := [];
      this.answers := answers;
    }

    method CreatePullRequestReview(request: Request) returns (answer: Answer)
      modifies this`sent
      ensures sent == old(sent) + [request]
      ensures answer == answers(|old(sent)|)
    {
      answer := answers(|sent|);
      sent := sent + [request];
    }
  }

  datatype Outcome = Outcome(githubReviewId: Option<int>, posted: nat, degraded: nat, alreadyPublished: bool)

  datatype PublishError = PublishError(retryable: bool)

  /** The two lists `publish_review` builds from the payload, in its loop order. */
  method SplitFindings(findings: seq<Row>, capacity: int) returns (inline: seq<Row>, body: seq<Row>)
    ensures inline == Inline(findings, capacity) && body == Body(findings, capacity)
  {
    var cut := SliceEnd(|findings|, capacity);
    var head := findings[..cut];
    inline, body := [], [];
    for i := 0 to cut
      invariant inline == Anchored(head[..i]) && body == Unanchored(head[..i])
    {
      AnchorsSnoc(head[..i], head[i]);
      assert head[..i + 1] == head[..i] + [head[i]];
      if CommentLine(findings[i]).Some? {
        inline := inline + [findings[i]];
      } else {
        body := body + [findings[i]];
      }
    }
    assert head[..cut] == head;
    for i := cut to |findings|
      invariant body == Unanchored(head) + findings[cut..i]
    {
      body := body + [findings[i]];
    }
    assert findings[cut..|findings|] == findings[cut..];
  }

  lemma AnchorsSnoc(findings: seq<Row>, f: Row)
    ensures Anchored(findings + [f]) == Anchored(findings) + (if CommentLine(f).Some? then [f] else [])
    ensures Unanchored(findings + [f]) == Unanchored(findings) + (if CommentLine(f).None? then [f] else [])
  {
    if findings != [] {
      assert (findings + [f])[1..] == findings[1..] + [f];
      AnchorsSnoc(findings[1..], f);
    }
  }

  // ---------------------------------------------------------------- the attempt

  const NO_REPLY := Reply(0, [])

  /** The protocol state in which a lone attempt begins. */
  function Alone(review: Review, rows: seq<Row>, clock: int): State {
    State(clock, review, rows, [], {}, [])
  }

  lemma RunExtends(cfg: Config, s: State, trace: seq<Label>, l: Label)
    ensures Run(cfg, s, trace + [l]) == Next(cfg, Run(cfg, s, trace), l)
  {
    assert (trace + [l])[..|trace|] == trace;
  }

  /** Everything in the body; a refusal becomes the publisher's own error, anything else comes back as it is. */
  method PostBodyOnly(client: Client, findings: seq<Row>) returns (answer: Result<Answer, PublishError>)
    modifies client`sent
    ensures client.sent == old(client.sent) + [Request([], findings)]
    ensures
      var reply := client.answers(|old(client.sent)|);
      answer == if reply.ApiError? then Err(PublishError(reply.retryable)) else Ok(reply)
  {
    var reply := client.CreatePullRequestReview(Request([], findings));
    if reply.ApiError? {
      return Err(PublishError(reply.retryable));
    }
    return Ok(reply);
  }

  /** Replaying `trace` reaches a lone attempt `a` with this review and these rows. */
  ghost predicate Replays(cfg: Config, begin: State, trace: seq<Label>, a: Attempt, review: Review,
                          rows: seq<Row>, clock: int) {
    var s := Run(cfg, begin, trace);
    s.attempts == [a] && s.review == review && s.rows == rows && s.clock == clock
  }

  /** Marks the findings and the review once GitHub has accepted `post`. */
  method Record(store: Store, cfg: Config, post: Post, timestamp: int, utcNow: int,
                ghost begin: State, ghost before: seq<Label>, ghost claimTime: int)
    returns (outcome: Outcome, ghost trace: seq<Label>)
    requires cfg.reviewId in store.reviews
    requires Replays(cfg, begin, before, Holding(timestamp, claimTime, Recording(post)),
                     store.reviews[cfg.reviewId], store.findings, utcNow)
    modifies store`reviews, store`findings
    ensures store.findings == MarkAll(old(store.findings), cfg.reviewId, Updates(post))
    ensures store.reviews == old(store.reviews)[cfg.reviewId :=
      MarkedPublished(old(store.reviews)[cfg.reviewId], Some(post.reply.id), timestamp, utcNow)]
    ensures outcome == Outcome(Some(post.reply.id), |post.inline|, |post.body|, false)
    ensures Replays(cfg, begin, trace, Ended, store.reviews[cfg.reviewId], store.findings, utcNow)
  {
    var rid := cfg.reviewId;
    store.MarkFindingsPublished(rid, InlineUpdates(post.inline, post.reply.comments) + BodyUpdates(post.body));
    store.MarkReviewPublished(rid, Some(post.reply.id), timestamp, utcNow);
    outcome := Outcome(Some(post.reply.id), |post.inline|, |post.body|, false);
    trace := before + [Act(0, Done, NO_REPLY)];
    RunExtends(cfg, begin, before, Act(0, Done, NO_REPLY));
    RunExtends(cfg, begin, trace, Act(0, Done, NO_REPLY));
    trace := trace + [Act(0, Done, NO_REPLY)];
  }

  /** Releases the claim after a failure; `again` as in the protocol. */
  method Release(store: Store, cfg: Config, timestamp: int, utcNow: int,
                 ghost begin: State, ghost before: seq<Label>, ghost claimTime: int, ghost again: bool)
    returns (ghost trace: seq<Label>)
    requires cfg.reviewId in store.reviews
    requires Replays(cfg, begin, before, Holding(timestamp, claimTime, Releasing(again)),
                     store.reviews[cfg.reviewId], store.findings, utcNow)
    modifies store`reviews
    ensures store.reviews == old(store.reviews)[cfg.reviewId := Released(old(store.reviews)[cfg.reviewId], utcNow)]
    ensures Replays(cfg, begin, trace, Ended, store.reviews[cfg.reviewId], store.findings, utcNow)
  {
    store.ReleaseReviewFromPublication(cfg.reviewId, utcNow);
    trace := before + [Act(0, Done, NO_REPLY)];
    RunExtends(cfg, begin, before, Act(0, Done, NO_REPLY));
  }

  lemma FailReplays(cfg: Config, begin: State, trace: seq<Label>, a: Attempt, how: How, review: Review,
                    rows: seq<Row>, clock: int)
    requires a.Holding? && !how.Done? && !TakesEffect(a.stage, how)
    requires Replays(cfg, begin, trace, a, review, rows, clock)
    ensures Replays(cfg, begin, trace + [Act(0, how, NO_REPLY)], Move(a, Handler(a.stage, how)), review, rows, clock)
  {
    RunExtends(cfg, begin, trace, Act(0, how, NO_REPLY));
  }

  lemma PostReplays(cfg: Config, begin: State, trace: seq<Label>, a: Attempt, reply: Reply, review: Review,
                    rows: seq<Row>, clock: int)
    requires a.Holding? && (a.stage.Posting? || a.stage.Degrading?)
    requires Replays(cfg, begin, trace, a, review, rows, clock)
    ensures Replays(cfg, begin, trace + [Act(0, Done, reply)], a.(stage := Recording(PostOf(cfg, 0, a.stage, reply))),
                    review, rows, clock)
  {
    RunExtends(cfg, begin, trace, Act(0, Done, reply));
  }

  /** What is sent: the split findings, and everything in the body when that was refused for good. */
  function Requests(cfg: Config, findings: seq<Row>, first: Answer): seq<Request> {
    [Request(Inline(findings, cfg.capacity), Body(findings, cfg.capacity))] +
    (if first == ApiError(false) then [Request([], findings)] else [])
  }

  /** A post to record, or an error; `release` says whether the handler gives the claim back, and whether twice. */
  datatype Submission = Sent(post: Post) | Unsent(error: PublishError, release: Option<bool>)

  /** What the answers of GitHub to the split post and to the body-only post amount to. */
  function SubmissionOf(cfg: Config, findings: seq<Row>, first: Answer, second: Answer): Submission {
    match first
    case Accepted(reply) => Sent(Post(0, Inline(findings, cfg.capacity), Body(findings, cfg.capacity), reply))
    case Exception => Unsent(PublishError(true), Some(false))
    case ApiError(retryable) =>
      if retryable then Unsent(PublishError(true), Some(true))
      else
        match second
        case Accepted(reply) => Sent(Post(0, [], findings, reply))
        case Exception => Unsent(PublishError(true), Some(false))
        case ApiError(again) => Unsent(PublishError(again), None)
  }

  /** The attempt once its submission is over. */
  function Submitted(timestamp: int, claimTime: int, r: Submission): Attempt {
    match r
    case Sent(post) => Holding(timestamp, claimTime, Recording(post))
    case Unsent(_, Some(again)) => Holding(timestamp, claimTime, Releasing(again))
    case Unsent(_, None) => Ended
  }

  /** What the answer to a post with these two parts amounts to, once it cannot be degraded any more. */
  function Answered(answer: Answer, inline: seq<Row>, body: seq<Row>): Submission
    requires !answer.ApiError?
  {
    if answer.Accepted? then Sent(Post(0, inline, body, answer.reply)) else Unsent(PublishError(true), Some(false))
  }

  /** A post is accepted, or an exception makes the handler release the claim. */
  lemma AnsweredReplays(cfg: Config, begin: State, trace: seq<Label>, a: Attempt, answer: Answer, review: Review,
                        rows: seq<Row>, clock: int) returns (more: seq<Label>)
    requires a.Holding? && (a.stage.Posting? || a.stage.Degrading?) && !answer.ApiError?
    requires Replays(cfg, begin, trace, a, review, rows, clock)
    ensures
      var (inline, body) := if a.stage.Posting?
        then (Inline(a.stage.findings, cfg.capacity), Body(a.stage.findings, cfg.capacity))
                            else ([], a.stage.findings);
      Replays(cfg, begin, more, Submitted(a.timestamp, a.claimTime, Answered(answer, inline, body)), review, rows,
              clock)
  {
    if answer.Exception? {
      FailReplays(cfg, begin, trace, a, Broken(false), review, rows, clock);
      more := trace + [Act(0, Broken(false), NO_REPLY)];
    } else {
      PostReplays(cfg, begin, trace, a, answer.reply, review, rows, clock);
      more := trace + [Act(0, Done, answer.reply)];
    }
  }

  /** The second try, with everything in the body. */
  method Degrade(client: Client, cfg: Config, findings: seq<Row>, ghost a: Attempt,
                 ghost begin: State, ghost before: seq<Label>, ghost review: Review, ghost rows: seq<Row>,
                   ghost clock: int)
    returns (r: Submission, ghost trace: seq<Label>)
    requires a.Holding? && a.stage == Degrading(findings) && Replays(cfg, begin, before, a, review, rows, clock)
    modifies client`sent
    ensures r == SubmissionOf(cfg, findings, ApiError(false), client.answers(|old(client.sent)|))
    ensures client.sent == old(client.sent) + [Request([], findings)]
    ensures Replays(cfg, begin, trace, Submitted(a.timestamp, a.claimTime, r), review, rows, clock)
  {
    var answer := PostBodyOnly(client, findings);
    if answer.Err? {
      FailReplays(cfg, begin, before, a, Refused(answer.error.retryable, false), review, rows, clock);
      return Unsent(answer.error, None), before + [Act(0, Refused(answer.error.retryable, false), NO_REPLY)];
    }
    trace := AnsweredReplays(cfg, begin, before, a, answer.value, review, rows, clock);
    return Answered(answer.value, [], findings), trace;
  }

  /** Posts the findings inline, or all in the body when GitHub refuses the positions. */
  method Submit(client: Client, cfg: Config, findings: seq<Row>, ghost a: Attempt,
                ghost begin: State, ghost before: seq<Label>, ghost review: Review, ghost rows: seq<Row>,
                  ghost clock: int)
    returns (r: Submission, ghost trace: seq<Label>)
    requires a.Holding? && a.stage == Posting(findings) && Replays(cfg, begin, before, a, review, rows, clock)
    modifies client`sent
    ensures r == SubmissionOf(cfg, findings, client.answers(|old(client.sent)|), client.answers(|old(client.sent)| + 1))
    ensures client.sent == old(client.sent) + Requests(cfg, findings, client.answers(|old(client.sent)|))
    ensures Replays(cfg, begin, trace, Submitted(a.timestamp, a.claimTime, r), review, rows, clock)
  {
    var inline, body := SplitFindings(findings, cfg.capacity);
    var answer := client.CreatePullRequestReview(Request(inline, body));
    if answer.ApiError? {
      FailReplays(cfg, begin, before, a, Refused(answer.retryable, false), review, rows, clock);
      trace := before + [Act(0, Refused(answer.retryable, false), NO_REPLY)];
      if answer.retryable {
        return Unsent(PublishError(true), Some(true)), trace;
      }
      r, trace := Degrade(client, cfg, findings, a.(stage := Degrading(findings)), begin, trace, review, rows, clock);
      return;
    }
    trace := AnsweredReplays(cfg, begin, before, a, answer, review, rows, clock);
    return Answered(answer, inline, body), trace;
  }

  /** Submits the findings, then records the post or handles the failure. */
  method PostAndRecord(store: Store, client: Client, cfg: Config, findings: seq<Row>, timestamp: int, utcNow: int,
                       ghost begin: State, ghost before: seq<Label>, ghost claimTime: int)
    returns (result: Result<Outcome, PublishError>, ghost trace: seq<Label>)
    requires cfg.reviewId in store.reviews
    requires Replays(cfg, begin, before, Holding(timestamp, claimTime, Posting(findings)),
                     store.reviews[cfg.reviewId], store.findings, utcNow)
    modifies store`reviews, store`findings, client`sent
    ensures cfg.reviewId in store.reviews
    ensures store.reviews == old(store.reviews)[cfg.reviewId := store.reviews[cfg.reviewId]]
    ensures Replays(cfg, begin, trace, Ended, store.reviews[cfg.reviewId], store.findings, utcNow)
    ensures Delivery(cfg, old(store.reviews)[cfg.reviewId], old(store.findings), timestamp, utcNow,
                     SubmissionOf(cfg, findings, client.answers(|old(client.sent)|),
                                  client.answers(|old(client.sent)| + 1)),
                     store.reviews[cfg.reviewId], store.findings, result)
    ensures client.sent == old(client.sent) + Requests(cfg, findings, client.answers(|old(client.sent)|))
  {
    var submission;
    submission, trace := Submit(client, cfg, findings, Holding(timestamp, claimTime, Posting(findings)), begin, before,
                                store.reviews[cfg.reviewId], store.findings, utcNow);
    match submission
    case Sent(post) =>
      var outcome;
      outcome, trace := Record(store, cfg, post, timestamp, utcNow, begin, trace, claimTime);
      return Ok(outcome), trace;
    case Unsent(error, Some(again)) =>
      trace := Release(store, cfg, timestamp, utcNow, begin, trace, claimTime, again);
      return Err(error), trace;
    case Unsent(error, None) =>
      return Err(error), trace;
  }

  /** What a submission makes of the claimed review, its rows and the result. */
  ghost predicate Delivery(cfg: Config, review: Review, rows: seq<Row>, timestamp: int, utcNow: int,
                           submission: Submission,
                           review': Review, rows': seq<Row>, result: Result<Outcome, PublishError>) {
    match submission
    case Sent(post) =>
      && result == Ok(Outcome(Some(post.reply.id), |post.inline|, |post.body|, false))
      && review' == MarkedPublished(review, Some(post.reply.id), timestamp, utcNow)
      && rows' == MarkAll(rows, cfg.reviewId, Updates(post))
    case Unsent(error, Some(_)) => result == Err(error) && review' == Released(review, utcNow) && rows' == rows
    case Unsent(error, None) => result == Err(error) && review' == review && rows' == rows
  }

  /** What an attempt that was granted the claim makes of the review, its rows, GitHub and the result. */
  ghost predicate Attempted(cfg: Config, claimed: Review, rows: seq<Row>, timestamp: int, utcNow: int,
                            answers: nat -> Answer, sent: seq<Request>,
                            review': Review, rows': seq<Row>, sent': seq<Request>, result: Result<Outcome,
                              PublishError>) {
    var findings := Payload(rows, cfg.reviewId);
    var (first, second) := (answers(|sent|), answers(|sent| + 1));
    match AfterReading(cfg, claimed, findings)
    case Some(Closing(_)) =>
      && result == Ok(Outcome(None, 0, 0, false)) && sent' == sent && rows' == rows
      && review' == MarkedPublished(claimed, None, timestamp, utcNow)
    case None => result == Err(PublishError(false)) && sent' == sent && rows' == rows && review' == claimed
    case Some(Posting(_)) =>
      && Delivery(cfg, claimed, rows, timestamp, utcNow, SubmissionOf(cfg, findings, first, second), review', rows',
                  result)
      && sent' == sent + Requests(cfg, findings, first)
    case Some(_) =>
      result == Err(PublishError(true)) && sent' == sent && rows' == rows && review' == Released(claimed, utcNow)
  }

  lemma ReadReplays(cfg: Config, begin: State, trace: seq<Label>, a: Attempt, review: Review, rows: seq<Row>,
                    clock: int)
    requires a.Holding? && a.stage == Reading
    requires Replays(cfg, begin, trace, a, review, rows, clock)
    ensures Replays(cfg, begin, trace + [Act(0, Done, NO_REPLY)],
                    Move(a, AfterReading(cfg, review, Payload(rows, cfg.reviewId))), review, rows, clock)
  {
    RunExtends(cfg, begin, trace, Act(0, Done, NO_REPLY));
  }

  lemma CloseReplays(cfg: Config, begin: State, trace: seq<Label>, timestamp: int, clock: int, review: Review,
                     rows: seq<Row>)
    requires Replays(cfg, begin, trace, Holding(timestamp, clock, Closing(None)), review, rows, clock)
    ensures Replays(cfg, begin, trace + [Act(0, Done, NO_REPLY)], Ended,
                    MarkedPublished(review, None, timestamp, clock), rows, clock)
  {
    RunExtends(cfg, begin, trace, Act(0, Done, NO_REPLY));
  }

  /** Reads the payload under a claim, and publishes it. */
  method PublishClaimed(store: Store, client: Client, cfg: Config, timestamp: int, utcNow: int,
                        ghost begin: State, ghost before: seq<Label>)
    returns (result: Result<Outcome, PublishError>, ghost trace: seq<Label>)
    requires cfg.repositories == store.repositories && cfg.reviewId in store.reviews
    requires Replays(cfg, begin, before, Holding(timestamp, utcNow, Reading),
                     store.reviews[cfg.reviewId], store.findings, utcNow)
    modifies store`reviews, store`findings, client`sent
    ensures cfg.reviewId in store.reviews
    ensures store.reviews == old(store.reviews)[cfg.reviewId := store.reviews[cfg.reviewId]]
    ensures Replays(cfg, begin, trace, Ended, store.reviews[cfg.reviewId], store.findings, utcNow)
    ensures Attempted(cfg, old(store.reviews)[cfg.reviewId], old(store.findings), timestamp, utcNow,
                      client.answers, old(client.sent),
                      store.reviews[cfg.reviewId], store.findings, client.sent, result)
  {
    var rid := cfg.reviewId;
    ghost var a := Holding(timestamp, utcNow, Reading);
    var payload := store.PublicationPayload(rid);
    var findings := payload.value;
    ghost var stage := AfterReading(cfg, store.reviews[rid], findings);
    ReadReplays(cfg, begin, before, a, store.reviews[rid], store.findings, utcNow);
    trace := before + [Act(0, Done, NO_REPLY)];
    if findings == [] {
      CloseReplays(cfg, begin, trace, timestamp, utcNow, store.reviews[rid], store.findings);
      store.MarkReviewPublished(rid, None, timestamp, utcNow);
      trace := trace + [Act(0, Done, NO_REPLY)];
      return Ok(Outcome(None, 0, 0, false)), trace;
    }
    if !IsOwnerAndRepo(FullName(cfg, store.reviews[rid])) {
      return Err(PublishError(false)), trace;
    }
    if store.reviews[rid].prNumber.None? {
      trace := Release(store, cfg, timestamp, utcNow, begin, trace, utcNow, false);
      return Err(PublishError(true)), trace;
    }
    result, trace := PostAndRecord(store, client, cfg, findings, timestamp, utcNow, begin, trace, utcNow);
  }

  /**
    One attempt. `trace` is its run in the protocol: replaying it from the same review and rows
    gives exactly the store this method leaves behind, with the attempt over.
   */
  method PublishReview(store: Store, client: Client, cfg: Config, timestamp: int, utcNow: int)
    returns (result: Result<Outcome, PublishError>, ghost trace: seq<Label>)
    requires cfg.repositories == store.repositories && timestamp <= utcNow
    modifies store`reviews, store`findings, client`sent
    ensures cfg.reviewId !in old(store.reviews) ==>
      result == Ok(Outcome(None, 0, 0, true)) && unchanged(store) && unchanged(client)
    ensures cfg.reviewId in old(store.reviews) ==>
      && cfg.reviewId in store.reviews
      && store.reviews == old(store.reviews)[cfg.reviewId := store.reviews[cfg.reviewId]]
      && Replays(cfg, Alone(old(store.reviews)[cfg.reviewId], old(store.findings), utcNow), trace, Ended,
                 store.reviews[cfg.reviewId], store.findings, utcNow)
    ensures cfg.reviewId in old(store.reviews) ==>
      var review := old(store.reviews)[cfg.reviewId];
      if !Claimable(review, timestamp - cfg.staleAfter) then
        result == Ok(Outcome(None, 0, 0, true)) && unchanged(store) && unchanged(client)
      else
        Attempted(cfg, Claimed(review, utcNow), old(store.findings), timestamp, utcNow, client.answers,
                  old(client.sent),
                  store.reviews[cfg.reviewId], store.findings, client.sent, result)
  {
    var rid := cfg.reviewId;
    var claimed := store.ClaimReviewForPublication(rid, timestamp - cfg.staleAfter, utcNow);
    if rid !in store.reviews {
      return Ok(Outcome(None, 0, 0, true)), [];
    }
    ghost var begin := Alone(old(store.reviews)[rid], old(store.findings), utcNow);
    trace := ClaimReplays(cfg, begin, timestamp);
    if !claimed {
      return Ok(Outcome(None, 0, 0, true)), trace;
    }
    result, trace := PublishClaimed(store, client, cfg, timestamp, utcNow, begin, trace);
  }

  /** The first two steps of a lone attempt: it starts, and is granted the claim or gives up. */
  lemma ClaimReplays(cfg: Config, begin: State, timestamp: int) returns (trace: seq<Label>)
    requires begin.attempts == [] && timestamp <= begin.clock
    ensures var granted := Claimable(begin.review, timestamp - cfg.staleAfter);
            Replays(cfg, begin, trace, if granted then Holding(timestamp, begin.clock, Reading) else Ended,
                    if granted then Claimed(begin.review, begin.clock) else begin.review, begin.rows, begin.clock)
  {
    trace := [Start(begin.clock - timestamp), Act(0, Done, NO_REPLY)];
    RunTwo(cfg, begin, trace[0], trace[1]);
  }
}
