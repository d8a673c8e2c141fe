/**
  The publication protocol as a labelled transition system over one review: any number of
  attempts, each running the steps of `publish_review`, a clock, refused, lost and broken calls,
  crashes and takeovers. `Next` is total, so a run is any list of labels.
 */
module Protocol {
  import opened Common
  import opened Records

  datatype Config = Config(reviewId: string, staleAfter: int, capacity: int, repositories: map<string, string>)

  // ---------------------------------------------------------------- what is posted

  /** `line_start or line_end`: a zero start counts as missing. */
  function CommentLine(row: Row): Option<int> {
    if row.lineStart.Some? && row.lineStart.value != 0 then row.lineStart else row.lineEnd
  }

  function Anchored(findings: seq<Row>): seq<Row> {
    if findings == [] then []
    else (if CommentLine(findings[0]).Some? then [findings[0]] else []) + Anchored(findings[1..])
  }

  function Unanchored(findings: seq<Row>): seq<Row> {
    if findings == [] then []
    else (if CommentLine(findings[0]).None? then [findings[0]] else []) + Unanchored(findings[1..])
  }

  function Inline(findings: seq<Row>, capacity: int): seq<Row> {
    Anchored(findings[..SliceEnd(|findings|, capacity)])
  }

  function Body(findings: seq<Row>, capacity: int): seq<Row> {
    var cut := SliceEnd(|findings|, capacity);
    Unanchored(findings[..cut]) + findings[cut..]
  }

  /** What GitHub answers to a review it created: its id and the ids of the echoed comments. */
  datatype Reply = Reply(id: int, comments: seq<int>)

  /** A review that GitHub accepted, and the attempt that sent it. */
  datatype Post = Post(attempt: nat, inline: seq<Row>, body: seq<Row>, reply: Reply)

  /** The i-th inline finding gets the i-th echoed comment id, if there is one. */
  function InlineUpdates(inline: seq<Row>, comments: seq<int>): (updates: seq<Update>)
    ensures |updates| == |inline|
    ensures forall i :: 0 <= i < |inline| ==>
      updates[i] == Update(inline[i].id, if i < |comments| then Some(comments[i]) else None)
  {
    seq(|inline|, i requires 0 <= i < |inline| =>
      Update(inline[i].id, if i < |comments| then Some(comments[i]) else None))
  }

  function BodyUpdates(body: seq<Row>): (updates: seq<Update>)
    ensures |updates| == |body|
    ensures forall i :: 0 <= i < |body| ==> updates[i] == Update(body[i].id, None)
  {
    seq(|body|, i requires 0 <= i < |body| => Update(body[i].id, None))
  }

  function Updates(post: Post): seq<Update> {
    InlineUpdates(post.inline, post.reply.comments) + BodyUpdates(post.body)
  }

  // ---------------------------------------------------------------- attempts

  /** What an attempt that holds a claim does next. */
  datatype Stage =
    | Reading                                // read the payload
    | Posting(findings: seq<Row>)            // POST with inline comments
    | Degrading(findings: seq<Row>)          // POST everything in the body
    | Recording(post: Post)                  // mark the findings
    | Closing(githubReviewId: Option<int>)   // mark the review
    | Releasing(again: bool)                 // release; `again`: an error here is handled by a second release

  datatype Attempt =
    | Starting(timestamp: int)
    | Holding(timestamp: int, claimTime: int, stage: Stage)
    | Ended

  datatype State = State(
    clock: int,
    review: Review,
    rows: seq<Row>,
    posts: seq<Post>,
    granted: set<nat>,
    attempts: seq<Attempt>)

  /** How a pending call ends. `applied` says whether a POST without an answer reached GitHub. */
  datatype How =
    | Done
    | Refused(retryable: bool, applied: bool)
    | Broken(applied: bool)
    | Crash(applied: bool)

  datatype Label =
    | Tick(amount: nat)
    | Start(lag: nat)
    | Act(attempt: nat, how: How, reply: Reply)

  function FullName(cfg: Config, rec: Review): string {
    if rec.repositoryId in cfg.repositories && cfg.repositories[rec.repositoryId] != ""
    then cfg.repositories[rec.repositoryId]
    else rec.fullName
  }

  function AfterSlash(name: string): string {
    if name == "" then "" else if name[0] == '/' then name[1..] else AfterSlash(name[1..])
  }

  /** `owner/repo` with both parts present. */
  predicate IsOwnerAndRepo(name: string) {
    name != "" && name[0] != '/' && AfterSlash(name) != ""
  }

  lemma {:induction false} FirstSlash(name: string) returns (owner: string)
    ensures '/' !in owner
    ensures AfterSlash(name) != "" ==> name == owner + "/" + AfterSlash(name)
    ensures name != "" ==> (owner == "" <==> name[0] == '/')
  {
    if name == "" || name[0] == '/' {
      owner := "";
    } else {
      var rest := FirstSlash(name[1..]);
      owner := [name[0]] + rest;
    }
  }

  lemma {:induction false} SlashAfter(owner: string, repo: string)
    requires '/' !in owner
    ensures AfterSlash(owner + "/" + repo) == repo
  {
    var name := owner + "/" + repo;
    if owner == "" {
      assert name[1..] == repo;
    } else {
      assert name[0] == owner[0] && name[1..] == owner[1..] + "/" + repo;
      SlashAfter(owner[1..], repo);
    }
  }

  /** The name splits at its first slash into two parts that are not empty. */
  lemma OwnerAndRepoIff(name: string)
    ensures IsOwnerAndRepo(name) <==>
      exists owner, repo :: '/' !in owner && owner != "" && repo != "" && name == owner + "/" + repo
  {
    var first := FirstSlash(name);
    if owner, repo :| '/' !in owner && owner != "" && repo != "" && name == owner + "/" + repo {
      SlashAfter(owner, repo);
      assert name[0] == owner[0];
    }
  }

  /** The stage that follows reading the payload `findings`; None when the attempt gives up. */
  function AfterReading(cfg: Config, rec: Review, findings: seq<Row>): Option<Stage> {
    if findings == [] then Some(Closing(None))
    else if !IsOwnerAndRepo(FullName(cfg, rec)) then None
    else if rec.prNumber.None? then Some(Releasing(false))
    else Some(Posting(findings))
  }

  function Move(a: Attempt, stage: Option<Stage>): Attempt
    requires a.Holding?
  {
    if stage.Some? then a.(stage := stage.value) else Ended
  }

  /** The post an attempt in a posting stage makes. */
  function PostOf(cfg: Config, k: nat, stage: Stage, reply: Reply): Post
    requires stage.Posting? || stage.Degrading?
  {
    if stage.Posting?
    then Post(k, Inline(stage.findings, cfg.capacity), Body(stage.findings, cfg.capacity), reply)
    else Post(k, [], stage.findings, reply)
  }

  /** The shared state after attempt `k` has claimed, or failed to. */
  function Claim(cfg: Config, s: State, k: nat, timestamp: int): State
    requires k < |s.attempts|
  {
    if Claimable(s.review, timestamp - cfg.staleAfter)
    then s.(review := Claimed(s.review, s.clock), granted := s.granted + {k},
            attempts := s.attempts[k := Holding(timestamp, s.clock, Reading)])
    else s.(attempts := s.attempts[k := Ended])
  }

  /** The pending operation of attempt `k` takes effect and returns normally. */
  function Perform(cfg: Config, s: State, k: nat, reply: Reply): State
    requires k < |s.attempts| && s.attempts[k].Holding?
  {
    var a := s.attempts[k];
    match a.stage
    case Reading =>
      var findings := Payload(s.rows, cfg.reviewId);
      s.(attempts := s.attempts[k := Move(a, AfterReading(cfg, s.review, findings))])
    case Posting(_) =>
      var post := PostOf(cfg, k, a.stage, reply);
      s.(posts := s.posts + [post], attempts := s.attempts[k := a.(stage := Recording(post))])
    case Degrading(_) =>
      var post := PostOf(cfg, k, a.stage, reply);
      s.(posts := s.posts + [post], attempts := s.attempts[k := a.(stage := Recording(post))])
    case Recording(post) =>
      s.(rows := MarkAll(s.rows, cfg.reviewId, Updates(post)),
         attempts := s.attempts[k := a.(stage := Closing(Some(post.reply.id)))])
    case Closing(id) =>
      s.(review := MarkedPublished(s.review, id, a.timestamp, s.clock), attempts := s.attempts[k := Ended])
    case Releasing(_) =>
      s.(review := Released(s.review, s.clock), attempts := s.attempts[k := Ended])
  }

  /** The exception handlers of `publish_review`: what follows a call that did not return normally. */
  function Handler(stage: Stage, how: How): Option<Stage>
    requires !how.Done?
  {
    match how
    case Crash(_) => None
    case Refused(retryable, _) =>
      if stage.Posting? then Some(if retryable then Releasing(true) else Degrading(stage.findings))
      else if stage.Degrading? then None
      else Some(stage)
    case Broken(_) =>
      if stage.Releasing? then (if stage.again then Some(Releasing(false)) else None)
      else Some(Releasing(false))
  }

  /** Only a POST can take effect without returning, and never when GitHub refuses it for good. */
  predicate TakesEffect(stage: Stage, how: How)
    requires !how.Done?
  {
    && (stage.Posting? || stage.Degrading?)
    && how.applied
    && (how.Refused? ==> how.retryable)
  }

  /** The pending operation of attempt `k` ends abnormally. */
  function Fail(cfg: Config, s: State, k: nat, how: How, reply: Reply): State
    requires k < |s.attempts| && s.attempts[k].Holding? && !how.Done?
  {
    var a := s.attempts[k];
    var attempts := s.attempts[k := Move(a, Handler(a.stage, how))];
    if TakesEffect(a.stage, how)
    then s.(posts := s.posts + [PostOf(cfg, k, a.stage, reply)], attempts := attempts)
    else s.(attempts := attempts)
  }

  /** One step. A label that does not apply leaves the state as it is. */
  function Next(cfg: Config, s: State, move: Label): State {
    match move
    case Tick(amount) => s.(clock := s.clock + amount)
    case Start(lag) => s.(attempts := s.attempts + [Starting(s.clock - lag)])
    case Act(k, how, reply) =>
      if k >= |s.attempts| then s
      else match s.attempts[k]
        case Ended => s
        case Starting(timestamp) =>
          if how.Done? then Claim(cfg, s, k, timestamp)
          else if how.Refused? then s
          else s.(attempts := s.attempts[k := Ended])
        case Holding(_, _, _) =>
          if how.Done? then Perform(cfg, s, k, reply) else Fail(cfg, s, k, how, reply)
  }

  function Run(cfg: Config, s: State, labels: seq<Label>): State {
    if labels == [] then s
    else Next(cfg, Run(cfg, s, labels[..|labels| - 1]), labels[|labels| - 1])
  }

  /** Orchestration has finished and nobody has tried to publish yet. */
  ghost predicate Initial(cfg: Config, s: State) {
    && (s.review.status == Some(Deciding) || s.review.status == Some(Iterating))
    && LinkedHistory(s.review)
    && DistinctIds(s.rows, cfg.reviewId)
    && s.posts == [] && s.granted == {} && s.attempts == []
  }
}
