/** No finding is lost: from the payload to the posted review, in one attempt and over every run. */
module NothingLost {
  import opened Common
  import opened Ordering
  import opened Records
  import opened Protocol

  // ---------------------------------------------------------------- inline and body

  lemma AnchorsPartition(findings: seq<Row>)
    ensures multiset(Anchored(findings)) + multiset(Unanchored(findings)) == multiset(findings)
    ensures |Anchored(findings)| <= |findings|
    ensures forall f :: f in Anchored(findings) ==> CommentLine(f).Some?
  {
    if findings != [] {
      assert findings == [findings[0]] + findings[1..];
    }
  }

  /** Inline comments and body entries split the payload without loss or overlap. */
  lemma SplitPartitions(findings: seq<Row>, capacity: int)
    ensures multiset(Inline(findings, capacity)) + multiset(Body(findings, capacity)) == multiset(findings)
    ensures 0 <= capacity ==> |Inline(findings, capacity)| <= capacity
    ensures forall f :: f in Inline(findings, capacity) ==> CommentLine(f).Some?
  {
    var cut := SliceEnd(|findings|, capacity);
    AnchorsPartition(findings[..cut]);
    assert findings == findings[..cut] + findings[cut..];
  }

  lemma SplitMembers(findings: seq<Row>, capacity: int, f: Row)
    ensures f in findings <==> f in Inline(findings, capacity) || f in Body(findings, capacity)
  {
    SplitPartitions(findings, capacity);
    var (i, b) := (Inline(findings, capacity), Body(findings, capacity));
    assert f in multiset(findings) <==> f in multiset(i) || f in multiset(b);
  }

  // ---------------------------------------------------------------- marking

  /** The payload row `f` is on the post and `commentId` is the id it was answered with. */
  ghost predicate Delivered(post: Post, id: string, commentId: Option<int>) {
    || (exists i :: 0 <= i < |post.inline| && post.inline[i].id == id
          && commentId == (if i < |post.reply.comments| then Some(post.reply.comments[i]) else None))
    || (commentId == None && exists i :: 0 <= i < |post.body| && post.body[i].id == id)
  }

  ghost predicate Names(post: Post, id: string) {
    (exists i :: 0 <= i < |post.inline| && post.inline[i].id == id) ||
    (exists i :: 0 <= i < |post.body| && post.body[i].id == id)
  }

  /** What exceeds the capacity, and goes to the body for that reason. */
  function Overflow(findings: seq<Row>, capacity: int): seq<Row> {
    findings[SliceEnd(|findings|, capacity)..]
  }

  /**
    Only the least useful findings overflow: every inline comment, and every finding in the body for want
    of a line, is at least as useful as every overflowing one, and equally useful ones overflow by id.
   */
  lemma OverflowRanksLast(rows: seq<Row>, reviewId: string, capacity: int, f: Row, g: Row)
    requires
      var findings := Payload(rows, reviewId);
      f in findings[..SliceEnd(|findings|, capacity)] && g in Overflow(findings, capacity)
    ensures
      var u := if f.utility.Some? then f.utility.value else 0.0;
      var v := if g.utility.Some? then g.utility.value else 0.0;
      u >= v && (u == v ==> StringLe(f.id, g.id))
    ensures PublicationLe(f, g)
  {
    var findings := Payload(rows, reviewId);
    var cut := SliceEnd(|findings|, capacity);
    var i :| 0 <= i < cut && findings[..cut][i] == f;
    var j :| 0 <= j < |findings[cut..]| && findings[cut..][j] == g;
    PayloadSorted(rows, reviewId);
    assert g == findings[cut + j];
  }

  /** No finding behind the first `capacity` ones is more useful than one sent inline. */
  lemma InlineAreMostUseful(rows: seq<Row>, reviewId: string, capacity: nat, f: Row, g: Row)
    requires capacity <= |Payload(rows, reviewId)|
    requires f in Inline(Payload(rows, reviewId), capacity) && g in Payload(rows, reviewId)[capacity..]
    ensures (if f.utility.Some? then f.utility.value else 0.0) >= (if g.utility.Some? then g.utility.value else 0.0)
  {
    SplitAtCapacity(Payload(rows, reviewId), capacity);
    OverflowRanksLast(rows, reviewId, capacity, f, g);
  }

  /**
    Inline comments are taken from the first `capacity` findings: those with a first line other than 0 or a last
    line. The body is the rest of them, and everything behind. A negative capacity counts from the back.
   */
  lemma SplitAtCapacity(findings: seq<Row>, capacity: int)
    ensures
      var n := |findings|;
      var cut := if capacity >= n then n else if capacity >= 0 then capacity else if n + capacity >= 0 then n + capacity
                 else 0;
      && (forall f :: f in Inline(findings, capacity) <==>
            f in findings[..cut] && ((f.lineStart.Some? && f.lineStart.value != 0) || f.lineEnd.Some?))
      && (forall f :: f in Body(findings, capacity) <==>
            || f in findings[cut..]
            || (f in findings[..cut] && (f.lineStart == None || f.lineStart == Some(0)) && f.lineEnd == None))
  {
    var cut := SliceEnd(|findings|, capacity);
    forall f ensures f in Inline(findings, capacity) <==> f in findings[..cut] && CommentLine(f).Some? {
      AnchoredMember(findings[..cut], f);
    }
    forall f ensures f in Body(findings, capacity) <==>
      f in Overflow(findings, capacity) || (f in findings[..cut] && CommentLine(f).None?)
    {
      AnchoredMember(findings[..cut], f);
    }
  }

  lemma {:induction false} AnchoredMember(findings: seq<Row>, f: Row)
    ensures f in Anchored(findings) <==> f in findings && CommentLine(f).Some?
    ensures f in Unanchored(findings) <==> f in findings && CommentLine(f).None?
  {
    if findings != [] {
      AnchoredMember(findings[1..], f);
      assert findings == [findings[0]] + findings[1..];
    }
  }


  lemma UpdatesDeliver(post: Post, u: Update)
    requires u in Updates(post)
    ensures Delivered(post, u.id, u.commentId)
  {
    var i :| 0 <= i < |Updates(post)| && Updates(post)[i] == u;
    if i < |post.inline| {
      assert post.inline[i].id == u.id;
    } else {
      assert post.body[i - |post.inline|].id == u.id;
    }
  }

  lemma NamedIsUpdated(post: Post, id: string)
    requires Names(post, id)
    ensures exists u :: u in Updates(post) && u.id == id
  {
    var updates := Updates(post);
    if i :| 0 <= i < |post.inline| && post.inline[i].id == id {
      assert updates[i] in updates;
    } else {
      var i :| 0 <= i < |post.body| && post.body[i].id == id;
      assert updates[|post.inline| + i] in updates;
    }
  }

  lemma MarkOneSpec(rows: seq<Row>, rid: string, id: string, commentId: Option<int>)
    requires DistinctIds(rows, rid)
    ensures |MarkOne(rows, rid, id, commentId)| == |rows|
    ensures forall i :: 0 <= i < |rows| ==>
      (MarkOne(rows, rid, id, commentId)[i]
       == if rows[i].id == id && rows[i].reviewId == rid then rows[i].(status := Posted, commentId := commentId)
          else rows[i])
  {
    if rows != [] {
      var rest := rows[1..];
      if !(rows[0].id == id && rows[0].reviewId == rid) {
        MarkOneSpec(rest, rid, id, commentId);
        assert forall i :: 1 <= i < |rows| ==> rows[i] == rest[i - 1];
      }
    }
  }

  /** A row after marking: named rows carry the id of one of their updates, the others are untouched. */
  ghost predicate MarkedRow(before: Row, after: Row, rid: string, updates: seq<Update>) {
    if before.reviewId == rid && exists u :: u in updates && u.id == before.id
    then exists u :: u in updates && u.id == before.id && after == before.(status := Posted, commentId := u.commentId)
    else after == before
  }

  lemma {:induction false} MarkAllSpec(rows: seq<Row>, rid: string, updates: seq<Update>)
    requires DistinctIds(rows, rid)
    ensures |MarkAll(rows, rid, updates)| == |rows|
    ensures forall i :: 0 <= i < |rows| ==> MarkedRow(rows[i], MarkAll(rows, rid, updates)[i], rid, updates)
  {
    if updates != [] {
      var n := |updates| - 1;
      var (front, last) := (updates[..n], updates[n]);
      var mid := MarkAll(rows, rid, front);
      MarkAllSpec(rows, rid, front);
      assert forall i :: 0 <= i < |rows| ==> mid[i].id == rows[i].id && mid[i].reviewId == rows[i].reviewId;
      MarkOneSpec(mid, rid, last.id, last.commentId);
      var after := MarkOne(mid, rid, last.id, last.commentId);
      assert updates == front + [last] && MarkAll(rows, rid, updates) == after;
      forall i | 0 <= i < |rows| ensures MarkedRow(rows[i], after[i], rid, updates) {
        assert MarkedRow(rows[i], mid[i], rid, front);
        MarkedNext(rows[i], mid[i], after[i], rid, front, last);
      }
    }
  }

  lemma MarkedNext(before: Row, mid: Row, after: Row, rid: string, front: seq<Update>, last: Update)
    requires MarkedRow(before, mid, rid, front)
    requires after
      == if mid.id == last.id && mid.reviewId == rid then mid.(status := Posted, commentId := last.commentId) else mid
    ensures MarkedRow(before, after, rid, front + [last])
  {
    var updates := front + [last];
    assert last in updates && (forall u :: u in front ==> u in updates);
    assert forall u :: u in updates ==> u in front || u == last;
  }

  // ---------------------------------------------------------------- over every run

  /** `f` is one of the rows that were scheduled when publication began. */
  ghost predicate FromSchedule(rid: string, rows: seq<Row>, f: Row) {
    f in rows && IsScheduled(f, rid)
  }

  /** A row is as it was, or it was scheduled and an accepted post delivered it. */
  ghost predicate RowSound(rid: string, before: Row, now: Row, posts: seq<Post>) {
    || now == before
    || (&& IsScheduled(before, rid)
        && now == before.(status := Posted, commentId := now.commentId)
        && exists p :: p in posts && Delivered(p, now.id, now.commentId))
  }

  ghost predicate RowsSound(rid: string, before: seq<Row>, now: seq<Row>, posts: seq<Post>) {
    && |now| == |before|
    && forall i :: 0 <= i < |before| ==> RowSound(rid, before[i], now[i], posts)
  }

  ghost predicate NoneScheduled(rid: string, rows: seq<Row>) {
    forall i :: 0 <= i < |rows| ==> !IsScheduled(rows[i], rid)
  }

  /** Only scheduled findings, each at most once, and no more inline than the capacity. */
  ghost predicate PostSound(cfg: Config, rows: seq<Row>, p: Post) {
    && (forall f :: f in p.inline || f in p.body ==> FromSchedule(cfg.reviewId, rows, f))
    && (forall f :: (multiset(p.inline) + multiset(p.body))[f] <= 1)
    && (forall f :: f in p.inline ==> CommentLine(f).Some?)
    && (0 <= cfg.capacity ==> |p.inline| <= cfg.capacity)
  }

  /** The findings in hand are scheduled ones, and include all that are still to be published. */
  ghost predicate InHand(cfg: Config, before: seq<Row>, now: seq<Row>, findings: seq<Row>) {
    && (forall f :: f in findings ==> FromSchedule(cfg.reviewId, before, f))
    && (forall f :: multiset(findings)[f] <= 1)
    && (forall i :: 0 <= i < |now| && IsScheduled(now[i], cfg.reviewId) ==> now[i] in findings)
  }

  ghost predicate StageSound(cfg: Config, before: seq<Row>, now: seq<Row>, posts: seq<Post>, stage: Stage) {
    match stage
    case Reading => true
    case Posting(findings) => InHand(cfg, before, now, findings)
    case Degrading(findings) => InHand(cfg, before, now, findings)
    case Recording(p) =>
      p in posts && forall i :: 0 <= i < |now| && IsScheduled(now[i], cfg.reviewId) ==> Names(p, now[i].id)
    case Closing(_) => NoneScheduled(cfg.reviewId, now)
    case Releasing(_) => true
  }

  /** The invariant: `before` are the rows when publication began. */
  ghost predicate Sound(cfg: Config, before: seq<Row>, s: State) {
    && RowsSound(cfg.reviewId, before, s.rows, s.posts)
    && (forall p :: p in s.posts ==> PostSound(cfg, before, p))
    && (forall k :: 0 <= k < |s.attempts| && s.attempts[k].Holding? ==>
          StageSound(cfg, before, s.rows, s.posts, s.attempts[k].stage))
    && (s.review.status == Some(Published) ==> NoneScheduled(cfg.reviewId, s.rows))
  }

  lemma RowsSoundDistinct(rid: string, before: seq<Row>, now: seq<Row>, posts: seq<Post>)
    requires DistinctIds(before, rid) && RowsSound(rid, before, now, posts)
    ensures DistinctIds(now, rid)
  {
    forall i, j | 0 <= i < j < |now| && now[i].reviewId == rid && now[j].reviewId == rid
      ensures now[i].id != now[j].id
    {
      assert RowSound(rid, before[i], now[i], posts) && RowSound(rid, before[j], now[j], posts);
    }
  }

  lemma ScheduledOnce(rows: seq<Row>, rid: string, f: Row)
    requires DistinctIds(rows, rid)
    ensures multiset(ScheduledRows(rows, rid))[f] <= 1
  {
    if rows != [] {
      ScheduledOnce(rows[1..], rid, f);
      if IsScheduled(rows[0], rid) && f == rows[0] {
        ScheduledRowsMember(rows[1..], rid, f);
        assert forall j :: 0 < j < |rows| ==> rows[1..][j - 1] == rows[j];
        assert f !in rows[1..];
      }
    }
  }

  lemma PayloadInHand(cfg: Config, before: seq<Row>, now: seq<Row>, posts: seq<Post>)
    requires DistinctIds(before, cfg.reviewId) && RowsSound(cfg.reviewId, before, now, posts)
    ensures InHand(cfg, before, now, Payload(now, cfg.reviewId))
  {
    var findings := Payload(now, cfg.reviewId);
    RowsSoundDistinct(cfg.reviewId, before, now, posts);
    forall f ensures multiset(findings)[f] <= 1 {
      ScheduledOnce(now, cfg.reviewId, f);
      SortPermutes(PublicationLe, ScheduledRows(now, cfg.reviewId));
    }
    forall f | f in findings ensures FromSchedule(cfg.reviewId, before, f) {
      PayloadMember(now, cfg.reviewId, f);
      var i :| 0 <= i < |now| && now[i] == f;
      assert RowSound(cfg.reviewId, before[i], now[i], posts);
    }
    forall i | 0 <= i < |now| && IsScheduled(now[i], cfg.reviewId) ensures now[i] in findings {
      PayloadMember(now, cfg.reviewId, now[i]);
    }
  }

  /** The post an attempt makes from the findings in hand names all that are still to be published. */
  lemma PostFromHand(cfg: Config, before: seq<Row>, now: seq<Row>, stage: Stage, k: nat, reply: Reply)
    requires stage.Posting? || stage.Degrading?
    requires InHand(cfg, before, now, stage.findings)
    ensures PostSound(cfg, before, PostOf(cfg, k, stage, reply))
    ensures forall i :: 0 <= i < |now| && IsScheduled(now[i], cfg.reviewId) ==>
      Names(PostOf(cfg, k, stage, reply), now[i].id)
  {
    var p := PostOf(cfg, k, stage, reply);
    if stage.Posting? {
      SplitPartitions(stage.findings, cfg.capacity);
    }
    assert multiset(p.inline) + multiset(p.body) == multiset(stage.findings);
    forall f ensures f in stage.findings <==> f in p.inline || f in p.body {
      assert f in multiset(stage.findings) <==> f in multiset(p.inline) || f in multiset(p.body);
    }
  }

  lemma UpdateIsScheduled(cfg: Config, before: seq<Row>, p: Post, u: Update)
    requires PostSound(cfg, before, p) && u in Updates(p)
    ensures exists f :: FromSchedule(cfg.reviewId, before, f) && f.id == u.id
  {
    var i :| 0 <= i < |Updates(p)| && Updates(p)[i] == u;
    var f := if i < |p.inline| then p.inline[i] else p.body[i - |p.inline|];
    assert f in p.inline || f in p.body;
    assert FromSchedule(cfg.reviewId, before, f) && f.id == u.id;
  }

  lemma MarkedRowSound(cfg: Config, before: seq<Row>, now: seq<Row>, posts: seq<Post>, p: Post, after: Row, i: nat)
    requires DistinctIds(before, cfg.reviewId) && RowsSound(cfg.reviewId, before, now, posts) && i < |now|
    requires p in posts && PostSound(cfg, before, p)
    requires MarkedRow(now[i], after, cfg.reviewId, Updates(p))
    ensures RowSound(cfg.reviewId, before[i], after, posts)
    ensures IsScheduled(after, cfg.reviewId) ==> after == now[i] && !Names(p, now[i].id)
  {
    assert RowSound(cfg.reviewId, before[i], now[i], posts);
    if now[i].reviewId == cfg.reviewId && exists u :: u in Updates(p) && u.id == now[i].id {
      var u :| u in Updates(p) && u.id == now[i].id && after == now[i].(status := Posted, commentId := u.commentId);
      UpdatesDeliver(p, u);
      UpdateIsScheduled(cfg, before, p, u);
      var f :| FromSchedule(cfg.reviewId, before, f) && f.id == u.id;
      var j :| 0 <= j < |before| && before[j] == f;
      assert i == j;
    } else if Names(p, now[i].id) {
      NamedIsUpdated(p, now[i].id);
    }
  }

  lemma MarkingSound(cfg: Config, before: seq<Row>, now: seq<Row>, posts: seq<Post>, p: Post)
    requires DistinctIds(before, cfg.reviewId) && RowsSound(cfg.reviewId, before, now, posts)
    requires PostSound(cfg, before, p) && StageSound(cfg, before, now, posts, Recording(p))
    ensures RowsSound(cfg.reviewId, before, MarkAll(now, cfg.reviewId, Updates(p)), posts)
    ensures NoneScheduled(cfg.reviewId, MarkAll(now, cfg.reviewId, Updates(p)))
  {
    RowsSoundDistinct(cfg.reviewId, before, now, posts);
    MarkAllSpec(now, cfg.reviewId, Updates(p));
    var after := MarkAll(now, cfg.reviewId, Updates(p));
    forall i | 0 <= i < |after|
      ensures RowSound(cfg.reviewId, before[i], after[i], posts) && !IsScheduled(after[i], cfg.reviewId)
    {
      MarkedRowSound(cfg, before, now, posts, p, after[i], i);
    }
  }

  /** A stage stays sound while posts are added and scheduled rows only disappear. */
  lemma StageSoundMonotone(cfg: Config, before: seq<Row>, now: seq<Row>, later: seq<Row>,
                           posts: seq<Post>, more: seq<Post>, stage: Stage)
    requires StageSound(cfg, before, now, posts, stage)
    requires forall p :: p in posts ==> p in more
    requires |later| == |now| && (later == now || NoneScheduled(cfg.reviewId, later))
    ensures StageSound(cfg, before, later, more, stage)
  {
  }

  lemma RowsSoundMonotone(rid: string, before: seq<Row>, now: seq<Row>, posts: seq<Post>, more: seq<Post>)
    requires RowsSound(rid, before, now, posts) && forall p :: p in posts ==> p in more
    ensures RowsSound(rid, before, now, more)
  {
    forall i | 0 <= i < |before| ensures RowSound(rid, before[i], now[i], more) {
      assert RowSound(rid, before[i], now[i], posts);
    }
  }

  lemma AfterReadingSound(cfg: Config, before: seq<Row>, s: State)
    requires DistinctIds(before, cfg.reviewId) && Sound(cfg, before, s)
    ensures var stage := AfterReading(cfg, s.review, Payload(s.rows, cfg.reviewId));
            stage.Some? ==> StageSound(cfg, before, s.rows, s.posts, stage.value)
  {
    PayloadInHand(cfg, before, s.rows, s.posts);
  }

  lemma PerformSound(cfg: Config, before: seq<Row>, s: State, k: nat, reply: Reply)
    requires DistinctIds(before, cfg.reviewId) && Sound(cfg, before, s)
    requires k < |s.attempts| && s.attempts[k].Holding?
    ensures Sound(cfg, before, Perform(cfg, s, k, reply))
  {
    var (a, t) := (s.attempts[k], Perform(cfg, s, k, reply));
    RowsSoundMonotone(cfg.reviewId, before, s.rows, s.posts, t.posts);
    match a.stage
    case Reading => AfterReadingSound(cfg, before, s);
    case Posting(_) => PostFromHand(cfg, before, s.rows, a.stage, k, reply);
    case Degrading(_) => PostFromHand(cfg, before, s.rows, a.stage, k, reply);
    case Recording(p) => MarkingSound(cfg, before, s.rows, s.posts, p);
    case Closing(_) =>
    case Releasing(_) =>
    forall j | 0 <= j < |s.attempts| && s.attempts[j].Holding?
      ensures StageSound(cfg, before, t.rows, t.posts, s.attempts[j].stage)
    {
      StageSoundMonotone(cfg, before, s.rows, t.rows, s.posts, t.posts, s.attempts[j].stage);
    }
  }

  lemma FailSound(cfg: Config, before: seq<Row>, s: State, k: nat, how: How, reply: Reply)
    requires Sound(cfg, before, s)
    requires k < |s.attempts| && s.attempts[k].Holding? && !how.Done?
    ensures Sound(cfg, before, Fail(cfg, s, k, how, reply))
  {
    var (a, t) := (s.attempts[k], Fail(cfg, s, k, how, reply));
    RowsSoundMonotone(cfg.reviewId, before, s.rows, s.posts, t.posts);
    if TakesEffect(a.stage, how) {
      PostFromHand(cfg, before, s.rows, a.stage, k, reply);
    }
    forall j | 0 <= j < |s.attempts| && s.attempts[j].Holding?
      ensures StageSound(cfg, before, t.rows, t.posts, s.attempts[j].stage)
    {
      StageSoundMonotone(cfg, before, s.rows, t.rows, s.posts, t.posts, s.attempts[j].stage);
    }
  }

  lemma {:induction false} SoundAlways(cfg: Config, s: State, labels: seq<Label>)
    requires Initial(cfg, s)
    ensures Sound(cfg, s.rows, Run(cfg, s, labels))
  {
    if labels != [] {
      var before := Run(cfg, s, labels[..|labels| - 1]);
      SoundAlways(cfg, s, labels[..|labels| - 1]);
      match labels[|labels| - 1]
      case Act(k, how, reply) =>
        if k < |before.attempts| && before.attempts[k].Holding? {
          if how.Done? {
            PerformSound(cfg, s.rows, before, k, reply);
          } else {
            FailSound(cfg, s.rows, before, k, how, reply);
          }
        }
      case _ =>
    }
  }

  /**
    No finding is lost, whatever the interleaving: when the review is PUBLISHED, every row that
    was scheduled is marked, and an accepted post carries it with the comment id now stored.
    Rows that were not scheduled are untouched.
   */
  lemma PublishedMeansDelivered(cfg: Config, s: State, labels: seq<Label>, i: nat)
    requires Initial(cfg, s) && i < |s.rows|
    requires Run(cfg, s, labels).review.status == Some(Published)
    ensures |Run(cfg, s, labels).rows| == |s.rows|
    ensures var (row, now) := (s.rows[i], Run(cfg, s, labels).rows[i]);
            if IsScheduled(row, cfg.reviewId) then
              && now == row.(status := Posted, commentId := now.commentId)
              && exists p :: p in Run(cfg, s, labels).posts && Delivered(p, row.id, now.commentId)
            else now == row
  {
    SoundAlways(cfg, s, labels);
    assert RowSound(cfg.reviewId, s.rows[i], Run(cfg, s, labels).rows[i], Run(cfg, s, labels).posts);
  }

  /** A row marked PUBLISHED really was accepted by GitHub, in every state of every run. */
  lemma MarkedMeansPosted(cfg: Config, s: State, labels: seq<Label>, i: nat)
    requires Initial(cfg, s) && i < |s.rows|
    ensures |Run(cfg, s, labels).rows| == |s.rows|
    ensures var now := Run(cfg, s, labels).rows[i];
            now != s.rows[i] ==>
              && IsScheduled(s.rows[i], cfg.reviewId)
              && (exists p :: p in Run(cfg, s, labels).posts && PostSound(cfg, s.rows, p)
                                && Delivered(p, now.id, now.commentId))
  {
    SoundAlways(cfg, s, labels);
    var r := Run(cfg, s, labels);
    assert RowSound(cfg.reviewId, s.rows[i], r.rows[i], r.posts);
  }

  // ---------------------------------------------------------------- one undisturbed attempt

  /** Findings on one post have distinct ids, so no two updates compete. */
  lemma PostedIdsDistinct(cfg: Config, rows: seq<Row>, p: Post, i: nat, j: nat)
    requires DistinctIds(rows, cfg.reviewId) && PostSound(cfg, rows, p)
    requires i < j < |p.inline| + |p.body|
    ensures (p.inline + p.body)[i].id != (p.inline + p.body)[j].id
  {
    var all := p.inline + p.body;
    assert multiset(all) == multiset(p.inline) + multiset(p.body);
    assert all[i] in p.inline || all[i] in p.body;
    assert all[j] in p.inline || all[j] in p.body;
    var a :| 0 <= a < |rows| && rows[a] == all[i];
    var b :| 0 <= b < |rows| && rows[b] == all[j];
    if all[i].id == all[j].id {
      assert a == b;
      TwiceIn(all, i, j);
    }
  }

  /** A finding at position `p` of the post gets exactly the p-th update. */
  lemma PositionDecides(cfg: Config, rows: seq<Row>, post: Post, r: nat, p: nat)
    requires DistinctIds(rows, cfg.reviewId) && PostSound(cfg, rows, post)
    requires r < |rows| && p < |post.inline| + |post.body| && (post.inline + post.body)[p] == rows[r]
    ensures |MarkAll(rows, cfg.reviewId, Updates(post))| == |rows|
    ensures MarkAll(rows, cfg.reviewId, Updates(post))[r]
         == rows[r].(status := Posted, commentId := Updates(post)[p].commentId)
  {
    var (all, updates) := (post.inline + post.body, Updates(post));
    assert all[p] in post.inline || all[p] in post.body;
    UpdateIds(post);
    forall q | 0 <= q < |updates| && updates[q].id == rows[r].id ensures q == p {
      UpdatesDistinct(cfg, rows, post, p, q);
    }
    OneUpdateDecides(rows, cfg.reviewId, updates, r, p);
  }

  /** Each update names the finding at its position. */
  lemma UpdateIds(post: Post)
    ensures |Updates(post)| == |post.inline + post.body|
    ensures forall q :: 0 <= q < |Updates(post)| ==> Updates(post)[q].id == (post.inline + post.body)[q].id
  {
  }

  lemma UpdatesDistinct(cfg: Config, rows: seq<Row>, post: Post, p: nat, q: nat)
    requires DistinctIds(rows, cfg.reviewId) && PostSound(cfg, rows, post)
    requires p < |post.inline + post.body| && q < |post.inline + post.body|
    requires (post.inline + post.body)[p].id == (post.inline + post.body)[q].id
    ensures p == q
  {
    if p < q { PostedIdsDistinct(cfg, rows, post, p, q); }
    if q < p { PostedIdsDistinct(cfg, rows, post, q, p); }
  }

  lemma OneUpdateDecides(rows: seq<Row>, rid: string, updates: seq<Update>, r: nat, p: nat)
    requires DistinctIds(rows, rid) && r < |rows| && p < |updates|
    requires rows[r].reviewId == rid && updates[p].id == rows[r].id
    requires forall q :: 0 <= q < |updates| && updates[q].id == rows[r].id ==> q == p
    ensures |MarkAll(rows, rid, updates)| == |rows|
    ensures MarkAll(rows, rid, updates)[r] == rows[r].(status := Posted, commentId := updates[p].commentId)
  {
    MarkAllSpec(rows, rid, updates);
    var after := MarkAll(rows, rid, updates)[r];
    assert MarkedRow(rows[r], after, rid, updates);
    assert updates[p] in updates;
    var u :| u in updates && u.id == rows[r].id && after == rows[r].(status := Posted, commentId := u.commentId);
    var q :| 0 <= q < |updates| && updates[q] == u;
  }

  lemma UnscheduledUntouched(cfg: Config, rows: seq<Row>, post: Post, r: nat)
    requires DistinctIds(rows, cfg.reviewId) && PostSound(cfg, rows, post)
    requires r < |rows| && !IsScheduled(rows[r], cfg.reviewId)
    ensures |MarkAll(rows, cfg.reviewId, Updates(post))| == |rows|
    ensures MarkAll(rows, cfg.reviewId, Updates(post))[r] == rows[r]
  {
    var updates := Updates(post);
    MarkAllSpec(rows, cfg.reviewId, updates);
    assert MarkedRow(rows[r], MarkAll(rows, cfg.reviewId, updates)[r], cfg.reviewId, updates);
    if u :| u in updates && u.id == rows[r].id && rows[r].reviewId == cfg.reviewId {
      UpdateIsScheduled(cfg, rows, post, u);
    }
  }

  lemma PayloadPost(cfg: Config, rows: seq<Row>, stage: Stage, k: nat, reply: Reply)
    requires DistinctIds(rows, cfg.reviewId)
    requires stage == Posting(Payload(rows, cfg.reviewId)) || stage == Degrading(Payload(rows, cfg.reviewId))
    ensures PostSound(cfg, rows, PostOf(cfg, k, stage, reply))
    ensures var post := PostOf(cfg, k, stage, reply);
            forall f :: f in post.inline + post.body <==> f in rows && IsScheduled(f, cfg.reviewId)
  {
    assert RowsSound(cfg.reviewId, rows, rows, []);
    PayloadInHand(cfg, rows, rows, []);
    PostFromHand(cfg, rows, rows, stage, k, reply);
    var post := PostOf(cfg, k, stage, reply);
    forall f ensures f in post.inline + post.body <==> f in rows && IsScheduled(f, cfg.reviewId) {
      PayloadMember(rows, cfg.reviewId, f);
      if stage.Posting? {
        SplitMembers(stage.findings, cfg.capacity, f);
      }
    }
  }

  /**
    The normal, overflow and degrade-to-body paths alike: recording a post made from the payload
    publishes exactly the scheduled rows; the i-th inline finding gets the i-th returned comment id
    and a body finding gets none.
   */
  lemma RecordingDelivers(cfg: Config, rows: seq<Row>, stage: Stage, k: nat, reply: Reply, r: nat)
    requires DistinctIds(rows, cfg.reviewId) && r < |rows|
    requires stage == Posting(Payload(rows, cfg.reviewId)) || stage == Degrading(Payload(rows, cfg.reviewId))
    ensures |MarkAll(rows, cfg.reviewId, Updates(PostOf(cfg, k, stage, reply)))| == |rows|
    ensures var post := PostOf(cfg, k, stage, reply);
            var after := MarkAll(rows, cfg.reviewId, Updates(post))[r];
            if !IsScheduled(rows[r], cfg.reviewId) then after == rows[r]
            else
              || (exists i :: 0 <= i < |post.inline| && post.inline[i] == rows[r]
                    && var id := if i < |reply.comments| then Some(reply.comments[i]) else None;
                       after == rows[r].(status := Posted, commentId := id))
              || (rows[r] in post.body && after == rows[r].(status := Posted, commentId := None))
  {
    var post := PostOf(cfg, k, stage, reply);
    PayloadPost(cfg, rows, stage, k, reply);
    if !IsScheduled(rows[r], cfg.reviewId) {
      UnscheduledUntouched(cfg, rows, post, r);
    } else {
      assert rows[r] in post.inline + post.body;
      var p :| 0 <= p < |post.inline + post.body| && (post.inline + post.body)[p] == rows[r];
      PositionDecides(cfg, rows, post, r, p);
      PositionOfRow(post, rows[r], p);
    }
  }

  /** A position of the post is an inline comment with its own id, or an entry of the body. */
  lemma PositionOfRow(post: Post, row: Row, p: nat)
    requires p < |post.inline| + |post.body| && (post.inline + post.body)[p] == row
    ensures if p < |post.inline|
            then post.inline[p] == row
              && Updates(post)[p].commentId
                == (if p < |post.reply.comments| then Some(post.reply.comments[p]) else None)
            else row in post.body && Updates(post)[p].commentId == None
  {
    if p >= |post.inline| {
      assert post.body[p - |post.inline|] == row;
    }
  }
}
