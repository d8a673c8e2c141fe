/** `MemoryOrchestratorStore`: reviews and findings updated in place. */
module MemoryStore {
  import opened Common
  import opened Ordering
  import opened Records
  import opened Decisions
  import opened Grouping
  import opened Selection

  /** Marking changes the row at the first match only. */
  lemma {:induction false} MarkOneAt(rows: seq<Row>, rid: string, id: string, commentId: Option<int>, i: nat)
    requires i <= |rows| && forall j :: 0 <= j < i ==> !(rows[j].id == id && rows[j].reviewId == rid)
    requires i < |rows| ==> rows[i].id == id && rows[i].reviewId == rid
    ensures MarkOne(rows, rid, id, commentId) == if i < |rows| then rows[i := AsPosted(rows[i], commentId)] else rows
  {
    if i > 0 {
      MarkOneAt(rows[1..], rid, id, commentId, i - 1);
      assert rows == [rows[0]] + rows[1..];
    }
  }

  lemma {:induction false} GroupOneAt(rows: seq<Row>, rid: string, id: string, group: string, i: nat)
    requires i <= |rows| && forall j :: 0 <= j < i ==> !(rows[j].id == id && rows[j].reviewId == rid)
    requires i < |rows| ==> rows[i].id == id && rows[i].reviewId == rid
    ensures GroupOne(rows, rid, id, group) == if i < |rows| then rows[i := rows[i].(group := Some(group))] else rows
  {
    if i > 0 {
      GroupOneAt(rows[1..], rid, id, group, i - 1);
      assert rows == [rows[0]] + rows[1..];
    }
  }

  class Store {
    var reviews: map<string, Review>
    var findings: seq<Row>
    var repositories: map<string, string>

    constructor ()
      ensures reviews == map[] && findings == [] && repositories == map[]
    {
      reviews, findings, repositories := map[], [], map[];
    }

    /** Creates the record when it is missing, as `setdefault` does. */
    method Transition(id: string, status: Status, more: Details, at: int)
      modifies this`reviews
      ensures var rec := if id in old(reviews) then old(reviews)[id] else EMPTY_REVIEW;
              reviews == old(reviews)[id := Transitioned(rec, status, more, at)]
    {
      var record := if id in reviews then reviews[id] else EMPTY_REVIEW;
      var previous := record.status;
      record := record.(status := Some(status));
      if more.failureReason.Some? {
        record := record.(failureReason := more.failureReason);
      }
      if more.rootCause.Some? {
        record := record.(rootCause := more.rootCause);
      }
      if more.completedAt.Some? {
        record := record.(completedAt := more.completedAt);
      }
      reviews := reviews[id := record.(history := record.history + [Event(status, previous, at)])];
    }

    method ClaimReviewForPublication(id: string, claimStaleBefore: int, now: int) returns (claimed: bool)
      modifies this`reviews
      ensures claimed == (id in old(reviews) && Claimable(old(reviews)[id], claimStaleBefore))
      ensures reviews == if claimed then old(reviews)[id := Claimed(old(reviews)[id], now)] else old(reviews)
    {
      if id !in reviews {
        return false;
      }
      var status := reviews[id].status;
      if status !in {Some(Deciding), Some(Iterating), Some(Publishing)} {
        return false;
      }
      if status == Some(Publishing) {
        var claimedAt := reviews[id].claimedAt;
        if claimedAt.None? || claimedAt.value > claimStaleBefore {
          return false;
        }
      }
      reviews := reviews[id := reviews[id].(status := Some(Publishing), claimedAt := Some(now))];
      reviews := reviews[id := reviews[id].(history := reviews[id].history + [Event(Publishing, status, now)])];
      return true;
    }

    method ReleaseReviewFromPublication(id: string, now: int)
      modifies this`reviews
      ensures reviews == if id in old(reviews) then old(reviews)[id := Released(old(reviews)[id], now)]
                         else old(reviews)
    {
      if id !in reviews || reviews[id].status != Some(Publishing) {
        return;
      }
      reviews := reviews[id := reviews[id].(status := Some(Deciding), claimedAt := None)];
      reviews := reviews[id := reviews[id].(history := reviews[id].history + [Event(Deciding, Some(Publishing), now)])];
    }

    /** The scheduled findings in publication order; None when the review does not exist. */
    method PublicationPayload(id: string) returns (payload: Option<seq<Row>>)
      ensures payload == if id in reviews then Some(Payload(findings, id)) else None
      ensures payload.Some? ==> forall i, j :: 0 <= i < j < |payload.value| ==>
        var (a, b) := (payload.value[i], payload.value[j]);
        var u := if a.utility.Some? then a.utility.value else 0.0;
        var v := if b.utility.Some? then b.utility.value else 0.0;
        u >= v && (u == v ==> StringLe(a.id, b.id))
      ensures payload.Some? ==> Sorted(PublicationLe, payload.value)
      ensures payload.Some? ==> multiset(payload.value) == multiset(ScheduledRows(findings, id))
      ensures payload.Some? ==> forall row :: row in payload.value ==>
        row in findings && row.reviewId == id && row.status == Scheduled
      ensures payload.Some? ==> forall row :: row in findings && row.reviewId == id && row.status == Scheduled ==>
        row in payload.value
    {
      if id !in reviews {
        return None;
      }
      PayloadSorted(findings, id);
      forall row ensures row in Payload(findings, id) <==> row in findings && IsScheduled(row, id) {
        PayloadMember(findings, id, row);
      }
      var selected := ScheduledRows(findings, id);
      return Some(Sort(PublicationLe, selected));
    }

    /** The search for the finding an update names, and the update. */
    method MarkFirst(id: string, u: Update)
      modifies this`findings
      ensures findings == MarkOne(old(findings), id, u.id, u.commentId)
    {
      var i := 0;
      while i < |findings| && !(findings[i].id == u.id && findings[i].reviewId == id)
        invariant 0 <= i <= |findings| && findings == old(findings)
        invariant forall j :: 0 <= j < i ==> !(findings[j].id == u.id && findings[j].reviewId == id)
      {
        i := i + 1;
      }
      MarkOneAt(findings, id, u.id, u.commentId, i);
      if i < |findings| {
        findings := findings[i := AsPosted(findings[i], u.commentId)];
      }
    }

    method MarkFindingsPublished(id: string, updates: seq<Update>)
      modifies this`findings
      ensures findings == MarkAll(old(findings), id, updates)
    {
      var n := 0;
      while n < |updates|
        invariant 0 <= n <= |updates|
        invariant findings == MarkAll(old(findings), id, updates[..n])
      {
        MarkFirst(id, updates[n]);
        assert updates[..n + 1][..n] == updates[..n];
        n := n + 1;
      }
      assert updates[..n] == updates;
    }

    method MarkReviewPublished(id: string, githubReviewId: Option<int>, publishedAt: int, now: int)
      modifies this`reviews
      ensures reviews == if id in old(reviews)
                         then old(reviews)[id := MarkedPublished(old(reviews)[id], githubReviewId, publishedAt, now)]
                         else old(reviews)
    {
      if id !in reviews {
        return;
      }
      reviews := reviews[id := reviews[id].(githubReviewId := githubReviewId, publishedAt := Some(publishedAt))];
      Transition(id, Published, Details(None, None, Some(publishedAt)), now);
      reviews := reviews[id := reviews[id].(notes := reviews[id].notes + [PUBLISHED_NOTE])];
    }

    // ------------------------------------------------------------ consolidation and decisions

    method CreateFindings(id: string, rows: seq<Finding>)
      modifies this`findings
      ensures findings == old(findings) + NewRows(rows, id)
    {
      for i := 0 to |rows|
        invariant findings == old(findings) + NewRows(rows, id)[..i]
      {
        findings := findings + [NewRow(rows[i], id)];
      }
    }

    /** The search for one finding, and its group. */
    method GroupFirst(id: string, findingId: string, group: string)
      modifies this`findings
      ensures findings == GroupOne(old(findings), id, findingId, group)
    {
      var i := 0;
      while i < |findings| && !(findings[i].id == findingId && findings[i].reviewId == id)
        invariant 0 <= i <= |findings| && findings == old(findings)
        invariant forall j :: 0 <= j < i ==> !(findings[j].id == findingId && findings[j].reviewId == id)
      {
        i := i + 1;
      }
      GroupOneAt(findings, id, findingId, group, i);
      if i < |findings| {
        findings := findings[i := findings[i].(group := Some(group))];
      }
    }

    method UpdateFindingDuplicates(id: string, updates: seq<(string, string)>)
      modifies this`findings
      ensures findings == GroupAll(old(findings), id, updates)
    {
      for n := 0 to |updates|
        invariant findings == GroupAll(old(findings), id, updates[..n])
      {
        GroupFirst(id, updates[n].0, updates[n].1);
        assert updates[..n + 1][..n] == updates[..n];
      }
      assert updates[..|updates|] == updates;
    }

    /** The index of the first finding with this id, or the number of findings. */
    method FindFinding(id: string) returns (i: nat)
      ensures i <= |findings| && (i < |findings| <==> HasRow(findings, id))
      ensures forall d: Decision :: d.findingId == id ==>
        DecideFirst(findings, d) == if i < |findings| then findings[i := Decided(findings[i], d)] else findings
    {
      i := 0;
      while i < |findings| && findings[i].id != id
        invariant i <= |findings|
        invariant HasRow(findings, id) == HasRow(findings[i..], id)
        invariant forall d: Decision :: d.findingId == id ==>
          DecideFirst(findings, d) == findings[..i] + DecideFirst(findings[i..], d)
      {
        assert findings[i..][1..] == findings[i + 1..];
        i := i + 1;
      }
      if i < |findings| {
        assert findings[i..][1..] == findings[i + 1..];
      }
    }

    /** The loop that suppresses the other rows of the decision's group. */
    method SuppressGroup(d: Decision)
      requires d.selected.Some? && d.groupId.Some? && d.groupId.value != ""
      modifies this`findings
      ensures findings == SuppressOthers(old(findings), d)
    {
      ghost var before := findings;
      for i := 0 to |findings|
        invariant |findings| == |before|
        invariant forall j :: 0 <= j < |before| ==>
          findings[j] == if j < i && SuppressedBy(before[j], d) then before[j].(status := Suppressed) else before[j]
      {
        if findings[i].group == d.groupId && findings[i].id != d.findingId {
          findings := findings[i := findings[i].(status := Suppressed)];
        }
      }
    }

    method ApplyDecision(d: Decision)
      modifies this`findings
      ensures findings == ApplyOne(old(findings), d)
    {
      var target := FindFinding(d.findingId);
      if target == |findings| {
        return;
      }
      findings := findings[target := Decided(findings[target], d)];
      if d.selected.Some? && d.groupId.Some? && d.groupId.value != "" {
        SuppressGroup(d);
      } else {
        assert SuppressOthers(findings, d) == findings;
      }
    }
  }
}
