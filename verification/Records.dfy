/**
  Review and finding records, and what each store operation of the publication layer does to
  them. The in-memory store (`MemoryStore`) is proved against these functions and the protocol
  (`Protocol`) takes its steps with them.
 */
module Records {
  import opened Common
  import opened Ordering

  datatype Status =
    | Received | Queued | Processing | AgentsRunning | Consolidating | Deciding | Publishing
    | Published | WaitingForFeedback | Iterating | Completed | Failed | Cancelled

  /** `Posted` is the source's PUBLISHED for findings. */
  datatype FindingStatus = Candidate | Scheduled | Posted | Suppressed | Resolved | Stale

  /** One entry of `status_history`. */
  datatype Event = Event(status: Status, from: Option<Status>, at: int)

  /** A review row; `prNumber`, `repositoryId` and the rest may be missing, as in the source. */
  datatype Review = Review(
    status: Option<Status>,
    claimedAt: Option<int>,
    history: seq<Event>,
    githubReviewId: Option<int>,
    publishedAt: Option<int>,
    completedAt: Option<int>,
    failureReason: Option<string>,
    rootCause: Option<string>,
    notes: seq<string>,
    repositoryId: string,
    fullName: string,
    prNumber: Option<int>,
    headSha: string)

  const EMPTY_REVIEW := Review(None, None, [], None, None, None, None, None, [], "", "", None, "")

  /** A finding row. */
  datatype Row = Row(
    id: string,
    reviewId: string,
    path: string,
    lineStart: Option<int>,
    lineEnd: Option<int>,
    group: Option<string>,
    utility: Option<real>,
    status: FindingStatus,
    commentId: Option<int>)

  // ---------------------------------------------------------------- review records

  /** Sets the status and appends the history entry that records where it came from. */
  function Logged(rec: Review, status: Status, at: int): Review {
    rec.(status := Some(status), history := rec.history + [Event(status, rec.status, at)])
  }

  /** What accompanies a transition; a missing part leaves the record's own as it is. */
  datatype Details = Details(failureReason: Option<string>, rootCause: Option<string>, completedAt: Option<int>)

  function OrElse<T>(x: Option<T>, y: Option<T>): Option<T> {
    if x.Some? then x else y
  }

  function Transitioned(rec: Review, status: Status, more: Details, at: int): Review {
    Logged(rec.(failureReason := OrElse(more.failureReason, rec.failureReason),
                rootCause := OrElse(more.rootCause, rec.rootCause),
                completedAt := OrElse(more.completedAt, rec.completedAt)), status, at)
  }

  /** A claim is granted from DECIDING or ITERATING, or by taking over a stale PUBLISHING claim. */
  predicate Claimable(rec: Review, staleBefore: int) {
    || rec.status == Some(Deciding)
    || rec.status == Some(Iterating)
    || (rec.status == Some(Publishing) && rec.claimedAt.Some? && rec.claimedAt.value <= staleBefore)
  }

  function Claimed(rec: Review, now: int): Review {
    Logged(rec, Publishing, now).(claimedAt := Some(now))
  }

  function Released(rec: Review, now: int): Review {
    if rec.status == Some(Publishing) then Logged(rec, Deciding, now).(claimedAt := None) else rec
  }

  const PUBLISHED_NOTE := "publisher: PR review posted to GitHub."

  function MarkedPublished(rec: Review, githubReviewId: Option<int>, publishedAt: int, now: int): Review {
    var stamped := rec.(githubReviewId := githubReviewId, publishedAt := Some(publishedAt));
    var moved := Transitioned(stamped, Published, Details(None, None, Some(publishedAt)), now);
    moved.(notes := moved.notes + [PUBLISHED_NOTE])
  }

  /** Every entry starts where the previous one ended, and the last one ends at `status`. */
  ghost predicate LinkedHistory(rec: Review) {
    && (forall i :: 0 < i < |rec.history| ==> rec.history[i].from == Some(rec.history[i - 1].status))
    && (rec.history != [] ==> rec.status == Some(rec.history[|rec.history| - 1].status))
  }

  lemma LoggedKeepsLinks(rec: Review, status: Status, at: int)
    requires LinkedHistory(rec)
    ensures LinkedHistory(Logged(rec, status, at))
  {
  }

  /** Every store operation on a review keeps its status history a linked chain. */
  lemma OperationsKeepLinks(rec: Review, status: Status, more: Details, githubReviewId: Option<int>, stamp: int,
                            now: int)
    requires LinkedHistory(rec)
    ensures LinkedHistory(Transitioned(rec, status, more, now))
    ensures LinkedHistory(Claimed(rec, now))
    ensures LinkedHistory(Released(rec, now))
    ensures LinkedHistory(MarkedPublished(rec, githubReviewId, stamp, now))
  {
    assert LinkedHistory(Transitioned(rec, status, more, now));
    LoggedKeepsLinks(rec, Publishing, now);
    LoggedKeepsLinks(rec, Deciding, now);
    var stamped := rec.(githubReviewId := githubReviewId, publishedAt := Some(stamp), completedAt := Some(stamp));
    LoggedKeepsLinks(stamped, Published, now);
  }

  // ---------------------------------------------------------------- finding rows

  predicate IsScheduled(row: Row, reviewId: string) {
    row.reviewId == reviewId && row.status == Scheduled
  }

  function UtilityOrZero(row: Row): real {
    if row.utility.Some? then row.utility.value else 0.0
  }

  /** Publication order: utility descending, then id. */
  predicate PublicationLe(a: Row, b: Row) {
    var (u, v) := (UtilityOrZero(a), UtilityOrZero(b));
    u > v || (u == v && StringLe(a.id, b.id))
  }

  function ScheduledRows(rows: seq<Row>, reviewId: string): seq<Row> {
    if rows == [] then []
    else (if IsScheduled(rows[0], reviewId) then [rows[0]] else []) + ScheduledRows(rows[1..], reviewId)
  }

  /** The `findings` entry of the publication payload. */
  function Payload(rows: seq<Row>, reviewId: string): seq<Row> {
    Sort(PublicationLe, ScheduledRows(rows, reviewId))
  }

  function AsPosted(row: Row, commentId: Option<int>): Row {
    row.(status := Posted, commentId := commentId)
  }

  /** Marks the first row with this id and review. */
  function MarkOne(rows: seq<Row>, reviewId: string, id: string, commentId: Option<int>): seq<Row> {
    if rows == [] then []
    else if rows[0].id == id && rows[0].reviewId == reviewId then
      [AsPosted(rows[0], commentId)] + rows[1..]
    else
      [rows[0]] + MarkOne(rows[1..], reviewId, id, commentId)
  }

  datatype Update = Update(id: string, commentId: Option<int>)

  /** Applies the updates one after the other. */
  function MarkAll(rows: seq<Row>, reviewId: string, updates: seq<Update>): seq<Row> {
    if updates == [] then rows
    else
      var last := updates[|updates| - 1];
      MarkOne(MarkAll(rows, reviewId, updates[..|updates| - 1]), reviewId, last.id, last.commentId)
  }

  /** Finding ids within the review are distinct. */
  ghost predicate DistinctIds(rows: seq<Row>, reviewId: string) {
    forall i, j :: 0 <= i < j < |rows| && rows[i].reviewId == reviewId && rows[j].reviewId == reviewId
      ==> rows[i].id != rows[j].id
  }

  lemma ScheduledRowsMember(rows: seq<Row>, reviewId: string, row: Row)
    ensures row in ScheduledRows(rows, reviewId) <==> row in rows && IsScheduled(row, reviewId)
  {
  }

  /** The payload lists exactly the review's scheduled rows. */
  lemma PayloadMember(rows: seq<Row>, reviewId: string, row: Row)
    ensures row in Payload(rows, reviewId) <==> row in rows && row.reviewId == reviewId && row.status == Scheduled
  {
    ScheduledRowsMember(rows, reviewId, row);
    SortPermutes(PublicationLe, ScheduledRows(rows, reviewId));
    SameElements(Payload(rows, reviewId), ScheduledRows(rows, reviewId));
  }

  lemma PublicationOrders(rows: seq<Row>)
    ensures PreordersAll(PublicationLe, rows)
  {
    forall x, y ensures PublicationLe(x, y) || PublicationLe(y, x) {
      StringLeTotal(x.id, y.id);
    }
    forall x, y, z | PublicationLe(x, y) && PublicationLe(y, z) ensures PublicationLe(x, z) {
      if StringLe(x.id, y.id) && StringLe(y.id, z.id) {
        StringLeTransitive(x.id, y.id, z.id);
      }
    }
  }

  /**
    The payload lists each scheduled row as often as the store does. More useful findings come first, where a missing
    utility counts as 0, and equally useful ones come by id.
   */
  lemma PayloadSorted(rows: seq<Row>, reviewId: string)
    ensures Sorted(PublicationLe, Payload(rows, reviewId))
    ensures multiset(Payload(rows, reviewId)) == multiset(ScheduledRows(rows, reviewId))
    ensures forall i, j :: 0 <= i < j < |Payload(rows, reviewId)| ==>
      var (a, b) := (Payload(rows, reviewId)[i], Payload(rows, reviewId)[j]);
      var u := if a.utility.Some? then a.utility.value else 0.0;
      var v := if b.utility.Some? then b.utility.value else 0.0;
      u >= v && (u == v ==> StringLe(a.id, b.id))
  {
    PublicationOrders(ScheduledRows(rows, reviewId));
    SortSorts(PublicationLe, ScheduledRows(rows, reviewId));
    SortPermutes(PublicationLe, ScheduledRows(rows, reviewId));
    forall i, j | 0 <= i < j < |Payload(rows, reviewId)|
      ensures PublicationLe(Payload(rows, reviewId)[i], Payload(rows, reviewId)[j])
    {
    }
  }
}
