/**
  `SqlOrchestratorStore.claim_review_for_publication`: the claim as two database steps, a read and
  an UPDATE guarded by the status that was read, under any interleaving of workers.
 */
module SqlClaim {
  import opened Common
  import opened Records

  /** The columns the claim touches. */
  datatype Columns = Columns(status: Status, updatedAt: Option<int>, history: seq<Event>)

  function Logged(row: Columns, status: Status, now: int): Columns {
    Columns(status, Some(now), row.history + [Event(status, Some(row.status), now)])
  }

  /** The checks between the read and the UPDATE. */
  predicate Allowed(row: Columns, staleBefore: int) {
    || row.status == Deciding
    || row.status == Iterating
    || (row.status == Publishing && row.updatedAt.Some? && row.updatedAt.value <= staleBefore)
  }

  /** What a worker has done so far; `Seen` keeps the status its UPDATE will be guarded by. */
  datatype Worker = Idle | Seen(status: Status, staleBefore: int) | Over(won: bool)

  /** `winners` lists the workers whose UPDATE matched since the review was last handed back. */
  datatype State = State(row: Columns, workers: seq<Worker>, winners: seq<nat>)

  datatype Label =
    | Join
    | Read(worker: nat, staleBefore: int)
    | TryUpdate(worker: nat, now: int)
    | Release(now: int)
    | Publish(now: int)
    | Reopen(status: Status, now: int)   // orchestration moves the review to DECIDING or ITERATING

  function Next(s: State, move: Label): State {
    match move
    case Join => s.(workers := s.workers + [Idle])
    case Read(w, staleBefore) =>
      if w < |s.workers| && s.workers[w].Idle? then
        s.(workers := s.workers[w := if Allowed(s.row, staleBefore) then Seen(s.row.status, staleBefore)
                                else Over(false)])
      else s
    case TryUpdate(w, now) =>
      if w < |s.workers| && s.workers[w].Seen? then
        if s.row.status == s.workers[w].status
        then State(Logged(s.row, Publishing, now), s.workers[w := Over(true)], s.winners + [w])
        else s.(workers := s.workers[w := Over(false)])
      else s
    case Release(now) => if s.row.status == Publishing then s.(row := Logged(s.row, Deciding, now), winners := [])
      else s
    case Publish(now) => s.(row := Logged(s.row, Published, now))
    case Reopen(status, now) =>
      if status == Deciding || status == Iterating then s.(row := Logged(s.row, status, now), winners := []) else s
  }

  function Run(s: State, labels: seq<Label>): State {
    if labels == [] then s else Next(Run(s, labels[..|labels| - 1]), labels[|labels| - 1])
  }

  // ---------------------------------------------------------------- the one-step claim

  datatype Spec = Spec(row: Columns, winners: seq<nat>)

  datatype SpecLabel =
    | Claim(worker: nat, staleBefore: int, now: int)
    | Skip
    | Other(move: Label)

  /** The claim as a single step: checked and granted at once. */
  function SpecNext(a: Spec, move: SpecLabel): Spec {
    match move
    case Claim(w, staleBefore, now) =>
      if Allowed(a.row, staleBefore) then Spec(Logged(a.row, Publishing, now), a.winners + [w]) else a
    case Skip => a
    case Other(m) => var t := Next(State(a.row, [], a.winners), m); Spec(t.row, t.winners)
  }

  function SpecRun(a: Spec, labels: seq<SpecLabel>): Spec {
    if labels == [] then a else SpecNext(SpecRun(a, labels[..|labels| - 1]), labels[|labels| - 1])
  }

  function Abstract(s: State): Spec {
    Spec(s.row, s.winners)
  }

  /** The UPDATE of this step matches the row. */
  predicate Matches(s: State, move: Label) {
    && move.TryUpdate? && move.worker < |s.workers|
    && s.workers[move.worker].Seen? && s.workers[move.worker].status == s.row.status
  }

  /** The step of the one-step claim that this step of the two-step claim stands for. */
  function Image(s: State, move: Label): SpecLabel {
    match move
    case Join => Skip
    case Read(_, _) => Skip
    case TryUpdate(w, now) => if Matches(s, move) then Claim(w, s.workers[w].staleBefore, now) else Skip
    case _ => Other(move)
  }

  /** The step is a takeover: the worker read PUBLISHING. */
  predicate Takeover(s: State, move: Label) {
    Matches(s, move) && s.row.status == Publishing
  }

  /** Workers only go on to their UPDATE from the three statuses the read lets through. */
  ghost predicate WellRead(s: State) {
    forall w :: 0 <= w < |s.workers| && s.workers[w].Seen? ==> s.workers[w].status in {Deciding, Iterating, Publishing}
  }

  /**
    A two-step claim refines the one-step claim, with the same row and the same winners, exactly
    when it is not a takeover of a row that somebody has refreshed since the read.
   */
  lemma StepRefinesIff(s: State, move: Label)
    requires WellRead(s)
    ensures WellRead(Next(s, move))
    ensures Abstract(Next(s, move)) == SpecNext(Abstract(s), Image(s, move))
      <==> (Takeover(s, move) ==>
              s.row.updatedAt.Some? && s.row.updatedAt.value <= s.workers[move.worker].staleBefore)
  {
    if Matches(s, move) {
      assert |Next(s, move).winners| == |s.winners| + 1;
    }
  }

  ghost predicate NoTakeover(s: State, labels: seq<Label>) {
    forall n :: 0 <= n < |labels| ==> !Takeover(Run(s, labels[..n]), labels[n])
  }

  function Images(s: State, labels: seq<Label>): (images: seq<SpecLabel>)
    ensures |images| == |labels|
  {
    if labels == [] then []
    else
      var n := |labels| - 1;
      Images(s, labels[..n]) + [Image(Run(s, labels[..n]), labels[n])]
  }

  lemma NoTakeoverPrefix(s: State, labels: seq<Label>)
    requires labels != [] && NoTakeover(s, labels)
    ensures NoTakeover(s, labels[..|labels| - 1])
    ensures !Takeover(Run(s, labels[..|labels| - 1]), labels[|labels| - 1])
  {
    var front := labels[..|labels| - 1];
    forall n | 0 <= n < |front| ensures !Takeover(Run(s, front[..n]), front[n]) {
      assert front[..n] == labels[..n];
    }
  }

  /** Whole runs whose UPDATEs are guarded by DECIDING or ITERATING are runs of the one-step claim. */
  lemma {:induction false} RunRefines(s: State, labels: seq<Label>)
    requires WellRead(s) && NoTakeover(s, labels)
    ensures WellRead(Run(s, labels))
    ensures Abstract(Run(s, labels)) == SpecRun(Abstract(s), Images(s, labels))
  {
    if labels != [] {
      var n := |labels| - 1;
      NoTakeoverPrefix(s, labels);
      RunRefines(s, labels[..n]);
      StepRefinesIff(Run(s, labels[..n]), labels[n]);
      assert Images(s, labels)[..n] == Images(s, labels[..n]);
    }
  }

  ghost predicate WonOnce(s: State) {
    && |s.winners| <= 1
    && (s.winners != [] ==> s.row.status != Deciding && s.row.status != Iterating)
    && WellRead(s)
  }

  /** Between two hand-backs at most one worker wins, even if the status left and came back. */
  lemma {:induction false} AtMostOneWinner(s: State, labels: seq<Label>)
    requires s.winners == [] && s.workers == [] && NoTakeover(s, labels)
    ensures WonOnce(Run(s, labels))
  {
    if labels != [] {
      NoTakeoverPrefix(s, labels);
      AtMostOneWinner(s, labels[..|labels| - 1]);
    }
  }

  /** A worker on its own wins a review that is DECIDING or ITERATING, or PUBLISHING for too long, and no other. */
  lemma LoneClaimIff(s: State, staleBefore: int, now: int)
    requires s.workers == []
    ensures
      var t := Run(s, [Join, Read(0, staleBefore), TryUpdate(0, now)]);
      if s.row.status == Deciding || s.row.status == Iterating
         || (s.row.status == Publishing && s.row.updatedAt.Some? && s.row.updatedAt.value <= staleBefore)
      then t.winners == s.winners + [0] && t.row.status == Publishing && t.row.updatedAt == Some(now)
        && t.row.history == s.row.history + [Event(Publishing, Some(s.row.status), now)]
      else t.winners == s.winners && t.row == s.row
  {
    var labels := [Join, Read(0, staleBefore), TryUpdate(0, now)];
    assert labels[..2][..1] == labels[..1] && labels[..1][..0] == [];
    assert Run(s, labels[..1]) == s.(workers := [Idle]);
    assert Run(s, labels[..2]) == Next(Run(s, labels[..1]), labels[1]);
    assert Run(s, labels) == Next(Run(s, labels[..2]), labels[2]);
  }

  /** Takeovers escape it: two workers that read the same stale claim both win it. */
  lemma StaleClaimTakenTwice(s: State, staleBefore: int, now: int)
    requires s.row.status == Publishing && s.row.updatedAt.Some? && s.row.updatedAt.value <= staleBefore < now
    requires s.workers == [] && s.winners == []
    ensures Run(s, [Join, Join, Read(0, staleBefore), Read(1, staleBefore), TryUpdate(0, now),
                    TryUpdate(1, now)]).winners == [0, 1]
  {
    var labels := [Join, Join, Read(0, staleBefore), Read(1, staleBefore), TryUpdate(0, now), TryUpdate(1, now)];
    assert labels[..6] == labels;
    assert labels[..6][..5] == labels[..5] && labels[..5][..4] == labels[..4] && labels[..4][..3] == labels[..3];
    assert labels[..3][..2] == labels[..2] && labels[..2][..1] == labels[..1] && labels[..1][..0] == labels[..0];
    assert Run(s, labels[..1]).workers == [Idle];
    assert Run(s, labels[..2]).workers == [Idle, Idle];
    assert Run(s, labels[..3]).workers == [Seen(Publishing, staleBefore), Idle];
    assert Run(s, labels[..4]).workers == [Seen(Publishing, staleBefore), Seen(Publishing, staleBefore)];
    assert Run(s, labels[..5]).winners == [0] && Run(s, labels[..5]).row.status == Publishing;
  }
}
