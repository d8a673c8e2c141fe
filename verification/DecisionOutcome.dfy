/**
  End to end, from consolidated findings to the rows after every decision has been applied: what
  is scheduled, what is suppressed, and that the order of application does not matter.
 */
module DecisionOutcome {
  import opened Common
  import opened Ordering
  import opened Records
  import opened Grouping
  import opened Selection
  import opened Decisions

  // ---------------------------------------------------------------- row by row

  ghost predicate DistinctRows(rows: seq<Row>) {
    forall i, j :: 0 <= i < j < |rows| ==> rows[i].id != rows[j].id
  }

  /** What one decision does to one row, when the decision's finding has a row. */
  function Step(row: Row, d: Decision): Row {
    if row.id == d.findingId then Decided(row, d)
    else if SuppressedBy(row, d) then row.(status := Suppressed)
    else row
  }

  function StepAll(row: Row, decisions: seq<Decision>): Row {
    if decisions == [] then row
    else
      var n := |decisions| - 1;
      Step(StepAll(row, decisions[..n]), decisions[n])
  }

  lemma DecideFirstSpec(rows: seq<Row>, d: Decision)
    requires DistinctRows(rows)
    ensures |DecideFirst(rows, d)| == |rows|
    ensures forall i :: 0 <= i < |rows| ==>
      (DecideFirst(rows, d)[i] == if rows[i].id == d.findingId then Decided(rows[i], d) else rows[i])
  {
    if rows != [] && rows[0].id != d.findingId {
      DecideFirstSpec(rows[1..], d);
    }
  }

  lemma HasRowSpec(rows: seq<Row>, id: string)
    ensures HasRow(rows, id) <==> exists i :: 0 <= i < |rows| && rows[i].id == id
  {
    if rows != [] {
      HasRowSpec(rows[1..], id);
      if i :| 0 <= i < |rows| && rows[i].id == id && i > 0 {
        assert rows[1..][i - 1].id == id;
      }
    }
  }

  lemma StepAllKeepsIdentity(row: Row, decisions: seq<Decision>)
    ensures StepAll(row, decisions).id == row.id && StepAll(row, decisions).group == row.group
    ensures StepAll(row, decisions).reviewId == row.reviewId
  {
  }

  ghost predicate AllHaveRows(rows: seq<Row>, decisions: seq<Decision>) {
    forall d :: d in decisions ==> exists i :: 0 <= i < |rows| && rows[i].id == d.findingId
  }

  lemma ApplyOneSpec(rows: seq<Row>, d: Decision)
    requires DistinctRows(rows) && exists i :: 0 <= i < |rows| && rows[i].id == d.findingId
    ensures |ApplyOne(rows, d)| == |rows|
    ensures forall i :: 0 <= i < |rows| ==> ApplyOne(rows, d)[i] == Step(rows[i], d)
  {
    HasRowSpec(rows, d.findingId);
    DecideFirstSpec(rows, d);
  }

  /**
    One decision: its own row gets its utility, and is SCHEDULED or SUPPRESSED if it says so; in that case the other
    rows of its group are suppressed. Nothing else changes, and nothing at all if it has no row.
   */
  lemma OneDecision(rows: seq<Row>, d: Decision, i: nat)
    requires DistinctRows(rows) && i < |rows|
    ensures |ApplyOne(rows, d)| == |rows|
    ensures (forall k :: 0 <= k < |rows| ==> rows[k].id != d.findingId) ==> ApplyOne(rows, d) == rows
    ensures rows[i].id == d.findingId ==>
      ApplyOne(rows, d)[i] == rows[i].(utility := Some(d.utility),
        status := if d.selected == Some(true) then Scheduled else if d.selected == Some(false) then Suppressed
                  else rows[i].status)
    ensures (exists k :: 0 <= k < |rows| && rows[k].id == d.findingId) && rows[i].id != d.findingId ==>
      ApplyOne(rows, d)[i] ==
        if d.selected != None && d.groupId != None && d.groupId != Some("") && rows[i].group == d.groupId
        then rows[i].(status := Suppressed) else rows[i]
  {
    HasRowSpec(rows, d.findingId);
    if k :| 0 <= k < |rows| && rows[k].id == d.findingId {
      ApplyOneSpec(rows, d);
    }
  }

  /** Applying decisions works row by row. */
  lemma {:induction false} ApplyAllPointwise(rows: seq<Row>, decisions: seq<Decision>)
    requires DistinctRows(rows) && AllHaveRows(rows, decisions)
    ensures |ApplyAll(rows, decisions)| == |rows|
    ensures forall i :: 0 <= i < |rows| ==> ApplyAll(rows, decisions)[i] == StepAll(rows[i], decisions)
  {
    if decisions != [] {
      var n := |decisions| - 1;
      var (front, d) := (decisions[..n], decisions[n]);
      assert d in decisions && forall d' :: d' in front ==> d' in decisions;
      ApplyAllPointwise(rows, front);
      var mid := ApplyAll(rows, front);
      forall i | 0 <= i < |rows| ensures mid[i].id == rows[i].id {
        StepAllKeepsIdentity(rows[i], front);
      }
      var i :| 0 <= i < |rows| && rows[i].id == d.findingId;
      assert mid[i].id == d.findingId;
      ApplyOneSpec(mid, d);
    }
  }

  lemma {:induction false} StepAllTargeted(row: Row, decisions: seq<Decision>, d: Decision)
    requires DistinctFindings(decisions) && d in decisions && d.findingId == row.id
    requires forall e :: e in decisions ==> !SuppressedBy(row, e)
    ensures StepAll(row, decisions) == Decided(row, d)
  {
    var n := |decisions| - 1;
    var (front, last) := (decisions[..n], decisions[n]);
    assert last in decisions && forall e :: e in front ==> e in decisions;
    if last == d {
      forall e | e in front ensures e.findingId != row.id {
        var i :| 0 <= i < n && decisions[i] == e;
      }
      StepAllUntouched(row, front);
    } else {
      StepAllTargeted(row, front, d);
      var i :| 0 <= i < |decisions| && decisions[i] == d;
      assert last.findingId != row.id;
    }
  }

  lemma {:induction false} StepAllUntouched(row: Row, decisions: seq<Decision>)
    requires forall e :: e in decisions ==> e.findingId != row.id && !SuppressedBy(row, e)
    ensures StepAll(row, decisions) == row
  {
    if decisions != [] {
      var n := |decisions| - 1;
      assert decisions[n] in decisions && forall e :: e in decisions[..n] ==> e in decisions;
      StepAllUntouched(row, decisions[..n]);
    }
  }

  lemma {:induction false} StepAllSuppressed(row: Row, decisions: seq<Decision>)
    requires forall e :: e in decisions ==> e.findingId != row.id
    ensures StepAll(row, decisions) ==
      if exists e :: e in decisions && SuppressedBy(row, e) then row.(status := Suppressed) else row
  {
    if decisions != [] {
      var n := |decisions| - 1;
      assert decisions[n] in decisions && forall e :: e in decisions[..n] ==> e in decisions;
      assert forall e :: e in decisions ==> e in decisions[..n] || e == decisions[n];
      StepAllSuppressed(row, decisions[..n]);
    }
  }

  /** No decision on this row's own finding competes with another decision about the row. */
  ghost predicate Uncontested(row: Row, decisions: seq<Decision>) {
    forall d, e :: d in decisions && e in decisions && d.findingId == row.id ==>
      !SuppressedBy(row, e) && (e.findingId == row.id ==> e == d)
  }

  ghost predicate Reached(row: Row, decisions: seq<Decision>) {
    exists d :: d in decisions && (d.findingId == row.id || SuppressedBy(row, d))
  }

  ghost predicate ChosenBy(id: string, decisions: seq<Decision>) {
    exists d :: d in decisions && d.findingId == id && d.selected == Some(true)
  }

  lemma UncontestedStatus(row: Row, decisions: seq<Decision>)
    requires DistinctFindings(decisions) && Uncontested(row, decisions) && Reached(row, decisions)
    requires forall d :: d in decisions ==> d.selected.Some?
    ensures StepAll(row, decisions).status == if ChosenBy(row.id, decisions) then Scheduled else Suppressed
  {
    if d :| d in decisions && d.findingId == row.id {
      StepAllTargeted(row, decisions, d);
    } else {
      StepAllSuppressed(row, decisions);
    }
  }

  /** An uncontested row comes out the same in whatever order the decisions are applied. */
  lemma UncontestedOrder(row: Row, decisions: seq<Decision>, permuted: seq<Decision>)
    requires DistinctFindings(decisions) && Uncontested(row, decisions) && multiset(decisions) == multiset(permuted)
    ensures StepAll(row, decisions) == StepAll(row, permuted)
  {
    SameElements(decisions, permuted);
    DistinctByPermutes((d: Decision) => d.findingId, decisions, permuted);
    if d :| d in decisions && d.findingId == row.id {
      StepAllTargeted(row, decisions, d);
      StepAllTargeted(row, permuted, d);
    } else {
      StepAllSuppressed(row, decisions);
      StepAllSuppressed(row, permuted);
    }
  }

  // ---------------------------------------------------------------- well-formed consolidation

  ghost predicate DistinctFindingIds(findings: seq<Finding>) {
    forall i, j :: 0 <= i < j < |findings| ==> findings[i].id != findings[j].id
  }

  /** Group ids are distinct and not empty. */
  ghost predicate DistinctGroupIds(groups: seq<Group>) {
    && (forall i, j :: 0 <= i < j < |groups| ==> groups[i].id != groups[j].id)
    && (forall i :: 0 <= i < |groups| ==> groups[i].id != "")
  }

  /** The representative of each group is one of its members. */
  ghost predicate RepresentativesExist(findings: seq<Finding>, groups: seq<Group>) {
    forall i :: 0 <= i < |groups| ==>
      var r := FirstWithId(findings, groups[i].representative);
      r.Some? && r.value.duplicateGroup == Some(groups[i].id)
  }

  /** Every group a finding is in has its row. */
  ghost predicate GroupsExist(findings: seq<Finding>, groups: seq<Group>) {
    forall f :: f in findings && f.duplicateGroup.Some? ==>
      exists i :: 0 <= i < |groups| && f.duplicateGroup == Some(groups[i].id)
  }

  /** What grouping leaves behind, as far as decisions are concerned. */
  ghost predicate WellGrouped(findings: seq<Finding>, groups: seq<Group>) {
    && DistinctFindingIds(findings) && DistinctGroupIds(groups)
    && RepresentativesExist(findings, groups) && GroupsExist(findings, groups)
  }

  /** Every decision is about a finding and names that finding's group. */
  ghost predicate AboutFindings(findings: seq<Finding>, decisions: seq<Decision>) {
    forall d :: d in decisions ==>
      var r := FirstWithId(findings, d.findingId);
      r.Some? && r.value.duplicateGroup == d.groupId
  }

  ghost predicate SinglesDecided(findings: seq<Finding>, decisions: seq<Decision>) {
    forall f :: f in findings && f.duplicateGroup.None? ==> exists d :: d in decisions && d.findingId == f.id
  }

  ghost predicate GroupDecided(g: Group, decisions: seq<Decision>) {
    exists d :: d in decisions && d.groupId == Some(g.id) && d.findingId == g.representative
  }

  ghost predicate GroupsDecided(groups: seq<Group>, decisions: seq<Decision>) {
    forall i :: 0 <= i < |groups| ==> GroupDecided(groups[i], decisions)
  }

  ghost predicate OnePerGroup(decisions: seq<Decision>) {
    forall d, e :: d in decisions && e in decisions && d.groupId.Some? && d.groupId == e.groupId ==> d == e
  }

  /** One decision per group and one per ungrouped finding, and no others. */
  ghost predicate Covers(findings: seq<Finding>, groups: seq<Group>, decisions: seq<Decision>) {
    && DistinctFindings(decisions) && AboutFindings(findings, decisions) && SinglesDecided(findings, decisions)
    && GroupsDecided(groups, decisions) && OnePerGroup(decisions)
  }

  /** The row of a finding before any decision. */
  function FreshRow(f: Finding, reviewId: string): Row {
    NewRow(f, reviewId).(group := f.duplicateGroup)
  }

  lemma FirstWithIdSpec(findings: seq<Finding>, id: string)
    ensures var r := FirstWithId(findings, id);
            if r.Some? then r.value in findings && r.value.id == id else forall f :: f in findings ==> f.id != id
  {
  }

  lemma SameFinding(findings: seq<Finding>, f: Finding, f': Finding)
    requires DistinctFindingIds(findings) && f in findings && f' in findings && f.id == f'.id
    ensures f == f'
  {
    var i :| 0 <= i < |findings| && findings[i] == f;
    var j :| 0 <= j < |findings| && findings[j] == f';
    assert i == j;
  }

  lemma SameDecision(decisions: seq<Decision>, d: Decision, e: Decision)
    requires DistinctFindings(decisions) && d in decisions && e in decisions && d.findingId == e.findingId
    ensures d == e
  {
    var i :| 0 <= i < |decisions| && decisions[i] == d;
    var j :| 0 <= j < |decisions| && decisions[j] == e;
    assert i == j;
  }

  lemma OwnDecision(findings: seq<Finding>, decisions: seq<Decision>, f: Finding, d: Decision)
    requires DistinctFindingIds(findings) && AboutFindings(findings, decisions)
    requires f in findings && d in decisions && d.findingId == f.id
    ensures d.groupId == f.duplicateGroup
  {
    FirstWithIdSpec(findings, d.findingId);
    SameFinding(findings, f, FirstWithId(findings, d.findingId).value);
  }

  lemma RowsUncontested(findings: seq<Finding>, decisions: seq<Decision>, reviewId: string, f: Finding)
    requires DistinctFindingIds(findings) && AboutFindings(findings, decisions) && DistinctFindings(decisions)
    requires OnePerGroup(decisions) && f in findings
    ensures Uncontested(FreshRow(f, reviewId), decisions)
  {
    var row := FreshRow(f, reviewId);
    forall d, e | d in decisions && e in decisions && d.findingId == row.id
      ensures !SuppressedBy(row, e) && (e.findingId == row.id ==> e == d)
    {
      OwnDecision(findings, decisions, f, d);
      if e.findingId == row.id {
        SameDecision(decisions, d, e);
      }
    }
  }

  lemma RowsReached(findings: seq<Finding>, groups: seq<Group>, decisions: seq<Decision>, reviewId: string, f: Finding)
    requires DistinctGroupIds(groups) && GroupsExist(findings, groups)
    requires SinglesDecided(findings, decisions) && GroupsDecided(groups, decisions) && f in findings
    requires forall d :: d in decisions ==> d.selected.Some?
    ensures Reached(FreshRow(f, reviewId), decisions)
  {
    var row := FreshRow(f, reviewId);
    if f.duplicateGroup.None? {
      var d :| d in decisions && d.findingId == f.id;
    } else {
      var i :| 0 <= i < |groups| && f.duplicateGroup == Some(groups[i].id);
      assert GroupDecided(groups[i], decisions);
      var d :| d in decisions && d.groupId == Some(groups[i].id) && d.findingId == groups[i].representative;
      assert d.findingId == row.id || SuppressedBy(row, d);
    }
  }

  /** Every finding ends up SCHEDULED or SUPPRESSED, and SCHEDULED exactly by its own selected decision. */
  lemma FinalStatus(findings: seq<Finding>, groups: seq<Group>, decisions: seq<Decision>, reviewId: string, f: Finding)
    requires WellGrouped(findings, groups) && Covers(findings, groups, decisions) && f in findings
    requires forall d :: d in decisions ==> d.selected.Some?
    ensures StepAll(FreshRow(f, reviewId), decisions).status == if ChosenBy(f.id, decisions) then Scheduled
      else Suppressed
  {
    RowsUncontested(findings, decisions, reviewId, f);
    RowsReached(findings, groups, decisions, reviewId, f);
    UncontestedStatus(FreshRow(f, reviewId), decisions);
  }

  /** A scheduled member of a group is its representative, so a group has at most one. */
  lemma ScheduledMemberIsRepresentative(findings: seq<Finding>, groups: seq<Group>, decisions: seq<Decision>,
                                        f: Finding, i: nat)
    requires DistinctFindingIds(findings) && AboutFindings(findings, decisions)
    requires GroupsDecided(groups, decisions) && OnePerGroup(decisions)
    requires f in findings && i < |groups| && f.duplicateGroup == Some(groups[i].id) && ChosenBy(f.id, decisions)
    ensures f.id == groups[i].representative
  {
    var d :| d in decisions && d.findingId == f.id && d.selected == Some(true);
    OwnDecision(findings, decisions, f, d);
    assert GroupDecided(groups[i], decisions);
    var e :| e in decisions && e.groupId == Some(groups[i].id) && e.findingId == groups[i].representative;
    assert d == e;
  }
}
