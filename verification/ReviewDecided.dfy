/** The end-to-end statement: from a review's candidate findings to its scheduled rows. */
module ReviewDecided {
  import opened Common
  import opened Ordering
  import opened Records
  import opened Grouping
  import opened GroupingCanonical
  import opened Selection
  import S = SelectionProperties
  import opened Decisions
  import opened DecisionOutcome
  import opened EndToEnd

  // ---------------------------------------------------------------- counting

  ghost function Keys<T>(key: T -> string, s: seq<T>): set<string> {
    set x | x in s :: key(x)
  }

  lemma {:induction false} KeysCount<T>(key: T -> string, s: seq<T>)
    requires DistinctBy(key, s)
    ensures |Keys(key, s)| == |s|
  {
    if |s| != 0 {
      var n := |s| - 1;
      KeysCount(key, s[..n]);
      assert s == s[..n] + [s[n]];
      assert Keys(key, s) == Keys(key, s[..n]) + {key(s[n])};
      assert key(s[n]) !in Keys(key, s[..n]) by {
        forall x | x in s[..n] ensures key(x) != key(s[n]) {
          var i :| 0 <= i < n && s[i] == x;
        }
      }
    }
  }

  lemma {:induction false} SelectedMember(decisions: seq<Decision>, d: Decision)
    ensures d in S.SelectedOnes(decisions) <==> d in decisions && d.selected == Some(true)
  {
    if decisions != [] {
      var n := |decisions| - 1;
      SelectedMember(decisions[..n], d);
      assert decisions == decisions[..n] + [decisions[n]];
    }
  }

  lemma {:induction false} SelectedDistinct(decisions: seq<Decision>)
    requires DistinctFindings(decisions)
    ensures DistinctFindings(S.SelectedOnes(decisions))
  {
    if decisions != [] {
      var n := |decisions| - 1;
      SelectedDistinct(decisions[..n]);
      var front := S.SelectedOnes(decisions[..n]);
      forall i | 0 <= i < |front| ensures front[i].findingId != decisions[n].findingId {
        SelectedMember(decisions[..n], front[i]);
        var j :| 0 <= j < n && decisions[j] == front[i];
      }
    }
  }

  lemma {:induction false} ScheduledDistinct(rows: seq<Row>, rid: string)
    requires DistinctRows(rows)
    ensures DistinctRows(ScheduledRows(rows, rid))
  {
    if rows != [] {
      var rest := ScheduledRows(rows[1..], rid);
      ScheduledDistinct(rows[1..], rid);
      forall i | 0 <= i < |rest| ensures rest[i].id != rows[0].id {
        ScheduledRowsMember(rows[1..], rid, rest[i]);
        var j :| 0 <= j < |rows[1..]| && rows[1..][j] == rest[i];
        assert rows[j + 1] == rest[i];
      }
    }
  }

  /** Rows are scheduled exactly by selected decisions, so there are as many of either. */
  lemma ScheduledCount(rows: seq<Row>, rid: string, decisions: seq<Decision>)
    requires DistinctRows(rows) && DistinctFindings(decisions) && AllHaveRows(rows, decisions)
    requires forall i :: 0 <= i < |rows| ==> rows[i].reviewId == rid
    requires forall i :: 0 <= i < |rows| ==> (rows[i].status == Scheduled <==> ChosenBy(rows[i].id, decisions))
    ensures |ScheduledRows(rows, rid)| == |S.SelectedOnes(decisions)|
  {
    var (rowId, decisionId) := ((r: Row) => r.id, (d: Decision) => d.findingId);
    var (scheduled, chosen) := (ScheduledRows(rows, rid), S.SelectedOnes(decisions));
    ScheduledDistinct(rows, rid);
    SelectedDistinct(decisions);
    KeysCount(rowId, scheduled);
    KeysCount(decisionId, chosen);
    forall id ensures id in Keys(rowId, scheduled) <==> id in Keys(decisionId, chosen) {
      if id in Keys(rowId, scheduled) {
        var r :| r in scheduled && r.id == id;
        ScheduledRowsMember(rows, rid, r);
        var d :| d in decisions && d.findingId == id && d.selected == Some(true);
        SelectedMember(decisions, d);
      }
      if id in Keys(decisionId, chosen) {
        var d :| d in chosen && d.findingId == id;
        SelectedMember(decisions, d);
        var i :| 0 <= i < |rows| && rows[i].id == id;
        assert ChosenBy(rows[i].id, decisions);
        ScheduledRowsMember(rows, rid, rows[i]);
        assert rows[i] in scheduled;
      }
    }
    assert Keys(rowId, scheduled) == Keys(decisionId, chosen);
  }

  // ---------------------------------------------------------------- the review

  /** The decisions of a review, as `_decide_findings` applies them. */
  function ReviewDecisions(findings: seq<Finding>, groups: seq<Group>, score: Scorer, cap: int,
                           t: Thresholds): SelectionResult
    requires GroupsHaveMembers(findings, groups)
  {
    Select(Rank(Candidates(findings, groups, score)), cap, t)
  }

  lemma ReviewDecisionsCover(findings: seq<Finding>, groups: seq<Group>, score: Scorer, cap: int, t: Thresholds)
    requires WellGrouped(findings, groups)
    ensures GroupsHaveMembers(findings, groups)
    ensures Covers(findings, groups, ReviewDecisions(findings, groups, score, cap, t).decisions)
    ensures forall d :: d in ReviewDecisions(findings, groups, score, cap, t).decisions ==> d.selected.Some?
  {
    CandidatesCover(findings, groups, score);
    var candidates := Candidates(findings, groups, score);
    S.BareRank(candidates);
    S.EveryDecisionOnce(Rank(candidates), cap, t);
    CoverageSurvives(findings, groups, candidates, Select(Rank(candidates), cap, t).decisions);
    SelectionDecidesAll(Rank(candidates), cap, t);
  }

  lemma AboutRows(findings: seq<Finding>, rid: string, decisions: seq<Decision>, before: seq<Row>, rows: seq<Row>)
    requires AboutFindings(findings, decisions)
    requires |rows| == |findings| && forall i :: 0 <= i < |rows| ==> rows[i] == FreshRow(findings[i], rid)
    ensures AllHaveRows(before + rows, decisions) && AllHaveRows(rows, decisions)
  {
    forall d | d in decisions
      ensures exists i :: 0 <= i < |rows| && rows[i].id == d.findingId
      ensures exists i :: 0 <= i < |before + rows| && (before + rows)[i].id == d.findingId
    {
      FirstWithIdSpec(findings, d.findingId);
      var f := FirstWithId(findings, d.findingId).value;
      var i :| 0 <= i < |findings| && findings[i] == f;
      assert rows[i].id == d.findingId && (before + rows)[|before| + i].id == d.findingId;
    }
  }

  lemma OldRowUntouched(findings: seq<Finding>, groups: seq<Group>, decisions: seq<Decision>, row: Row)
    requires AboutFindings(findings, decisions) && GroupsExist(findings, groups)
    requires forall f :: f in findings ==> f.id != row.id
    requires forall a :: 0 <= a < |groups| ==> row.group != Some(groups[a].id)
    ensures StepAll(row, decisions) == row
  {
    forall d | d in decisions ensures d.findingId != row.id && !SuppressedBy(row, d) {
      FirstWithIdSpec(findings, d.findingId);
      assert FirstWithId(findings, d.findingId).value in findings;
    }
    StepAllUntouched(row, decisions);
  }

  /**
    The finding's row, decided: SCHEDULED exactly if its own decision was selected, with the utility of that decision,
    and none if the decision was about another member of its group.
   */
  ghost predicate RowDecided(f: Finding, rid: string, decisions: seq<Decision>, row: Row) {
    && row.id == f.id && row.reviewId == rid && row.path == f.path && row.lineStart == f.lineStart
    && row.lineEnd == f.lineEnd && row.group == f.duplicateGroup && row.commentId == None
    && row.status == (if ChosenBy(f.id, decisions) then Scheduled else Suppressed)
    && (forall d :: d in decisions && d.findingId == f.id ==> row.utility == Some(d.utility))
    && ((forall d :: d in decisions ==> d.findingId != f.id) ==> row.utility == None)
  }

  /** All but status and utility of a row stays, and the utility comes from the row's own decision. */
  lemma RowKeeps(row: Row, decisions: seq<Decision>)
    requires DistinctFindings(decisions) && Uncontested(row, decisions)
    ensures var after := StepAll(row, decisions); after == row.(status := after.status, utility := after.utility)
    ensures forall d :: d in decisions && d.findingId == row.id ==> StepAll(row, decisions).utility == Some(d.utility)
    ensures (forall d :: d in decisions ==> d.findingId != row.id) ==>
      StepAll(row, decisions).utility == row.utility
  {
    if d :| d in decisions && d.findingId == row.id {
      StepAllTargeted(row, decisions, d);
      assert forall e :: e in decisions && e.findingId == row.id ==> e == d;
    } else {
      StepAllSuppressed(row, decisions);
    }
  }

  /** The row of one finding, after the decisions have been applied in some order. */
  lemma RowOutcome(findings: seq<Finding>, groups: seq<Group>, decisions: seq<Decision>, applied: seq<Decision>,
                   rid: string, f: Finding)
    requires WellGrouped(findings, groups) && Covers(findings, groups, decisions) && f in findings
    requires forall d :: d in decisions ==> d.selected.Some?
    requires multiset(applied) == multiset(decisions)
    ensures RowDecided(f, rid, decisions, StepAll(FreshRow(f, rid), applied))
  {
    FinalStatus(findings, groups, decisions, rid, f);
    RowsUncontested(findings, decisions, rid, f);
    UncontestedOrder(FreshRow(f, rid), decisions, applied);
    RowKeeps(FreshRow(f, rid), decisions);
  }

  /** The outcome of applying decisions to a store that already holds other rows. */
  ghost predicate Outcome(findings: seq<Finding>, decisions: seq<Decision>, rid: string, before: seq<Row>,
                          after: seq<Row>) {
    && |after| == |before| + |findings|
    && (forall i :: 0 <= i < |before| ==> after[i] == before[i])
    && (forall i :: 0 <= i < |findings| ==> RowDecided(findings[i], rid, decisions, after[|before| + i]))
  }

  lemma OldRowsUntouched(findings: seq<Finding>, groups: seq<Group>, decisions: seq<Decision>, before: seq<Row>,
                         mine: seq<Row>)
    requires AboutFindings(findings, decisions) && GroupsExist(findings, groups)
    requires |mine| == |findings| && forall i :: 0 <= i < |mine| ==> mine[i].id == findings[i].id
    requires DistinctRows(before + mine)
    requires forall i, a :: 0 <= i < |before| && 0 <= a < |groups| ==> before[i].group != Some(groups[a].id)
    ensures forall i :: 0 <= i < |before| ==> StepAll(before[i], decisions) == before[i]
  {
    forall i | 0 <= i < |before| ensures StepAll(before[i], decisions) == before[i] {
      forall f | f in findings ensures f.id != before[i].id {
        var j :| 0 <= j < |findings| && findings[j] == f;
        assert (before + mine)[|before| + j].id == f.id && (before + mine)[i] == before[i];
      }
      OldRowUntouched(findings, groups, decisions, before[i]);
    }
  }

  lemma AboutPermutes(findings: seq<Finding>, decisions: seq<Decision>, applied: seq<Decision>)
    requires AboutFindings(findings, decisions) && multiset(applied) == multiset(decisions)
    ensures AboutFindings(findings, applied)
  {
    SameElements(applied, decisions);
  }

  lemma DecidedRows(findings: seq<Finding>, groups: seq<Group>, decisions: seq<Decision>, applied: seq<Decision>,
                    rid: string, before: seq<Row>, mine: seq<Row>)
    requires WellGrouped(findings, groups) && Covers(findings, groups, decisions)
    requires forall d :: d in decisions ==> d.selected.Some?
    requires multiset(applied) == multiset(decisions)
    requires |mine| == |findings| && forall i :: 0 <= i < |mine| ==> mine[i] == FreshRow(findings[i], rid)
    requires DistinctRows(before + mine)
    requires forall i, a :: 0 <= i < |before| && 0 <= a < |groups| ==> before[i].group != Some(groups[a].id)
    ensures Outcome(findings, decisions, rid, before, ApplyAll(before + mine, applied))
  {
    AboutPermutes(findings, decisions, applied);
    AboutRows(findings, rid, applied, before, mine);
    ApplyAllPointwise(before + mine, applied);
    OldRowsUntouched(findings, groups, applied, before, mine);
    forall i | 0 <= i < |findings|
      ensures RowDecided(findings[i], rid, decisions, StepAll(mine[i], applied))
    {
      RowOutcome(findings, groups, decisions, applied, rid, findings[i]);
    }
    OutcomeByRow(findings, decisions, applied, rid, before, mine, ApplyAll(before + mine, applied));
  }

  lemma OutcomeByRow(findings: seq<Finding>, decisions: seq<Decision>, applied: seq<Decision>, rid: string,
                     before: seq<Row>, mine: seq<Row>, after: seq<Row>)
    requires |mine| == |findings| && |after| == |before + mine|
    requires forall i :: 0 <= i < |after| ==> after[i] == StepAll((before + mine)[i], applied)
    requires forall i :: 0 <= i < |before| ==> StepAll(before[i], applied) == before[i]
    requires forall i :: 0 <= i < |findings| ==> RowDecided(findings[i], rid, decisions, StepAll(mine[i], applied))
    ensures Outcome(findings, decisions, rid, before, after)
  {
    forall i | 0 <= i < |findings| ensures after[|before| + i] == StepAll(mine[i], applied) {
      assert (before + mine)[|before| + i] == mine[i];
    }
  }

  /** The store after the decisions does not depend on the order in which they were applied, row by row in full. */
  lemma AppliedAlike(findings: seq<Finding>, groups: seq<Group>, decisions: seq<Decision>, applied: seq<Decision>,
                     rid: string, before: seq<Row>, mine: seq<Row>)
    requires WellGrouped(findings, groups) && Covers(findings, groups, decisions)
    requires multiset(applied) == multiset(decisions)
    requires |mine| == |findings| && forall i :: 0 <= i < |mine| ==> mine[i] == FreshRow(findings[i], rid)
    requires DistinctRows(before + mine)
    requires forall i, a :: 0 <= i < |before| && 0 <= a < |groups| ==> before[i].group != Some(groups[a].id)
    ensures ApplyAll(before + mine, applied) == ApplyAll(before + mine, decisions)
  {
    var rows := before + mine;
    AboutPermutes(findings, decisions, applied);
    AboutRows(findings, rid, applied, before, mine);
    AboutRows(findings, rid, decisions, before, mine);
    ApplyAllPointwise(rows, applied);
    ApplyAllPointwise(rows, decisions);
    OldRowsUntouched(findings, groups, applied, before, mine);
    OldRowsUntouched(findings, groups, decisions, before, mine);
    forall i | 0 <= i < |rows| ensures StepAll(rows[i], applied) == StepAll(rows[i], decisions) {
      if i >= |before| {
        RowsUncontested(findings, decisions, rid, findings[i - |before|]);
        UncontestedOrder(mine[i - |before|], decisions, applied);
      }
    }
  }

  /**
    End to end. Once the decisions of a review have been applied, in whatever order, every finding
    is SCHEDULED or SUPPRESSED: SCHEDULED exactly when its own decision was selected, and then with
    that decision's utility, which orders its publication. Rows that were in the store before are
    as they were, and the order of the decisions changes no row.
   */
  lemma EveryFindingDecided(rule: Rule, items: seq<Item>, order: seq<nat>, findings: seq<Finding>, groups: seq<Group>,
                            score: Scorer, cap: int, t: Thresholds, rid: string, before: seq<Row>,
                              applied: seq<Decision>)
    requires FreshItems(items) && GroupedBy(rule, items, order, findings, groups)
    requires GroupsHaveMembers(findings, groups) ==>
      multiset(applied) == multiset(ReviewDecisions(findings, groups, score, cap, t).decisions)
    requires DistinctRows(before + Persisted(findings, rid))
    requires forall i, a :: 0 <= i < |before| && 0 <= a < |groups| ==> before[i].group != Some(groups[a].id)
    ensures GroupsHaveMembers(findings, groups)
    ensures
      var decisions := ReviewDecisions(findings, groups, score, cap, t).decisions;
      var after := ApplyAll(before + Persisted(findings, rid), applied);
      && Outcome(findings, decisions, rid, before, after)
      && after == ApplyAll(before + Persisted(findings, rid), decisions)
  {
    GroupingIsWellFormed(rule, items, order, findings, groups);
    PersistedRows(findings, rid);
    ReviewDecisionsCover(findings, groups, score, cap, t);
    var decisions := ReviewDecisions(findings, groups, score, cap, t).decisions;
    DecidedRows(findings, groups, decisions, applied, rid, before, Persisted(findings, rid));
    AppliedAlike(findings, groups, decisions, applied, rid, before, Persisted(findings, rid));
  }

  lemma {:induction false} ScheduledConcat(a: seq<Row>, b: seq<Row>, rid: string)
    ensures ScheduledRows(a + b, rid) == ScheduledRows(a, rid) + ScheduledRows(b, rid)
  {
    if a == [] {
      assert a + b == b;
    } else {
      assert (a + b)[1..] == a[1..] + b;
      ScheduledConcat(a[1..], b, rid);
    }
  }

  /**
    As many rows join those scheduled for publication as selection reports, whatever the store holds
    besides and in whatever order the decisions are applied.
   */
  lemma ScheduledAsSelected(rule: Rule, items: seq<Item>, order: seq<nat>, findings: seq<Finding>, groups: seq<Group>,
                            score: Scorer, cap: int, t: Thresholds, rid: string, before: seq<Row>,
                              applied: seq<Decision>)
    requires FreshItems(items) && GroupedBy(rule, items, order, findings, groups)
    requires GroupsHaveMembers(findings, groups) ==>
      multiset(applied) == multiset(ReviewDecisions(findings, groups, score, cap, t).decisions)
    requires DistinctRows(before + Persisted(findings, rid))
    requires forall i, a :: 0 <= i < |before| && 0 <= a < |groups| ==> before[i].group != Some(groups[a].id)
    ensures GroupsHaveMembers(findings, groups)
    ensures
      var result := ReviewDecisions(findings, groups, score, cap, t);
      |ScheduledRows(ApplyAll(before + Persisted(findings, rid), applied), rid)|
      == |ScheduledRows(before, rid)| + result.selectedCount
  {
    EveryFindingDecided(rule, items, order, findings, groups, score, cap, t, rid, before, applied);
    GroupingIsWellFormed(rule, items, order, findings, groups);
    ReviewDecisionsCover(findings, groups, score, cap, t);
    S.CountsAddUp(Rank(Candidates(findings, groups, score)), cap, t);
    var decisions := ReviewDecisions(findings, groups, score, cap, t).decisions;
    var after := ApplyAll(before + Persisted(findings, rid), applied);
    OutcomeSplit(findings, decisions, rid, before, after);
    OutcomeCount(findings, decisions, rid, after[|before|..]);
    ScheduledConcat(before, after[|before|..], rid);
  }

  lemma OutcomeSplit(findings: seq<Finding>, decisions: seq<Decision>, rid: string, before: seq<Row>, after: seq<Row>)
    requires Outcome(findings, decisions, rid, before, after)
    ensures after == before + after[|before|..]
    ensures Outcome(findings, decisions, rid, [], after[|before|..])
  {
    var mine := after[|before|..];
    forall i | 0 <= i < |findings| ensures mine[i] == after[|before| + i] {}
  }

  lemma OutcomeCount(findings: seq<Finding>, decisions: seq<Decision>, rid: string, after: seq<Row>)
    requires Outcome(findings, decisions, rid, [], after)
    requires DistinctFindingIds(findings) && DistinctFindings(decisions) && AboutFindings(findings, decisions)
    ensures |ScheduledRows(after, rid)| == |S.SelectedOnes(decisions)|
  {
    forall i | 0 <= i < |after|
      ensures after[i].id == findings[i].id && after[i].reviewId == rid
      ensures after[i].status == Scheduled <==> ChosenBy(after[i].id, decisions)
    {
      assert after[0 + i].id == findings[i].id;
    }
    forall d | d in decisions ensures exists i :: 0 <= i < |after| && after[i].id == d.findingId {
      FirstWithIdSpec(findings, d.findingId);
      var i :| 0 <= i < |findings| && findings[i] == FirstWithId(findings, d.findingId).value;
      assert after[i].id == d.findingId;
    }
    ScheduledCount(after, rid, decisions);
  }

  /** A scheduled member of a redundancy group is its representative: no group has two. */
  lemma OnePerGroupIsScheduled(rule: Rule, items: seq<Item>, order: seq<nat>, findings: seq<Finding>,
                               groups: seq<Group>,
                               score: Scorer, cap: int, t: Thresholds, i: nat, a: nat)
    requires FreshItems(items) && GroupedBy(rule, items, order, findings, groups)
    requires i < |findings| && a < |groups| && findings[i].duplicateGroup == Some(groups[a].id)
    ensures GroupsHaveMembers(findings, groups)
    ensures ChosenBy(findings[i].id, ReviewDecisions(findings, groups, score, cap, t).decisions) ==>
      findings[i].id == groups[a].representative
  {
    GroupingIsWellFormed(rule, items, order, findings, groups);
    ReviewDecisionsCover(findings, groups, score, cap, t);
    var decisions := ReviewDecisions(findings, groups, score, cap, t).decisions;
    if ChosenBy(findings[i].id, decisions) {
      ScheduledMemberIsRepresentative(findings, groups, decisions, findings[i], a);
    }
  }
}
