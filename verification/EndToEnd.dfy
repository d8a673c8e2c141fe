/**
  The whole decision pipeline of a review: grouping, persistence, candidates, selection and the
  application of every decision.
 */
module EndToEnd {
  import opened Common
  import opened IndependentSets
  import opened Ordering
  import opened Records
  import opened Grouping
  import opened GroupingCanonical
  import opened Selection
  import S = SelectionProperties
  import opened Decisions
  import opened DecisionOutcome

  // ---------------------------------------------------------------- persisted rows

  lemma GroupOneSpec(rows: seq<Row>, rid: string, id: string, group: string)
    requires DistinctRows(rows)
    ensures |GroupOne(rows, rid, id, group)| == |rows|
    ensures forall i :: 0 <= i < |rows| ==>
      (GroupOne(rows, rid, id, group)[i]
       == if rows[i].id == id && rows[i].reviewId == rid then rows[i].(group := Some(group)) else rows[i])
  {
    if rows != [] && !(rows[0].id == id && rows[0].reviewId == rid) {
      GroupOneSpec(rows[1..], rid, id, group);
    }
  }

  /** How the list of updates, and so the rows, grow with one more finding. */
  lemma GroupAllStep(findings: seq<Finding>, rid: string, n: nat)
    requires 0 < n <= |findings| && findings[n - 1].duplicateGroup != Some("")
    ensures var (rows, f) := (GroupAll(NewRows(findings, rid), rid, GroupedMembers(findings[..n - 1])),
                              findings[n - 1]);
            GroupAll(NewRows(findings, rid), rid, GroupedMembers(findings[..n]))
            == if f.duplicateGroup.Some? then GroupOne(rows, rid, f.id, f.duplicateGroup.value) else rows
  {
    var (front, f) := (GroupedMembers(findings[..n - 1]), findings[n - 1]);
    assert findings[..n][..n - 1] == findings[..n - 1];
    if f.duplicateGroup.Some? {
      assert GroupedMembers(findings[..n]) == front + [(f.id, f.duplicateGroup.value)];
      assert GroupedMembers(findings[..n])[..|front|] == front;
    } else {
      assert GroupedMembers(findings[..n]) == front;
    }
  }

  /** The first `n` findings have their group, the others do not yet. */
  ghost predicate GroupedSoFar(findings: seq<Finding>, rid: string, rows: seq<Row>, n: nat) {
    && |rows| == |findings|
    && forall i :: 0 <= i < |rows| ==>
         rows[i] == if i < n then FreshRow(findings[i], rid) else NewRow(findings[i], rid)
  }

  lemma GroupOneMore(findings: seq<Finding>, rid: string, rows: seq<Row>, n: nat)
    requires DistinctFindingIds(findings) && 0 < n <= |findings| && GroupedSoFar(findings, rid, rows, n - 1)
    ensures var f := findings[n - 1];
            GroupedSoFar(findings, rid,
              if f.duplicateGroup.Some? then GroupOne(rows, rid, f.id, f.duplicateGroup.value) else rows, n)
  {
    var f := findings[n - 1];
    assert forall i :: 0 <= i < |rows| ==> rows[i].id == findings[i].id && rows[i].reviewId == rid;
    if f.duplicateGroup.Some? {
      GroupOneSpec(rows, rid, f.id, f.duplicateGroup.value);
    }
  }

  lemma {:induction false} GroupAllPrefix(findings: seq<Finding>, rid: string, n: nat)
    requires DistinctFindingIds(findings) && n <= |findings|
    requires forall i :: 0 <= i < |findings| ==> findings[i].duplicateGroup != Some("")
    ensures GroupedSoFar(findings, rid, GroupAll(NewRows(findings, rid), rid, GroupedMembers(findings[..n])), n)
  {
    if n > 0 {
      GroupAllPrefix(findings, rid, n - 1);
      GroupAllStep(findings, rid, n);
      GroupOneMore(findings, rid, GroupAll(NewRows(findings, rid), rid, GroupedMembers(findings[..n - 1])), n);
    }
  }

  /** Persisting writes every finding once, as a candidate carrying its group. */
  lemma PersistedRows(findings: seq<Finding>, rid: string)
    requires DistinctFindingIds(findings)
    requires forall i :: 0 <= i < |findings| ==> findings[i].duplicateGroup != Some("")
    ensures |Persisted(findings, rid)| == |findings|
    ensures forall i :: 0 <= i < |findings| ==> Persisted(findings, rid)[i] == FreshRow(findings[i], rid)
    ensures forall i :: 0 <= i < |findings| ==>
      var (f, row) := (findings[i], Persisted(findings, rid)[i]);
      && row.id == f.id && row.reviewId == rid && row.path == f.path
      && row.lineStart == f.lineStart && row.lineEnd == f.lineEnd && row.group == f.duplicateGroup
      && row.status == Candidate && row.utility == None && row.commentId == None
  {
    GroupAllPrefix(findings, rid, |findings|);
    assert findings[..|findings|] == findings;
  }

  /** Persisting behind rows with other ids leaves those alone. */
  lemma {:induction false} PersistedBehind(before: seq<Row>, rows: seq<Row>, rid: string,
                                           updates: seq<(string, string)>)
    requires forall i, n :: 0 <= i < |before| && 0 <= n < |updates| ==> before[i].id != updates[n].0
    ensures GroupAll(before + rows, rid, updates) == before + GroupAll(rows, rid, updates)
  {
    if updates != [] {
      var n := |updates| - 1;
      PersistedBehind(before, rows, rid, updates[..n]);
      GroupOneBehind(before, GroupAll(rows, rid, updates[..n]), rid, updates[n].0, updates[n].1);
    }
  }

  lemma {:induction false} GroupOneBehind(before: seq<Row>, rows: seq<Row>, rid: string, id: string, group: string)
    requires forall i :: 0 <= i < |before| ==> before[i].id != id
    ensures GroupOne(before + rows, rid, id, group) == before + GroupOne(rows, rid, id, group)
  {
    if before == [] {
      assert before + rows == rows;
    } else {
      assert (before + rows)[1..] == before[1..] + rows;
      GroupOneBehind(before[1..], rows, rid, id, group);
    }
  }

  // ---------------------------------------------------------------- candidates

  lemma {:induction false} MembersOfSpec(findings: seq<Finding>, group: string, f: Finding)
    ensures f in MembersOf(findings, group) <==> f in findings && f.duplicateGroup == Some(group)
  {
    if findings != [] {
      var n := |findings| - 1;
      MembersOfSpec(findings[..n], group, f);
      assert findings == findings[..n] + [findings[n]];
    }
  }

  /** The decision of a group is about its recorded representative. */
  lemma GroupDecisionSpec(findings: seq<Finding>, groups: seq<Group>, i: nat, score: Scorer)
    requires RepresentativesExist(findings, groups) && i < |groups|
    ensures MembersOf(findings, groups[i].id) != []
    ensures GroupDecision(findings, groups[i], score).findingId == groups[i].representative
    ensures GroupDecision(findings, groups[i], score).groupId == Some(groups[i].id)
    ensures
      var (d, g) := (GroupDecision(findings, groups[i], score), groups[i]);
      exists f :: f in findings && f.id == g.representative && f.duplicateGroup == Some(g.id)
        && Score(d.features, d.utility) == score(f, MembersOf(findings, g.id), g.memberCount)
  {
    var g := groups[i];
    var f := FirstWithId(findings, g.representative).value;
    FirstWithIdSpec(findings, g.representative);
    MembersOfSpec(findings, g.id, f);
    FirstWithIdSpec(MembersOf(findings, g.id), g.representative);
    var rep := Representative(MembersOf(findings, g.id), g.representative);
    MembersOfSpec(findings, g.id, rep);
    assert rep in findings && rep.id == g.representative && rep.duplicateGroup == Some(g.id);
  }

  /** The positions of the ungrouped findings. */
  function Singles(findings: seq<Finding>): seq<nat> {
    if findings == [] then []
    else
      var n := |findings| - 1;
      Singles(findings[..n]) + (if findings[n].duplicateGroup.None? then [n] else [])
  }

  lemma {:induction false} SinglesSpec(findings: seq<Finding>)
    ensures forall k :: 0 <= k < |Singles(findings)| ==>
      Singles(findings)[k] < |findings| && findings[Singles(findings)[k]].duplicateGroup.None?
    ensures forall k, l :: 0 <= k < l < |Singles(findings)| ==> Singles(findings)[k] < Singles(findings)[l]
    ensures forall i: nat :: i < |findings| && findings[i].duplicateGroup.None? ==> i in Singles(findings)
  {
    if findings != [] {
      SinglesSpec(findings[..|findings| - 1]);
    }
  }

  lemma {:induction false} SingleDecisionsAt(findings: seq<Finding>, score: Scorer)
    ensures |SingleDecisions(findings, score)| == |Singles(findings)|
    ensures forall k :: 0 <= k < |Singles(findings)| ==>
      && Singles(findings)[k] < |findings|
      && SingleDecisions(findings, score)[k].findingId == findings[Singles(findings)[k]].id
      && SingleDecisions(findings, score)[k].groupId == None
      && var (d, f) := (SingleDecisions(findings, score)[k], findings[Singles(findings)[k]]);
         Score(d.features, d.utility) == score(f, [f], 1)
  {
    if findings != [] {
      SingleDecisionsAt(findings[..|findings| - 1], score);
    }
  }

  /** The k-th decision is the k-th group's, or after those the k-th ungrouped finding's. */
  ghost predicate LinedUp(findings: seq<Finding>, groups: seq<Group>, ds: seq<Decision>) {
    var (g, singles) := (|groups|, Singles(findings));
    && |ds| == g + |singles|
    && (forall k :: 0 <= k < g ==> ds[k].findingId == groups[k].representative && ds[k].groupId == Some(groups[k].id))
    && (forall k :: g <= k < |ds| ==>
          singles[k - g] < |findings| && ds[k].findingId == findings[singles[k - g]].id && ds[k].groupId == None)
  }

  lemma CandidatesLineUp(findings: seq<Finding>, groups: seq<Group>, score: Scorer)
    requires RepresentativesExist(findings, groups)
    ensures GroupsHaveMembers(findings, groups)
    ensures LinedUp(findings, groups, Candidates(findings, groups, score))
  {
    forall i | 0 <= i < |groups|
      ensures MembersOf(findings, groups[i].id) != []
      ensures GroupDecision(findings, groups[i], score).findingId == groups[i].representative
      ensures GroupDecision(findings, groups[i], score).groupId == Some(groups[i].id)
    {
      GroupDecisionSpec(findings, groups, i, score);
    }
    SingleDecisionsAt(findings, score);
  }

  lemma FindsItself(findings: seq<Finding>, i: nat)
    requires DistinctFindingIds(findings) && i < |findings|
    ensures FirstWithId(findings, findings[i].id) == Some(findings[i])
  {
    FirstWithIdSpec(findings, findings[i].id);
    SameFinding(findings, findings[i], FirstWithId(findings, findings[i].id).value);
  }

  lemma LinedUpAbout(findings: seq<Finding>, groups: seq<Group>, ds: seq<Decision>, k: nat)
    requires DistinctFindingIds(findings) && RepresentativesExist(findings, groups) && LinedUp(findings, groups, ds)
    requires k < |ds|
    ensures FirstWithId(findings, ds[k].findingId).Some?
    ensures FirstWithId(findings, ds[k].findingId).value.duplicateGroup == ds[k].groupId
  {
    if k >= |groups| {
      SinglesSpec(findings);
      FindsItself(findings, Singles(findings)[k - |groups|]);
    }
  }

  lemma LinedUpDistinct(findings: seq<Finding>, groups: seq<Group>, ds: seq<Decision>, j: nat, k: nat)
    requires WellGrouped(findings, groups) && LinedUp(findings, groups, ds) && j < k < |ds|
    ensures ds[j].findingId != ds[k].findingId
    ensures ds[j].groupId.Some? ==> ds[j].groupId != ds[k].groupId
  {
    LinedUpAbout(findings, groups, ds, j);
    LinedUpAbout(findings, groups, ds, k);
    SinglesSpec(findings);
    if k < |groups| {
      assert groups[j].id != groups[k].id;
    } else if j >= |groups| {
      assert Singles(findings)[j - |groups|] < Singles(findings)[k - |groups|];
    }
  }

  /** `_score_candidates` builds one decision per group, about its representative, and one per single. */
  lemma CandidatesCover(findings: seq<Finding>, groups: seq<Group>, score: Scorer)
    requires WellGrouped(findings, groups)
    ensures GroupsHaveMembers(findings, groups)
    ensures Covers(findings, groups, Candidates(findings, groups, score))
  {
    CandidatesLineUp(findings, groups, score);
    LinedUpCovers(findings, groups, Candidates(findings, groups, score));
  }

  lemma LinedUpCovers(findings: seq<Finding>, groups: seq<Group>, ds: seq<Decision>)
    requires WellGrouped(findings, groups) && LinedUp(findings, groups, ds)
    ensures Covers(findings, groups, ds)
  {
    forall j, k | 0 <= j < k < |ds|
      ensures ds[j].findingId != ds[k].findingId && (ds[j].groupId.Some? ==> ds[j].groupId != ds[k].groupId)
    {
      LinedUpDistinct(findings, groups, ds, j, k);
    }
    assert AboutFindings(findings, ds) by {
      forall d | d in ds
        ensures var r := FirstWithId(findings, d.findingId); r.Some? && r.value.duplicateGroup == d.groupId
      {
        var k :| 0 <= k < |ds| && ds[k] == d;
        LinedUpAbout(findings, groups, ds, k);
      }
    }
    assert GroupsDecided(groups, ds) by {
      forall i | 0 <= i < |groups|
        ensures GroupDecided(groups[i], ds)
      {
        assert ds[i] in ds && ds[i].groupId == Some(groups[i].id) && ds[i].findingId == groups[i].representative;
      }
    }
    LinedUpSingles(findings, groups, ds);
  }

  lemma LinedUpSingles(findings: seq<Finding>, groups: seq<Group>, ds: seq<Decision>)
    requires WellGrouped(findings, groups) && LinedUp(findings, groups, ds)
    ensures SinglesDecided(findings, ds)
  {
    forall f | f in findings && f.duplicateGroup.None? ensures exists d :: d in ds && d.findingId == f.id {
      var i :| 0 <= i < |findings| && findings[i] == f;
      SinglesSpec(findings);
      var k :| 0 <= k < |Singles(findings)| && Singles(findings)[k] == i;
      assert ds[|groups| + k] in ds;
    }
  }

  // ---------------------------------------------------------------- from grouping

  lemma SortedFresh(items: seq<Item>)
    requires FreshItems(items)
    ensures FreshItems(Sort(ItemLe, items)) && |Sort(ItemLe, items)| == |items|
  {
    var s := Sort(ItemLe, items);
    SortKeepsDistinct(items);
    SortPermutes(ItemLe, items);
    SameElements(items, s);
    assert forall i :: 0 <= i < |s| ==> s[i] in s;
  }

  /** The group a position is given has its row. */
  lemma GroupedHasRow(rule: Rule, s: seq<Item>, lead: seq<nat>, k: nat)
    requires |lead| == |s| && k < |s| && lead[k] < |s| && s[k].f.duplicateGroup == None
    ensures Grouped(rule, s, lead, k).duplicateGroup.Some? ==>
      && Grouped(rule, s, lead, k).duplicateGroup.value != ""
      && exists g :: g in GroupRows(rule, s, lead, |s|) && Grouped(rule, s, lead, k).duplicateGroup == Some(g.id)
  {
    if LeadsGroup(lead, lead[k]) {
      GroupRowListed(rule, s, lead, |s|, lead[k]);
      assert GroupRow(rule, s, lead, lead[k]).id == GroupId(rule, s[lead[k]].f);
    }
  }

  lemma GroupedFindings(rule: Rule, items: seq<Item>, order: seq<nat>, updated: seq<Finding>, groups: seq<Group>,
                        i: nat)
    requires FreshItems(items) && GroupedBy(rule, items, order, updated, groups) && i < |items|
    ensures updated[i].id == items[i].f.id && updated[i].duplicateGroup != Some("")
    ensures updated[i].duplicateGroup.Some? ==>
      exists a :: 0 <= a < |groups| && updated[i].duplicateGroup == Some(groups[a].id)
  {
    var s := Sort(ItemLe, items);
    var lead := Leaders(Close(rule), s);
    var k := GroupedResult(rule, items, order, updated, groups, i);
    GroupedHasRow(rule, s, lead, k);
    if updated[i].duplicateGroup.Some? {
      var g :| g in groups && updated[i].duplicateGroup == Some(g.id);
      var a :| 0 <= a < |groups| && groups[a] == g;
    }
  }

  lemma GroupHasRepresentative(rule: Rule, items: seq<Item>, order: seq<nat>, updated: seq<Finding>,
                               groups: seq<Group>, a: nat)
    requires FreshItems(items) && GroupedBy(rule, items, order, updated, groups) && a < |groups|
    requires DistinctFindingIds(updated)
    ensures FirstWithId(updated, groups[a].representative).Some?
    ensures FirstWithId(updated, groups[a].representative).value.duplicateGroup == Some(groups[a].id)
  {
    var s := Sort(ItemLe, items);
    var close := Close(rule);
    var lead := Leaders(close, s);
    var m := GroupRowLeader(rule, s, lead, |s|, groups[a]);
    if lead[m] != m {
      NoneLed(close, s, lead, m, |s|);
    }
    assert updated[order[m]] == Grouped(rule, s, lead, m);
    FindsItself(updated, order[m]);
  }

  /** What `apply_groups` returns is fit for the decision layer. */
  lemma GroupingIsWellFormed(rule: Rule, items: seq<Item>, order: seq<nat>, updated: seq<Finding>, groups: seq<Group>)
    requires FreshItems(items) && GroupedBy(rule, items, order, updated, groups)
    ensures WellGrouped(updated, groups)
    ensures forall i :: 0 <= i < |updated| ==> updated[i].duplicateGroup != Some("")
  {
    SortedFresh(items);
    GroupRowsDistinct(rule, Sort(ItemLe, items), Leaders(Close(rule), Sort(ItemLe, items)), |items|);
    forall i | 0 <= i < |items|
      ensures updated[i].id == items[i].f.id && updated[i].duplicateGroup != Some("")
      ensures updated[i].duplicateGroup.Some? ==>
      exists a :: 0 <= a < |groups| && updated[i].duplicateGroup == Some(groups[a].id)
    {
      GroupedFindings(rule, items, order, updated, groups, i);
    }
    assert DistinctFindingIds(updated);
    forall a | 0 <= a < |groups|
      ensures FirstWithId(updated, groups[a].representative).Some?
      ensures FirstWithId(updated, groups[a].representative).value.duplicateGroup == Some(groups[a].id)
    {
      GroupHasRepresentative(rule, items, order, updated, groups, a);
    }
  }

  // ---------------------------------------------------------------- through selection

  /** Annotating and reordering decisions changes nothing the coverage depends on. */
  lemma CoverageSurvives(findings: seq<Finding>, groups: seq<Group>, ds: seq<Decision>, es: seq<Decision>)
    requires Covers(findings, groups, ds) && multiset(S.BareAll(ds)) == multiset(S.BareAll(es))
    ensures Covers(findings, groups, es)
  {
    var id := (d: Decision) => d.findingId;
    assert DistinctBy(id, S.BareAll(ds));
    DistinctByPermutes(id, S.BareAll(ds), S.BareAll(es));
    assert DistinctFindings(es) by {
      forall i, j | 0 <= i < j < |es| ensures es[i].findingId != es[j].findingId {
        assert id(S.BareAll(es)[i]) != id(S.BareAll(es)[j]);
      }
    }
    CoverageSurvivesAbout(findings, ds, es);
    CoverageSurvivesBack(findings, groups, ds, es);
    assert OnePerGroup(es) by {
      forall d, e | d in es && e in es && d.groupId.Some? && d.groupId == e.groupId ensures d == e {
        var d' := S.BareMember(es, ds, d);
        var e' := S.BareMember(es, ds, e);
        assert d' == e';
        SameDecision(es, d, e);
      }
    }
  }

  lemma CoverageSurvivesAbout(findings: seq<Finding>, ds: seq<Decision>, es: seq<Decision>)
    requires AboutFindings(findings, ds) && multiset(S.BareAll(ds)) == multiset(S.BareAll(es))
    ensures AboutFindings(findings, es)
  {
    forall e | e in es
      ensures var r := FirstWithId(findings, e.findingId); r.Some? && r.value.duplicateGroup == e.groupId
    {
      var d := S.BareMember(es, ds, e);
    }
  }

  lemma CoverageSurvivesBack(findings: seq<Finding>, groups: seq<Group>, ds: seq<Decision>, es: seq<Decision>)
    requires SinglesDecided(findings, ds) && GroupsDecided(groups, ds)
      && multiset(S.BareAll(ds)) == multiset(S.BareAll(es))
    ensures SinglesDecided(findings, es) && GroupsDecided(groups, es)
  {
    forall f | f in findings && f.duplicateGroup.None? ensures exists d :: d in es && d.findingId == f.id {
      var d :| d in ds && d.findingId == f.id;
      var e := S.BareMember(ds, es, d);
    }
    forall i | 0 <= i < |groups| ensures GroupDecided(groups[i], es) {
      assert GroupDecided(groups[i], ds);
      var d :| d in ds && d.groupId == Some(groups[i].id) && d.findingId == groups[i].representative;
      var e := S.BareMember(ds, es, d);
    }
  }

  lemma SelectionDecidesAll(ds: seq<Decision>, cap: int, t: Thresholds)
    ensures forall d :: d in Select(ds, cap, t).decisions ==> d.selected.Some?
  {
    S.GatedGates(Rank(ds), cap, t);
    var (gated, all) := (Gated(Rank(ds), cap, t), Select(ds, cap, t).decisions);
    forall d | d in all ensures d.selected.Some? {
      var i :| 0 <= i < |all| && all[i] == d;
      if i < |gated| {
        assert gated[i] == d;
      }
    }
  }
}
