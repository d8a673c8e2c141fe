/** `service.py`: how consolidated findings and decisions reach the store. */
module Orchestrator {
  import opened Common
  import opened Grouping
  import opened Selection
  import opened Decisions
  import opened MemoryStore

  /** The write order of `_consolidate_findings`: the rows first, then the groups they belong to. */
  method PersistFindings(store: Store, reviewId: string, findings: seq<Finding>)
    modifies store`findings
    ensures store.findings
      == GroupAll(old(store.findings) + NewRows(findings, reviewId), reviewId, GroupedMembers(findings))
    ensures old(store.findings) == [] ==> store.findings == Persisted(findings, reviewId)
  {
    store.CreateFindings(reviewId, findings);
    var members := GroupedMembers(findings);
    if members != [] {
      store.UpdateFindingDuplicates(reviewId, members);
    }
    assert old(store.findings) == [] ==>
      old(store.findings) + NewRows(findings, reviewId) == NewRows(findings, reviewId);
  }

  /** The decision loop of `_decide_findings`: score, rank, select, then apply one by one. */
  method DecideFindings(store: Store, findings: seq<Finding>, groups: seq<Group>, score: Scorer, cap: int,
                        t: Thresholds)
    returns (result: Result<int, string>)
    modifies store`findings
    ensures result.Ok? <==> GroupsHaveMembers(findings, groups) && ValidArguments(cap, t)
    ensures result.Err? ==> store.findings == old(store.findings)
    ensures result.Ok? ==>
      var selection := Select(Rank(Candidates(findings, groups, score)), cap, t);
      result.value == selection.selectedCount && store.findings == ApplyAll(old(store.findings), selection.decisions)
  {
    var candidates := ScoreCandidates(findings, groups, score);
    if candidates.Err? {
      return Err(candidates.error);
    }
    var selected := SelectDecisions(Rank(candidates.value), cap, t);
    if selected.Err? {
      return Err(selected.error);
    }
    var decisions := selected.value.decisions;
    for i := 0 to |decisions|
      invariant store.findings == ApplyAll(old(store.findings), decisions[..i])
    {
      store.ApplyDecision(decisions[i]);
      assert decisions[..i + 1][..i] == decisions[..i];
    }
    assert decisions[..|decisions|] == decisions;
    return Ok(selected.value.selectedCount);
  }
}
