/**
  From consolidated findings to persisted decisions: the rows `create_findings` and
  `update_finding_duplicates` write, the candidates `_score_candidates` builds, and what
  `apply_decision` does to the rows, one decision after the other.
 */
module Decisions {
  import opened Common
  import opened Records
  import opened Grouping
  import opened Selection

  // ---------------------------------------------------------------- rows

  function NewRow(f: Finding, reviewId: string): Row {
    Row(f.id, reviewId, f.path, f.lineStart, f.lineEnd, None, None, Candidate, None)
  }

  function NewRows(findings: seq<Finding>, reviewId: string): (rows: seq<Row>)
    ensures |rows| == |findings| && forall i :: 0 <= i < |rows| ==> rows[i] == NewRow(findings[i], reviewId)
  {
    seq(|findings|, i requires 0 <= i < |findings| => NewRow(findings[i], reviewId))
  }

  /** Sets the group of the first row with this id and review. */
  function GroupOne(rows: seq<Row>, reviewId: string, id: string, group: string): seq<Row> {
    if rows == [] then []
    else if rows[0].id == id && rows[0].reviewId == reviewId then [rows[0].(group := Some(group))] + rows[1..]
    else [rows[0]] + GroupOne(rows[1..], reviewId, id, group)
  }

  function GroupAll(rows: seq<Row>, reviewId: string, updates: seq<(string, string)>): seq<Row> {
    if updates == [] then rows
    else
      var n := |updates| - 1;
      GroupOne(GroupAll(rows, reviewId, updates[..n]), reviewId, updates[n].0, updates[n].1)
  }

  /** The `grouped_members` list of `_consolidate_findings`. */
  function GroupedMembers(findings: seq<Finding>): seq<(string, string)> {
    if findings == [] then []
    else
      var n := |findings| - 1;
      GroupedMembers(findings[..n]) +
        (if findings[n].duplicateGroup.Some? && findings[n].duplicateGroup.value != ""
         then [(findings[n].id, findings[n].duplicateGroup.value)] else [])
  }

  /** The rows of a review once its consolidated findings are persisted. */
  function Persisted(findings: seq<Finding>, reviewId: string): seq<Row> {
    GroupAll(NewRows(findings, reviewId), reviewId, GroupedMembers(findings))
  }

  // ---------------------------------------------------------------- candidates

  function MembersOf(findings: seq<Finding>, group: string): seq<Finding> {
    if findings == [] then []
    else
      var n := |findings| - 1;
      MembersOf(findings[..n], group) + (if findings[n].duplicateGroup == Some(group) then [findings[n]] else [])
  }

  function FirstWithId(findings: seq<Finding>, id: string): Option<Finding> {
    if findings == [] then None
    else if findings[0].id == id then Some(findings[0])
    else FirstWithId(findings[1..], id)
  }

  /** The member with the recorded id, or else the first member. */
  function Representative(members: seq<Finding>, id: string): Finding
    requires members != []
  {
    var r := FirstWithId(members, id);
    if r.Some? then r.value else members[0]
  }

  /** Features and utility of a candidate, from its representative and its group's members. */
  datatype Score = Score(features: Features, utility: real)

  type Scorer = (Finding, seq<Finding>, nat) -> Score

  function NewDecision(f: Finding, group: Option<string>, score: Score): Decision {
    Decision(f.id, group, score.features, score.utility, None, None, None)
  }

  ghost predicate GroupsHaveMembers(findings: seq<Finding>, groups: seq<Group>) {
    forall i :: 0 <= i < |groups| ==> MembersOf(findings, groups[i].id) != []
  }

  function GroupDecision(findings: seq<Finding>, g: Group, score: Scorer): Decision
    requires MembersOf(findings, g.id) != []
  {
    var members := MembersOf(findings, g.id);
    var rep := Representative(members, g.representative);
    NewDecision(rep, Some(g.id), score(rep, members, g.memberCount))
  }

  function GroupDecisions(findings: seq<Finding>, groups: seq<Group>, score: Scorer): (ds: seq<Decision>)
    requires GroupsHaveMembers(findings, groups)
    ensures |ds| == |groups|
    ensures forall i :: 0 <= i < |ds| ==> ds[i] == GroupDecision(findings, groups[i], score)
  {
    seq(|groups|, i requires 0 <= i < |groups| && MembersOf(findings, groups[i].id) != [] =>
      GroupDecision(findings, groups[i], score))
  }

  function SingleDecisions(findings: seq<Finding>, score: Scorer): seq<Decision> {
    if findings == [] then []
    else
      var n := |findings| - 1;
      SingleDecisions(findings[..n], score) +
        (if findings[n].duplicateGroup.None?
         then [NewDecision(findings[n], None, score(findings[n], [findings[n]], 1))] else [])
  }

  function Candidates(findings: seq<Finding>, groups: seq<Group>, score: Scorer): seq<Decision>
    requires GroupsHaveMembers(findings, groups)
  {
    GroupDecisions(findings, groups, score) + SingleDecisions(findings, score)
  }

  method ScoreCandidates(findings: seq<Finding>, groups: seq<Group>, score: Scorer)
    returns (result: Result<seq<Decision>, string>)
    ensures result.Ok? <==> GroupsHaveMembers(findings, groups)
    ensures result.Ok? ==> result.value == Candidates(findings, groups, score)
  {
    var decisions := [];
    for i := 0 to |groups|
      invariant GroupsHaveMembers(findings, groups[..i])
      invariant decisions == GroupDecisions(findings, groups[..i], score)
    {
      var members := MembersOf(findings, groups[i].id);
      if members == [] {
        return Err("redundancy group has no persisted members");
      }
      var representative := Representative(members, groups[i].representative);
      decisions := decisions +
        [NewDecision(representative, Some(groups[i].id), score(representative, members, groups[i].memberCount))];
    }
    assert groups[..|groups|] == groups;
    ghost var grouped := decisions;
    for i := 0 to |findings|
      invariant decisions == grouped + SingleDecisions(findings[..i], score)
    {
      assert findings[..i + 1][..i] == findings[..i];
      if findings[i].duplicateGroup.None? {
        decisions := decisions + [NewDecision(findings[i], None, score(findings[i], [findings[i]], 1))];
      }
    }
    assert findings[..|findings|] == findings;
    return Ok(decisions);
  }

  // ---------------------------------------------------------------- applying decisions

  function Decided(row: Row, d: Decision): Row {
    row.(utility := Some(d.utility),
         status := match d.selected
                   case Some(selected) => (if selected then Scheduled else Suppressed)
                   case None => row.status)
  }

  predicate HasRow(rows: seq<Row>, id: string) {
    rows != [] && (rows[0].id == id || HasRow(rows[1..], id))
  }

  /** The first row with the decision's finding id gets the decision. */
  function DecideFirst(rows: seq<Row>, d: Decision): seq<Row> {
    if rows == [] then []
    else if rows[0].id == d.findingId then [Decided(rows[0], d)] + rows[1..]
    else [rows[0]] + DecideFirst(rows[1..], d)
  }

  /** The decision of a group suppresses every other row of the group. */
  predicate SuppressedBy(row: Row, d: Decision) {
    d.selected.Some? && d.groupId.Some? && d.groupId.value != "" && row.group == d.groupId && row.id != d.findingId
  }

  function SuppressOthers(rows: seq<Row>, d: Decision): (r: seq<Row>)
    ensures |r| == |rows|
    ensures forall i :: 0 <= i < |r| ==> r[i] == if SuppressedBy(rows[i], d) then rows[i].(status := Suppressed)
      else rows[i]
  {
    seq(|rows|, i requires 0 <= i < |rows| => if SuppressedBy(rows[i], d) then rows[i].(status := Suppressed)
        else rows[i])
  }

  function ApplyOne(rows: seq<Row>, d: Decision): seq<Row> {
    if HasRow(rows, d.findingId) then SuppressOthers(DecideFirst(rows, d), d) else rows
  }

  function ApplyAll(rows: seq<Row>, decisions: seq<Decision>): seq<Row> {
    if decisions == [] then rows
    else
      var n := |decisions| - 1;
      ApplyOne(ApplyAll(rows, decisions[..n]), decisions[n])
  }
}
