/** What the grouping means for the findings themselves, whatever order they came in. */
module GroupingCanonical {
  import opened Common
  import opened IndependentSets
  import opened Ordering
  import opened Similarity
  import opened Grouping

  lemma {:induction false} GroupRowListed(rule: Rule, s: seq<Item>, lead: seq<nat>, n: nat, m: nat)
    requires m < n <= |lead| == |s| && LeadsGroup(lead, m)
    ensures GroupRow(rule, s, lead, m) in GroupRows(rule, s, lead, n)
  {
    var (row, rows) := (GroupRow(rule, s, lead, m), GroupRows(rule, s, lead, n - 1));
    if m < n - 1 {
      GroupRowListed(rule, s, lead, n - 1, m);
      assert row in rows;
    } else {
      assert GroupRows(rule, s, lead, n) == rows + [row];
    }
  }

  lemma {:induction false} GroupRowLeader(rule: Rule, s: seq<Item>, lead: seq<nat>, n: nat, g: Group) returns (m: nat)
    requires n <= |lead| == |s| && g in GroupRows(rule, s, lead, n)
    ensures m < n && LeadsGroup(lead, m) && g == GroupRow(rule, s, lead, m)
  {
    m := n - 1;
    if g in GroupRows(rule, s, lead, n - 1) {
      m := GroupRowLeader(rule, s, lead, n - 1, g);
    }
  }

  /** Not a duplicate of anything: ungrouped, or the representative of its group. */
  ghost predicate Head(item: Item, after: Finding, groups: seq<Group>) {
    after.duplicateGroup == None || exists g :: g in groups && g.representative == item.f.id
  }

  lemma SortKeepsDistinct(items: seq<Item>)
    requires DistinctItems(items)
    ensures DistinctItems(Sort(ItemLe, items)) && |Sort(ItemLe, items)| == |items|
  {
    SortPermutes(ItemLe, items);
    DistinctByPermutes((item: Item) => item.f.id, items, Sort(ItemLe, items));
  }

  /** Leaders and only leaders are heads. */
  lemma HeadIffLeader(rule: Rule, s: seq<Item>, k: nat)
    requires DistinctItems(s) && k < |s| && s[k].f.duplicateGroup == None
    ensures var lead := Leaders(Close(rule), s);
            Head(s[k], Grouped(rule, s, lead, k), GroupRows(rule, s, lead, |s|)) <==> lead[k] == k
  {
    var close := Close(rule);
    var lead := Leaders(close, s);
    var groups := GroupRows(rule, s, lead, |s|);
    if lead[k] == k {
      if LeadsGroup(lead, k) {
        GroupRowListed(rule, s, lead, |s|, k);
        assert GroupRow(rule, s, lead, k) in groups;
      }
    } else {
      if !LeadsGroup(lead, lead[k]) {
        GroupOfOne(close, s, lead, k);
      }
      if g :| g in groups && g.representative == s[k].f.id {
        var m := GroupRowLeader(rule, s, lead, |s|, g);
        assert m == k;
        NoneLed(close, s, lead, k, |s|);
      }
    }
  }

  lemma GroupedResult(rule: Rule, items: seq<Item>, order: seq<nat>, updated: seq<Finding>, groups: seq<Group>, i: nat)
    returns (k: nat)
    requires GroupedBy(rule, items, order, updated, groups) && i < |items|
    ensures k < |order| && order[k] == i
    ensures var s := Sort(ItemLe, items);
            |s| == |items| && s[k] == items[i] && updated[i] == Grouped(rule, s, Leaders(Close(rule), s), k)
  {
    assert i in order;
    k :| 0 <= k < |order| && order[k] == i;
  }

  /** More confident; or as confident with a lesser first line, -1 if there is none; or else with a lesser id. */
  ghost predicate Outranks(rep: Finding, f: Finding) {
    var first := if rep.lineStart.Some? then rep.lineStart.value else -1;
    var line := if f.lineStart.Some? then f.lineStart.value else -1;
    && rep.confidence >= f.confidence
    && (rep.confidence == f.confidence ==> first <= line && (first == line ==> StringLe(rep.id, f.id)))
  }

  lemma HeadsIndependent(rule: Rule, items: seq<Item>, order: seq<nat>, updated: seq<Finding>, groups: seq<Group>,
                         i: nat, j: nat)
    requires GroupedBy(rule, items, order, updated, groups) && DistinctItems(items) && i < |items| && j < |items|
    requires items[i].f.duplicateGroup == None && items[j].f.duplicateGroup == None && i != j
    requires Head(items[i], updated[i], groups) && Head(items[j], updated[j], groups)
    ensures !Groupable(rule, items[i], items[j])
  {
    var s := Sort(ItemLe, items);
    var close := Close(rule);
    SortKeepsDistinct(items);
    var k := GroupedResult(rule, items, order, updated, groups, i);
    var l := GroupedResult(rule, items, order, updated, groups, j);
    HeadIffLeader(rule, s, k);
    HeadIffLeader(rule, s, l);
    LeadersIndependentAndMaximal(close, s, if k < l then k else l, if k < l then l else k);
    assert close(items[i], items[j]) == close(items[j], items[i]);
  }

  lemma OthersAreLed(rule: Rule, items: seq<Item>, order: seq<nat>, updated: seq<Finding>, groups: seq<Group>, i: nat)
    returns (r: nat)
    requires GroupedBy(rule, items, order, updated, groups) && i < |items|
    requires DistinctItems(items) && forall n :: 0 <= n < |items| ==> items[n].f.duplicateGroup == None
    requires !Head(items[i], updated[i], groups)
    ensures r < |items| && Head(items[r], updated[r], groups) && Groupable(rule, items[r], items[i])
    ensures ItemLe(items[r], items[i])
    ensures updated[i].duplicateGroup == updated[r].duplicateGroup == Some(GroupId(rule, items[r].f))
  {
    var s := Sort(ItemLe, items);
    var close := Close(rule);
    var lead := Leaders(close, s);
    SortKeepsDistinct(items);
    var k := GroupedResult(rule, items, order, updated, groups, i);
    HeadIffLeader(rule, s, k);
    var m := lead[k];
    r := order[m];
    ItemsOrdered(items);
    SortSorts(ItemLe, items);
    LeadersIndependentAndMaximal(close, s, m, k);
    assert Groupable(rule, s[m], s[k]) == close(s[m], s[k]);
    assert items[r] == s[m] && s[m].f.duplicateGroup == None;
    HeadIffLeader(rule, s, m);
    if !LeadsGroup(lead, m) {
      GroupOfOne(close, s, lead, k);
    }
    assert updated[r] == Grouped(rule, s, lead, m);
  }

  lemma EarlierOutranks(rule: Rule, a: Item, b: Item)
    requires ItemLe(a, b) && Groupable(rule, a, b)
    ensures Outranks(a.f, b.f)
  {}

  /**
    Representatives and ungrouped findings are pairwise not groupable; every other finding is
    groupable with its own representative, which outranks it.
   */
  lemma HeadsAreIndependentAndDominate(rule: Rule, items: seq<Item>, order: seq<nat>, updated: seq<Finding>,
                                       groups: seq<Group>, i: nat, j: nat)
    requires GroupedBy(rule, items, order, updated, groups)
    requires DistinctItems(items) && forall n :: 0 <= n < |items| ==> items[n].f.duplicateGroup == None
    requires i < |items| && j < |items|
    ensures i != j && Head(items[i], updated[i], groups) && Head(items[j], updated[j], groups) ==>
      || Cosine(items[i].v, items[j].v, rule.sqrt) < rule.threshold
      || items[i].f.path != items[j].f.path
      || !CategoriesAligned(items[i].f.category, items[j].f.category)
      || !LineRangesClose((items[i].f.lineStart, items[i].f.lineEnd), (items[j].f.lineStart, items[j].f.lineEnd),
                          rule.maxLineGap)
    ensures !Head(items[i], updated[i], groups) ==>
      exists r :: 0 <= r < |items| && Head(items[r], updated[r], groups)
        && Groupable(rule, items[r], items[i]) && Outranks(items[r].f, items[i].f)
        && updated[i].duplicateGroup == updated[r].duplicateGroup == Some(GroupId(rule, items[r].f))
  {
    if i != j && Head(items[i], updated[i], groups) && Head(items[j], updated[j], groups) {
      HeadsIndependent(rule, items, order, updated, groups, i, j);
    }
    if !Head(items[i], updated[i], groups) {
      var r := OthersAreLed(rule, items, order, updated, groups, i);
      EarlierOutranks(rule, items[r], items[i]);
    }
  }

  /** Permuting the findings together with their vectors changes no group and no finding's group. */
  lemma InputOrderIsIrrelevant(rule: Rule, items: seq<Item>, order: seq<nat>, updated: seq<Finding>, groups: seq<Group>,
                               items': seq<Item>, order': seq<nat>, updated': seq<Finding>, groups': seq<Group>,
                               i: nat, j: nat)
    requires GroupedBy(rule, items, order, updated, groups) && GroupedBy(rule, items', order', updated', groups')
    requires multiset(items) == multiset(items') && DistinctItems(items)
    requires i < |items| && j < |items'| && items[i] == items'[j]
    ensures groups == groups' && updated[i] == updated'[j]
  {
    ItemsOrdered(items);
    SortCanonical(ItemLe, items, items');
    SortKeepsDistinct(items);
    var k := GroupedResult(rule, items, order, updated, groups, i);
    var l := GroupedResult(rule, items', order', updated', groups', j);
  }

  // ---------------------------------------------------------------- group ids

  lemma GroupIdInjective(rule: Rule, a: Finding, b: Finding)
    requires a.reviewId == b.reviewId && GroupId(rule, a) == GroupId(rule, b)
    ensures a.id == b.id
  {
    var (x, y) := (a.reviewId + "|dup|" + a.id, b.reviewId + "|dup|" + b.id);
    assert x == y;
    var n := |a.reviewId| + 5;
    assert x[n..] == a.id && y[n..] == b.id;
  }

  /** Groups of different reviews have different ids, as long as review ids contain no bar. */
  lemma ReviewsShareNoGroup(rule: Rule, a: Finding, b: Finding)
    requires '|' !in a.reviewId && '|' !in b.reviewId && a.reviewId != b.reviewId
    ensures GroupId(rule, a) != GroupId(rule, b)
  {
    var (x, y) := (a.reviewId + "|dup|" + a.id, b.reviewId + "|dup|" + b.id);
    var (m, n) := (|a.reviewId|, |b.reviewId|);
    assert x[m] == '|' && y[n] == '|' && x[..m] == a.reviewId && y[..n] == b.reviewId;
    assert m < n ==> y[m] == b.reviewId[m];
    assert n < m ==> x[n] == a.reviewId[n];
  }

  ghost predicate OneReview(s: seq<Item>) {
    forall i, j :: 0 <= i < |s| && 0 <= j < |s| ==> s[i].f.reviewId == s[j].f.reviewId
  }

  /** The groups of one review have distinct ids. */
  lemma {:induction false} GroupRowsDistinct(rule: Rule, s: seq<Item>, lead: seq<nat>, n: nat)
    requires n <= |lead| == |s| && DistinctItems(s) && OneReview(s)
    ensures forall i, j :: 0 <= i < j < |GroupRows(rule, s, lead, n)| ==>
      GroupRows(rule, s, lead, n)[i].id != GroupRows(rule, s, lead, n)[j].id
    ensures forall i :: 0 <= i < |GroupRows(rule, s, lead, n)| ==> GroupRows(rule, s, lead, n)[i].id != ""
  {
    if n > 0 {
      GroupRowsDistinct(rule, s, lead, n - 1);
      var front := GroupRows(rule, s, lead, n - 1);
      forall i | 0 <= i < |front| ensures front[i].id != GroupId(rule, s[n - 1].f) {
        var m := GroupRowLeader(rule, s, lead, n - 1, front[i]);
        if front[i].id == GroupId(rule, s[n - 1].f) {
          GroupIdInjective(rule, s[m].f, s[n - 1].f);
        }
      }
    }
  }

  // ---------------------------------------------------------------- who represents a group

  /** Candidate findings of one review, with distinct ids and no group yet. */
  ghost predicate FreshItems(items: seq<Item>) {
    && DistinctItems(items) && OneReview(items)
    && forall i :: 0 <= i < |items| ==> items[i].f.duplicateGroup == None
  }

  lemma RepresentativeLeads(rule: Rule, items: seq<Item>, order: seq<nat>, updated: seq<Finding>, groups: seq<Group>,
                            a: nat, r: nat)
    returns (m: nat)
    requires GroupedBy(rule, items, order, updated, groups) && DistinctItems(items)
    requires a < |groups| && r < |items| && items[r].f.id == groups[a].representative
    ensures m < |order| && order[m] == r && items[r] == Sort(ItemLe, items)[m]
    ensures var lead := Leaders(Close(rule), Sort(ItemLe, items));
            LeadsGroup(lead, m) && lead[m] == m && groups[a] == GroupRow(rule, Sort(ItemLe, items), lead, m)
  {
    var s := Sort(ItemLe, items);
    var lead := Leaders(Close(rule), s);
    SortKeepsDistinct(items);
    m := GroupRowLeader(rule, s, lead, |s|, groups[a]);
    if lead[m] != m {
      NoneLed(Close(rule), s, lead, m, |s|);
    }
    assert items[order[m]] == s[m];
  }

  /** A member of a group is led by its representative. */
  lemma MemberIsLed(rule: Rule, items: seq<Item>, order: seq<nat>, updated: seq<Finding>, groups: seq<Group>,
                    a: nat, m: nat, k: nat)
    requires GroupedBy(rule, items, order, updated, groups) && FreshItems(items) && a < |groups|
    requires var (s, lead) := (Sort(ItemLe, items), Leaders(Close(rule), Sort(ItemLe, items)));
             m < |s| && k < |s| && LeadsGroup(lead, m) && groups[a] == GroupRow(rule, s, lead, m)
             && Grouped(rule, s, lead, k).duplicateGroup == Some(groups[a].id)
    ensures Leaders(Close(rule), Sort(ItemLe, items))[k] == m
  {
    var s := Sort(ItemLe, items);
    var lead := Leaders(Close(rule), s);
    SortKeepsDistinct(items);
    assert s[k] == items[order[k]] && s[m] == items[order[m]] && s[lead[k]] == items[order[lead[k]]];
    GroupIdInjective(rule, s[lead[k]].f, s[m].f);
  }

  /**
    The representative of a group is its most confident member; among equally confident ones the one with the
    least first line, -1 where there is none, and then the least id.
   */
  lemma RepresentativeIsMostConfident(rule: Rule, items: seq<Item>, order: seq<nat>, updated: seq<Finding>,
                                      groups: seq<Group>, a: nat, r: nat, i: nat)
    requires GroupedBy(rule, items, order, updated, groups) && FreshItems(items) && a < |groups|
    requires r < |items| && items[r].f.id == groups[a].representative
    requires i < |items| && updated[i].duplicateGroup == Some(groups[a].id)
    ensures updated[r].duplicateGroup == Some(groups[a].id)
    ensures items[r].f.path == items[i].f.path && Outranks(items[r].f, items[i].f)
    ensures i != r ==>
      && Cosine(items[r].v, items[i].v, rule.sqrt) >= rule.threshold
      && CategoriesAligned(items[r].f.category, items[i].f.category)
      && LineRangesClose((items[r].f.lineStart, items[r].f.lineEnd), (items[i].f.lineStart, items[i].f.lineEnd),
                         rule.maxLineGap)
  {
    var s := Sort(ItemLe, items);
    var lead := Leaders(Close(rule), s);
    var m := RepresentativeLeads(rule, items, order, updated, groups, a, r);
    var k := GroupedResult(rule, items, order, updated, groups, i);
    MemberIsLed(rule, items, order, updated, groups, a, m, k);
    ItemsOrdered(items);
    SortSorts(ItemLe, items);
    if k != m {
      LeadersIndependentAndMaximal(Close(rule), s, m, k);
      assert ItemLe(s[m], s[k]) && Groupable(rule, s[m], s[k]) == Close(rule)(s[m], s[k]);
    } else {
      StringLeTotal(items[i].f.id, items[i].f.id);
    }
  }

  /** Groups come in the order of their representatives: confidence descending, then path, first line and id. */
  lemma GroupsByRepresentative(rule: Rule, items: seq<Item>, order: seq<nat>, updated: seq<Finding>,
                               groups: seq<Group>, a: nat, b: nat, r: nat, q: nat)
    requires GroupedBy(rule, items, order, updated, groups) && FreshItems(items) && a < b < |groups|
    requires r < |items| && items[r].f.id == groups[a].representative
    requires q < |items| && items[q].f.id == groups[b].representative
    ensures
      var (f, g) := (items[r].f, items[q].f);
      var (x, y) := (if f.lineStart.Some? then f.lineStart.value else -1,
                     if g.lineStart.Some? then g.lineStart.value else -1);
      && f.confidence >= g.confidence
      && (f.confidence == g.confidence ==> StringLe(f.path, g.path))
      && (f.confidence == g.confidence && f.path == g.path ==> x <= y)
      && (f.confidence == g.confidence && f.path == g.path && x == y ==> StringLe(f.id, g.id))
  {
    var s := Sort(ItemLe, items);
    var lead := Leaders(Close(rule), s);
    var m := RepresentativeLeads(rule, items, order, updated, groups, a, r);
    var n := RepresentativeLeads(rule, items, order, updated, groups, b, q);
    SortKeepsDistinct(items);
    GroupRowsAscend(rule, s, lead, |s|, a, b, m, n);
    ItemsOrdered(items);
    SortSorts(ItemLe, items);
    assert ItemLe(s[m], s[n]);
    StringLeTotal(items[r].f.path, items[r].f.path);
  }

  lemma {:induction false} GroupRowsAscend(rule: Rule, s: seq<Item>, lead: seq<nat>, k: nat, a: nat, b: nat, m: nat,
                                           n: nat)
    requires k <= |lead| == |s| && DistinctItems(s) && a < b < |GroupRows(rule, s, lead, k)|
    requires m < |s| && LeadsGroup(lead, m) && GroupRows(rule, s, lead, k)[a] == GroupRow(rule, s, lead, m)
    requires n < |s| && LeadsGroup(lead, n) && GroupRows(rule, s, lead, k)[b] == GroupRow(rule, s, lead, n)
    ensures m < n
  {
    var front := GroupRows(rule, s, lead, k - 1);
    if b < |front| {
      GroupRowsAscend(rule, s, lead, k - 1, a, b, m, n);
    } else {
      assert s[n].f.id == s[k - 1].f.id;
      var l := GroupRowLeader(rule, s, lead, k - 1, front[a]);
      assert s[l].f.id == s[m].f.id;
    }
  }
}
