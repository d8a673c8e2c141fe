/**
  `redundancy.py`: greedy grouping of duplicate findings. The nested loops of `apply_groups` are
  proved to compute the first-come maximal independent set of the "groupable" relation.
 */
module Grouping {
  import opened Common
  import opened IndependentSets
  import opened Ordering
  import opened Similarity

  /** A candidate finding (`FindingWrite`); texts that only end up in comments are left out. */
  datatype Finding = Finding(
    id: string,
    agentKey: string,
    reviewId: string,
    path: string,
    lineStart: Option<int>,
    lineEnd: Option<int>,
    category: string,
    severity: string,
    confidence: real,
    duplicateGroup: Option<string>)

  function Tagged(x: string): string {
    ['u'] + x
  }

  lemma TaggedInjective()
    ensures forall x, y :: Tagged(x) == Tagged(y) ==> x == y
  {
    forall x, y | Tagged(x) == Tagged(y) ensures x == y {
      assert Tagged(x)[1..] == x && Tagged(y)[1..] == y;
    }
  }

  /** `uuid5` over a fixed namespace: never empty, and no two inputs share an id. */
  type Digest = f: string -> string | forall x, y :: f(x) != "" && (f(x) == f(y) ==> x == y)
    witness (TaggedInjective(); (x: string) => Tagged(x))

  datatype Rule = Rule(sqrt: SquareRoot, threshold: real, maxLineGap: int, uuid5: Digest)

  datatype Group = Group(id: string, representative: string, memberCount: nat, maxSimilarity: real)

  /** A finding with its embedding. */
  datatype Item = Item(f: Finding, v: seq<real>)

  predicate Groupable(rule: Rule, a: Item, b: Item) {
    && Cosine(a.v, b.v, rule.sqrt) >= rule.threshold
    && CategoriesAligned(a.f.category, b.f.category)
    && a.f.path == b.f.path
    && LineRangesClose((a.f.lineStart, a.f.lineEnd), (b.f.lineStart, b.f.lineEnd), rule.maxLineGap)
  }

  lemma GroupableSymmetric(rule: Rule, a: Item, b: Item)
    ensures Groupable(rule, a, b) == Groupable(rule, b, a)
  {
    CosineSymmetric(a.v, b.v, rule.sqrt);
    CategoriesAlignedSymmetric(a.f.category, b.f.category);
    LineRangesCloseSymmetric((a.f.lineStart, a.f.lineEnd), (b.f.lineStart, b.f.lineEnd), rule.maxLineGap);
  }

  /** The relation of one grouping run. */
  function Close(rule: Rule): (close: (Item, Item) -> bool)
    ensures Symmetric(close)
    ensures forall a, b {:trigger close(a, b)} :: close(a, b) == Groupable(rule, a, b)
  {
    var close := (a, b) => Groupable(rule, a, b);
    assert forall a, b {:trigger close(a, b)} :: close(a, b) == close(b, a) by {
      forall a, b ensures Groupable(rule, a, b) == Groupable(rule, b, a) {
        GroupableSymmetric(rule, a, b);
      }
    }
    close
  }

  function GroupId(rule: Rule, rep: Finding): string {
    rule.uuid5(rep.reviewId + "|dup|" + rep.id)
  }

  // ---------------------------------------------------------------- the order

  function LineKey(f: Finding): int {
    if f.lineStart.Some? then f.lineStart.value else -1
  }

  /** Confidence descending, then path, first line and id. */
  predicate ItemLe(a: Item, b: Item) {
    a.f.confidence > b.f.confidence ||
    (a.f.confidence == b.f.confidence &&
     if a.f.path != b.f.path then StringLe(a.f.path, b.f.path)
     else if LineKey(a.f) != LineKey(b.f) then LineKey(a.f) < LineKey(b.f)
     else StringLe(a.f.id, b.f.id))
  }

  lemma ItemLeTotal(a: Item, b: Item)
    ensures ItemLe(a, b) || ItemLe(b, a)
    ensures ItemLe(a, b) && ItemLe(b, a) ==> a.f.id == b.f.id
  {
    StringLeTotal(a.f.path, b.f.path);
    StringLeTotal(a.f.id, b.f.id);
  }

  lemma ItemLeTransitive(a: Item, b: Item, c: Item)
    requires ItemLe(a, b) && ItemLe(b, c)
    ensures ItemLe(a, c)
  {
    if StringLe(a.f.path, b.f.path) && StringLe(b.f.path, c.f.path) {
      StringLeTransitive(a.f.path, b.f.path, c.f.path);
      StringLeTotal(a.f.path, b.f.path);
    }
    if StringLe(a.f.id, b.f.id) && StringLe(b.f.id, c.f.id) {
      StringLeTransitive(a.f.id, b.f.id, c.f.id);
    }
  }

  ghost predicate DistinctItems(items: seq<Item>) {
    forall i, j :: 0 <= i < j < |items| ==> items[i].f.id != items[j].f.id
  }

  lemma ItemsOrdered(items: seq<Item>)
    ensures PreordersAll(ItemLe, items)
    ensures DistinctItems(items) ==> SeparatesAll(ItemLe, items)
  {
    forall x, y ensures ItemLe(x, y) || ItemLe(y, x) {
      ItemLeTotal(x, y);
    }
    forall x, y, z | ItemLe(x, y) && ItemLe(y, z) ensures ItemLe(x, z) {
      ItemLeTransitive(x, y, z);
    }
    if DistinctItems(items) {
      forall x, y | x in items && y in items && ItemLe(x, y) && ItemLe(y, x) ensures x == y {
        ItemLeTotal(x, y);
      }
    }
  }

  // ---------------------------------------------------------------- what the loops return

  function Pick(s: seq<Item>, positions: seq<nat>): (vectors: seq<seq<real>>)
    requires forall i :: 0 <= i < |positions| ==> positions[i] < |s|
    ensures |vectors| == |positions|
    ensures forall i :: 0 <= i < |positions| ==> vectors[i] == s[positions[i]].v
  {
    seq(|positions|, i requires 0 <= i < |positions| => s[positions[i]].v)
  }

  /** Greatest similarity of `v` with any vector of `vs`, at least `best`. */
  function Best(v: seq<real>, vs: seq<seq<real>>, sqrt: SquareRoot, best: real): real {
    if vs == [] then best
    else
      var c := Cosine(v, vs[0], sqrt);
      Best(v, vs[1..], sqrt, if best < c then c else best)
  }

  function BestOf(us: seq<seq<real>>, vs: seq<seq<real>>, sqrt: SquareRoot, best: real): real {
    if us == [] then best else BestOf(us[1..], vs, sqrt, Best(us[0], vs, sqrt, best))
  }

  /** The `max` over all pairs of members, a member with itself included. */
  function MaxSimilarity(vs: seq<seq<real>>, sqrt: SquareRoot): real
    requires vs != []
  {
    BestOf(vs, vs, sqrt, Cosine(vs[0], vs[0], sqrt))
  }

  lemma BestIsGreatest(v: seq<real>, vs: seq<seq<real>>, sqrt: SquareRoot, best: real)
    ensures var r := Best(v, vs, sqrt, best);
            && best <= r && (forall i :: 0 <= i < |vs| ==> Cosine(v, vs[i], sqrt) <= r)
            && (r == best || exists i :: 0 <= i < |vs| && r == Cosine(v, vs[i], sqrt))
  {
    if vs != [] {
      assert forall i :: 0 < i < |vs| ==> vs[i] == vs[1..][i - 1];
    }
  }

  lemma {:induction false} BestOfIsGreatest(us: seq<seq<real>>, vs: seq<seq<real>>, sqrt: SquareRoot, best: real)
    ensures var r := BestOf(us, vs, sqrt, best);
            && best <= r && (forall i, j :: 0 <= i < |us| && 0 <= j < |vs| ==> Cosine(us[i], vs[j], sqrt) <= r)
            && (r == best || exists i, j :: 0 <= i < |us| && 0 <= j < |vs| && r == Cosine(us[i], vs[j], sqrt))
  {
    if us != [] {
      BestIsGreatest(us[0], vs, sqrt, best);
      BestOfIsGreatest(us[1..], vs, sqrt, Best(us[0], vs, sqrt, best));
      assert forall i :: 0 < i < |us| ==> us[i] == us[1..][i - 1];
    }
  }

  /**
    `max_pairwise_similarity` is attained by some pair of members, a member with itself included, and
    exceeded by none.
   */
  lemma MaxSimilarityIsGreatest(vs: seq<seq<real>>, sqrt: SquareRoot)
    requires vs != []
    ensures var r := MaxSimilarity(vs, sqrt);
            && (forall i, j :: 0 <= i < |vs| && 0 <= j < |vs| ==> Cosine(vs[i], vs[j], sqrt) <= r)
            && (exists i, j :: 0 <= i < |vs| && 0 <= j < |vs| && r == Cosine(vs[i], vs[j], sqrt))
  {
    BestOfIsGreatest(vs, vs, sqrt, Cosine(vs[0], vs[0], sqrt));
  }

  /**
    As the loop compares each member with itself, the recorded maximum says nothing about distinct members:
    it is 1 for every group with a vector that is not null, and 0 otherwise.
   */
  lemma MaxSimilarityIsOne(vs: seq<seq<real>>, sqrt: SquareRoot)
    requires vs != [] && TrueRoot(sqrt)
    ensures MaxSimilarity(vs, sqrt) == if exists i :: 0 <= i < |vs| && Dot(vs[i], vs[i]) != 0.0 then 1.0 else 0.0
  {
    MaxSimilarityIsGreatest(vs, sqrt);
    var i, j :| 0 <= i < |vs| && 0 <= j < |vs| && MaxSimilarity(vs, sqrt) == Cosine(vs[i], vs[j], sqrt);
    CosineAtMostOne(vs[i], vs[j], sqrt);
    if k :| 0 <= k < |vs| && Dot(vs[k], vs[k]) != 0.0 {
      CosineOfSelf(vs[k], sqrt);
      assert Cosine(vs[k], vs[k], sqrt) <= MaxSimilarity(vs, sqrt);
    }
  }

  /** The group row of leader `m`. */
  function GroupRow(rule: Rule, s: seq<Item>, lead: seq<nat>, m: nat): Group
    requires |lead| == |s| && m < |s| && LeadsGroup(lead, m)
  {
    var members := LedBy(lead, m, |s|);
    LedByInRange(lead, m, |s|);
    Group(GroupId(rule, s[m].f), s[m].f.id, |members|, MaxSimilarity(Pick(s, members), rule.sqrt))
  }

  /** The group rows of the leaders before `n`, in order. */
  function GroupRows(rule: Rule, s: seq<Item>, lead: seq<nat>, n: nat): seq<Group>
    requires n <= |lead| == |s|
  {
    if n == 0 then []
    else GroupRows(rule, s, lead, n - 1) + (if LeadsGroup(lead, n - 1) then [GroupRow(rule, s, lead, n - 1)] else [])
  }

  /** The finding at position `k` with its group filled in. */
  function Grouped(rule: Rule, s: seq<Item>, lead: seq<nat>, k: nat): Finding
    requires k < |lead| <= |s| && lead[k] < |s|
  {
    if LeadsGroup(lead, lead[k]) then s[k].f.(duplicateGroup := Some(GroupId(rule, s[lead[k]].f))) else s[k].f
  }

  function Zip(findings: seq<Finding>, vectors: seq<seq<real>>): (items: seq<Item>)
    requires |findings| == |vectors|
    ensures |items| == |findings|
    ensures forall i :: 0 <= i < |items| ==> items[i] == Item(findings[i], vectors[i])
  {
    seq(|findings|, i requires 0 <= i < |findings| => Item(findings[i], vectors[i]))
  }

  /** `order` is the sort of the indices that puts the items in the order `s`. */
  ghost predicate Arranges(order: seq<nat>, items: seq<Item>, s: seq<Item>) {
    && |order| == |items| == |s|
    && (forall k :: 0 <= k < |order| ==> order[k] < |items| && items[order[k]] == s[k])
    && (forall j, k :: 0 <= j < k < |order| ==> order[j] != order[k])
    && (forall i :: 0 <= i < |items| ==> i in order)
  }

  function Map<A, B>(g: A -> B, s: seq<A>): (r: seq<B>)
    ensures |r| == |s| && forall i :: 0 <= i < |s| ==> r[i] == g(s[i])
  {
    if |s| == 0 then [] else [g(s[0])] + Map(g, s[1..])
  }

  lemma {:induction false} InsertMap<A, B>(le: (A, A) -> bool, le': (B, B) -> bool, g: A -> B, x: A, s: seq<A>)
    requires forall a, b :: le(a, b) == le'(g(a), g(b))
    ensures Map(g, Insert(le, x, s)) == Insert(le', g(x), Map(g, s))
  {
    if |s| != 0 && !le(x, s[0]) {
      InsertMap(le, le', g, x, s[1..]);
    }
  }

  /** Sorting keys is sorting what they stand for. */
  lemma {:induction false} SortMap<A, B>(le: (A, A) -> bool, le': (B, B) -> bool, g: A -> B, s: seq<A>)
    requires forall a, b :: le(a, b) == le'(g(a), g(b))
    ensures Map(g, Sort(le, s)) == Sort(le', Map(g, s))
  {
    if |s| != 0 {
      SortMap(le, le', g, s[1..]);
      InsertMap(le, le', g, s[0], Sort(le, s[1..]));
      assert Map(g, s)[1..] == Map(g, s[1..]);
    }
  }

  function Range(n: nat): (r: seq<nat>)
    ensures |r| == n && forall i :: 0 <= i < n ==> r[i] == i
  {
    seq(n, i => i)
  }

  /** `sorted(range(n), key=...)`: the indices in item order. */
  method SortIndices(items: seq<Item>) returns (order: seq<nat>)
    requires items != []
    ensures Arranges(order, items, Sort(ItemLe, items))
  {
    var at := (i: nat) => if i < |items| then items[i] else items[0];
    var le := (i: nat, j: nat) => ItemLe(at(i), at(j));
    var range := Range(|items|);
    order := Sort(le, range);
    SortPermutes(le, range);
    SameElements(order, range);
    SortMap(le, ItemLe, at, range);
    assert Map(at, range) == items;
    var sorted := Map(at, order);
    forall k | 0 <= k < |order| ensures order[k] < |items| && items[order[k]] == sorted[k] {
      assert order[k] in range;
    }
    forall i | 0 <= i < |items| ensures i in order {
      assert range[i] in range;
    }
    DistinctByPermutes((i: nat) => i, range, order);
  }

  // ---------------------------------------------------------------- the loops

  function At(order: seq<nat>, positions: seq<nat>): (r: seq<nat>)
    requires forall i :: 0 <= i < |positions| ==> positions[i] < |order|
    ensures |r| == |positions| && forall i :: 0 <= i < |positions| ==> r[i] == order[positions[i]]
  {
    seq(|positions|, i requires 0 <= i < |positions| => order[positions[i]])
  }

  /** One turn of the inner loop, in terms of the positions behind the indices. */
  ghost predicate StepAt(items: seq<Item>, order: seq<nat>, taken: seq<bool>, p: nat,
                         close: (Item, Item) -> bool, lead: seq<nat>, q: nat)
    requires p < |order| == |lead| && q < |order| && |taken| == |items|
    requires order[p] < |items| && order[q] < |items|
  {
    var (i, j) := (order[p], order[q]);
    At(order, FoundUpTo(lead, p, q + 1))
    == At(order, FoundUpTo(lead, p, q)) + (if i != j && !taken[j] && close(items[i], items[j]) then [j] else [])
  }

  lemma CollectStep(items: seq<Item>, order: seq<nat>, taken: seq<bool>, p: nat, q: nat,
                    close: (Item, Item) -> bool, s: seq<Item>, lead: seq<nat>)
    requires Arranges(order, items, s) && |taken| == |items|
    requires Symmetric(close) && Greedy(close, s, lead) && |lead| == |s| && p < |s| && lead[p] == p && q < |s|
    requires taken[order[q]] == Settled(lead, q, p)
    ensures StepAt(items, order, taken, p, close, lead, q)
  {
    FoundStep(close, s, lead, p, q);
  }

  /** The inner loop, given what each turn does. */
  method Gather(items: seq<Item>, order: seq<nat>, taken: seq<bool>, p: nat,
                close: (Item, Item) -> bool, ghost lead: seq<nat>)
    returns (members: seq<nat>)
    requires p < |order| == |lead| && |taken| == |items| && forall q :: 0 <= q < |order| ==> order[q] < |items|
    requires forall q :: 0 <= q < |order| ==> StepAt(items, order, taken, p, close, lead, q)
    ensures members == At(order, FoundUpTo(lead, p, |order|))
  {
    var i := order[p];
    members := [i];
    for q := 0 to |order|
      invariant members == At(order, FoundUpTo(lead, p, q))
    {
      var j := order[q];
      assert StepAt(items, order, taken, p, close, lead, q);
      if i == j || taken[j] || !close(items[i], items[j]) {
        continue;
      }
      members := members + [j];
    }
  }

  /** The leader and everything unassigned that is groupable with it. */
  method CollectMembers(items: seq<Item>, order: seq<nat>, taken: seq<bool>, p: nat,
                        close: (Item, Item) -> bool, ghost s: seq<Item>, ghost lead: seq<nat>)
    returns (members: seq<nat>)
    requires Arranges(order, items, s) && |taken| == |items|
    requires Symmetric(close) && Greedy(close, s, lead) && |lead| == |s| && p < |s| && lead[p] == p
    requires forall k :: 0 <= k < |s| ==> taken[order[k]] == Settled(lead, k, p)
    ensures members == At(order, FoundUpTo(lead, p, |s|))
  {
    forall q | 0 <= q < |order| ensures StepAt(items, order, taken, p, close, lead, q) {
      CollectStep(items, order, taken, p, q, close, s, lead);
    }
    members := Gather(items, order, taken, p, close, lead);
  }

  lemma NotLeading(rule: Rule, s: seq<Item>, lead: seq<nat>, p: nat)
    requires |lead| == |s| && p < |s| && !LeadsGroup(lead, p)
    ensures forall k :: 0 <= k < |s| ==> Settled(lead, k, p + 1) == Settled(lead, k, p)
    ensures GroupRows(rule, s, lead, p + 1) == GroupRows(rule, s, lead, p)
  {
  }

  /** `assigned[member] = True` for every member. */
  method MarkAssigned(taken: seq<bool>, members: seq<nat>) returns (r: seq<bool>)
    requires forall t :: 0 <= t < |members| ==> members[t] < |taken|
    ensures |r| == |taken| && forall j :: 0 <= j < |r| ==> r[j] == (taken[j] || j in members)
  {
    r := taken;
    for t := 0 to |members|
      invariant |r| == |taken| && forall j :: 0 <= j < |r| ==> r[j] == (taken[j] || j in members[..t])
    {
      r := r[members[t] := true];
    }
  }

  /** `updated[member] = replace(updated[member], duplicate_group=group_id)` for every member. */
  method FillGroup(updated: seq<Finding>, members: seq<nat>, id: string) returns (r: seq<Finding>)
    requires forall t :: 0 <= t < |members| ==> members[t] < |updated|
    ensures |r| == |updated|
    ensures forall j :: 0 <= j < |r| ==>
      (r[j] == if j in members then updated[j].(duplicateGroup := Some(id)) else updated[j])
  {
    r := updated;
    for t := 0 to |members|
      invariant |r| == |updated|
      invariant forall j :: 0 <= j < |r| ==>
        (r[j] == if j in members[..t] then updated[j].(duplicateGroup := Some(id)) else updated[j])
    {
      r := r[members[t] := r[members[t]].(duplicateGroup := Some(id))];
    }
  }

  /** Position `k` is among the listed members exactly when `p` leads it. */
  lemma ListedIff(items: seq<Item>, order: seq<nat>, s: seq<Item>, lead: seq<nat>, p: nat, k: nat)
    requires Arranges(order, items, s) && |lead| == |s| && p < |s| && k < |s|
    ensures order[k] in At(order, FoundUpTo(lead, p, |s|)) <==> lead[k] == p
  {
    var members := LedBy(lead, p, |s|);
    var listed := At(order, FoundUpTo(lead, p, |s|));
    LedByMember(lead, p, |s|, k);
    LedByInRange(lead, p, |s|);
    if lead[k] == p {
      var i :| 0 <= i < |members| && members[i] == k;
      assert listed[i] == order[k];
    }
    if order[k] in listed {
      var i :| 0 <= i < |listed| && listed[i] == order[k];
      assert members[i] == k;
    }
  }

  /** What the outer loop has done when it reaches position `p`. */
  ghost predicate Progress(rule: Rule, items: seq<Item>, order: seq<nat>, s: seq<Item>, lead: seq<nat>, p: nat,
                           taken: seq<bool>, updated: seq<Finding>, groups: seq<Group>) {
    && Arranges(order, items, s) && p <= |s| == |lead| && |taken| == |updated| == |s|
    && (forall k :: 0 <= k < |s| ==> lead[k] < |s|)
    && (forall k :: 0 <= k < |s| ==> taken[order[k]] == Settled(lead, k, p))
    && (forall k :: 0 <= k < |s| ==>
          updated[order[k]] == if Settled(lead, k, p) then Grouped(rule, s, lead, k) else s[k].f)
    && groups == GroupRows(rule, s, lead, p)
  }

  /** The group of leader `p`, from the members' own indices. */
  method BuildGroup(items: seq<Item>, order: seq<nat>, rule: Rule, ghost s: seq<Item>, ghost lead: seq<nat>, p: nat,
                    members: seq<nat>)
    returns (group: Group)
    requires Arranges(order, items, s) && |lead| == |s| && p < |s| && LeadsGroup(lead, p)
    requires members == At(order, FoundUpTo(lead, p, |s|))
    ensures group == GroupRow(rule, s, lead, p)
  {
    ghost var positions := FoundUpTo(lead, p, |s|);
    var rep := items[order[p]].f;
    var vectors := seq(|members|, i requires 0 <= i < |members| => items[members[i]].v);
    assert vectors == Pick(s, positions);
    group := Group(GroupId(rule, rep), rep.id, |members|, MaxSimilarity(vectors, rule.sqrt));
  }

  /** One position across the assignment of group `p`. */
  lemma SettledStep(rule: Rule, items: seq<Item>, order: seq<nat>, s: seq<Item>, lead: seq<nat>, p: nat, k: nat,
                    members: seq<nat>, taken: bool, updated: Finding)
    requires Arranges(order, items, s) && |lead| == |s| && p < |s| && LeadsGroup(lead, p) && k < |s| && lead[k] < |s|
    requires members == At(order, FoundUpTo(lead, p, |s|))
    requires taken == Settled(lead, k, p)
    requires updated == if Settled(lead, k, p) then Grouped(rule, s, lead, k) else s[k].f
    ensures (taken || order[k] in members) == Settled(lead, k, p + 1)
    ensures (if order[k] in members then updated.(duplicateGroup := Some(GroupId(rule, s[p].f))) else updated)
      == if Settled(lead, k, p + 1) then Grouped(rule, s, lead, k) else s[k].f
  {
    ListedIff(items, order, s, lead, p, k);
  }

  lemma TakenStep(rule: Rule, items: seq<Item>, order: seq<nat>, s: seq<Item>, lead: seq<nat>, p: nat,
                  members: seq<nat>,
                  taken: seq<bool>, taken': seq<bool>, updated: seq<Finding>, updated': seq<Finding>, k: nat)
    requires Arranges(order, items, s) && |lead| == |s| && p < |s| && LeadsGroup(lead, p) && k < |s| && lead[k] < |s|
    requires members == At(order, FoundUpTo(lead, p, |s|))
    requires |taken'| == |taken| == |s| && |updated'| == |updated| == |s|
    requires taken[order[k]] == Settled(lead, k, p)
    requires updated[order[k]] == if Settled(lead, k, p) then Grouped(rule, s, lead, k) else s[k].f
    requires forall j :: 0 <= j < |taken| ==> taken'[j] == (taken[j] || j in members)
    requires forall j :: 0 <= j < |updated| ==>
      (updated'[j] == if j in members then updated[j].(duplicateGroup := Some(GroupId(rule, s[p].f))) else updated[j])
    ensures taken'[order[k]] == Settled(lead, k, p + 1)
    ensures updated'[order[k]] == if Settled(lead, k, p + 1) then Grouped(rule, s, lead, k) else s[k].f
  {
    SettledStep(rule, items, order, s, lead, p, k, members, taken[order[k]], updated[order[k]]);
  }

  /** Marks the members of group `p` as assigned and fills in their group. */
  method AssignGroup(items: seq<Item>, order: seq<nat>, rule: Rule, ghost s: seq<Item>, ghost lead: seq<nat>, p: nat,
                     members: seq<nat>, id: string, taken: seq<bool>, updated: seq<Finding>, ghost groups: seq<Group>)
    returns (taken': seq<bool>, updated': seq<Finding>)
    requires Progress(rule, items, order, s, lead, p, taken, updated, groups) && p < |s| && LeadsGroup(lead, p)
    requires members == At(order, FoundUpTo(lead, p, |s|)) && id == GroupId(rule, s[p].f)
    ensures |taken'| == |updated'| == |s|
    ensures forall k :: 0 <= k < |s| ==> taken'[order[k]] == Settled(lead, k, p + 1)
    ensures forall k :: 0 <= k < |s| ==>
      (updated'[order[k]] == if Settled(lead, k, p + 1) then Grouped(rule, s, lead, k) else s[k].f)
  {
    ghost var positions := FoundUpTo(lead, p, |s|);
    forall t | 0 <= t < |members| ensures members[t] < |items| {
      assert members[t] == order[positions[t]];
    }
    taken' := MarkAssigned(taken, members);
    updated' := FillGroup(updated, members, id);
    forall k | 0 <= k < |s|
      ensures taken'[order[k]] == Settled(lead, k, p + 1)
      ensures updated'[order[k]] == if Settled(lead, k, p + 1) then Grouped(rule, s, lead, k) else s[k].f
    {
      TakenStep(rule, items, order, s, lead, p, members, taken, taken', updated, updated', k);
    }
  }

  /** The outer loop body for a leader of at least two. */
  method AddGroup(items: seq<Item>, order: seq<nat>, rule: Rule, ghost s: seq<Item>, ghost lead: seq<nat>, p: nat,
                  members: seq<nat>, taken: seq<bool>, updated: seq<Finding>, groups: seq<Group>)
    returns (taken': seq<bool>, updated': seq<Finding>, groups': seq<Group>)
    requires Progress(rule, items, order, s, lead, p, taken, updated, groups) && p < |s| && LeadsGroup(lead, p)
    requires members == At(order, FoundUpTo(lead, p, |s|))
    ensures Progress(rule, items, order, s, lead, p + 1, taken', updated', groups')
  {
    var group := BuildGroup(items, order, rule, s, lead, p, members);
    groups' := groups + [group];
    taken', updated' := AssignGroup(items, order, rule, s, lead, p, members, group.id, taken, updated, groups);
  }

  /** The outer loop body. */
  method Visit(items: seq<Item>, order: seq<nat>, rule: Rule, close: (Item, Item) -> bool, ghost s: seq<Item>,
               ghost lead: seq<nat>, p: nat, taken: seq<bool>, updated: seq<Finding>, groups: seq<Group>)
    returns (taken': seq<bool>, updated': seq<Finding>, groups': seq<Group>)
    requires Progress(rule, items, order, s, lead, p, taken, updated, groups) && p < |s|
    requires Symmetric(close) && Greedy(close, s, lead)
    ensures Progress(rule, items, order, s, lead, p + 1, taken', updated', groups')
  {
    taken', updated', groups' := taken, updated, groups;
    if taken[order[p]] {
      NoneLed(close, s, lead, p, |s|);
      NotLeading(rule, s, lead, p);
      return;
    }
    ReachedLeads(close, s, lead, p);
    var members := CollectMembers(items, order, taken, p, close, s, lead);
    if |members| < 2 {
      NotLeading(rule, s, lead, p);
      return;
    }
    taken', updated', groups' := AddGroup(items, order, rule, s, lead, p, members, taken, updated, groups);
  }

  /** What `apply_groups` promises: the greedy leaders of the sorted items decide every group. */
  ghost predicate GroupedBy(rule: Rule, items: seq<Item>, order: seq<nat>, updated: seq<Finding>, groups: seq<Group>) {
    var s := Sort(ItemLe, items);
    var lead := Leaders(Close(rule), s);
    && Arranges(order, items, s)
    && groups == GroupRows(rule, s, lead, |s|)
    && |updated| == |items|
    && forall k :: 0 <= k < |s| ==> updated[order[k]] == Grouped(rule, s, lead, k)
  }

  lemma ProgressStarts(rule: Rule, items: seq<Item>, order: seq<nat>, s: seq<Item>, lead: seq<nat>, taken: seq<bool>,
                       updated: seq<Finding>)
    requires Arranges(order, items, s) && |lead| == |s| && |taken| == |items| == |updated|
    requires forall k :: 0 <= k < |lead| ==> lead[k] < |s|
    requires forall i :: 0 <= i < |items| ==> !taken[i] && updated[i] == items[i].f
    ensures Progress(rule, items, order, s, lead, 0, taken, updated, [])
  {
  }

  lemma ProgressEnds(rule: Rule, items: seq<Item>, order: seq<nat>, taken: seq<bool>, updated: seq<Finding>,
                     groups: seq<Group>)
    requires
      var s := Sort(ItemLe, items);
      Progress(rule, items, order, s, Leaders(Close(rule), s), |s|, taken, updated, groups)
    ensures GroupedBy(rule, items, order, updated, groups)
  {
  }

  /** The outer loop. */
  method VisitAll(items: seq<Item>, order: seq<nat>, rule: Rule, close: (Item, Item) -> bool, ghost s: seq<Item>,
                  ghost lead: seq<nat>, findings: seq<Finding>)
    returns (updated: seq<Finding>, groups: seq<Group>, taken: seq<bool>)
    requires Arranges(order, items, s) && |lead| == |s| && (forall k :: 0 <= k < |lead| ==> lead[k] < |s|)
    requires |findings| == |items| && forall i :: 0 <= i < |items| ==> findings[i] == items[i].f
    requires Symmetric(close) && Greedy(close, s, lead)
    ensures Progress(rule, items, order, s, lead, |s|, taken, updated, groups)
  {
    updated, groups, taken := findings, [], seq(|items|, i => false);
    ProgressStarts(rule, items, order, s, lead, taken, updated);
    for p := 0 to |order|
      invariant Progress(rule, items, order, s, lead, p, taken, updated, groups)
    {
      taken, updated, groups := Visit(items, order, rule, close, s, lead, p, taken, updated, groups);
    }
  }

  lemma LeadersInRange(close: (Item, Item) -> bool, s: seq<Item>)
    ensures forall k :: 0 <= k < |s| ==> Leaders(close, s)[k] < |s|
  {
  }

  method ApplyGroups(findings: seq<Finding>, vectors: seq<seq<real>>, rule: Rule)
    returns (result: Result<(seq<Finding>, seq<Group>), string>, ghost order: seq<nat>)
    ensures result.Err? <==> |findings| != |vectors|
    ensures |findings| == |vectors| ==>
      GroupedBy(rule, Zip(findings, vectors), order, result.value.0, result.value.1)
  {
    if |findings| != |vectors| {
      return Err("findings and vectors must be the same length"), [];
    }
    if |findings| == 0 {
      return Ok((findings, [])), [];
    }
    var items := Zip(findings, vectors);
    var sorted := SortIndices(items);
    ghost var s := Sort(ItemLe, items);
    LeadersInRange(Close(rule), s);
    var updated, groups, taken := VisitAll(items, sorted, rule, Close(rule), s, Leaders(Close(rule), s), findings);
    ProgressEnds(rule, items, sorted, taken, updated, groups);
    return Ok((updated, groups)), sorted;
  }
}
