/** Selection is canonical, accounts for every decision, and is optimal among the ungated ones. */
module SelectionProperties {
  import opened Common
  import opened Ordering
  import opened Selection

  // ---------------------------------------------------------------- canonical

  /** The outcome does not depend on the order of the input. */
  lemma InputOrderIsIrrelevant(decisions: seq<Decision>, permuted: seq<Decision>, cap: int, t: Thresholds)
    requires multiset(decisions) == multiset(permuted) && DistinctFindings(decisions)
    ensures Select(decisions, cap, t) == Select(permuted, cap, t)
  {
    DecisionsOrdered(decisions);
    SortCanonical(RankLe, decisions, permuted);
  }

  // ---------------------------------------------------------------- accounting

  function SelectedOnes(decisions: seq<Decision>): seq<Decision> {
    if decisions == [] then []
    else
      var n := |decisions| - 1;
      SelectedOnes(decisions[..n]) + (if decisions[n].selected == Some(true) then [decisions[n]] else [])
  }

  lemma {:induction false} SelectedConcat(a: seq<Decision>, b: seq<Decision>)
    ensures SelectedOnes(a + b) == SelectedOnes(a) + SelectedOnes(b)
  {
    if b == [] {
      assert a + b == a;
    } else {
      assert (a + b)[..|a + b| - 1] == a + b[..|b| - 1];
      SelectedConcat(a, b[..|b| - 1]);
    }
  }

  lemma {:induction false} GatesSplit(ranked: seq<Decision>, cap: int, t: Thresholds)
    ensures |WithGate(ranked, t, Some(Critical))| + |WithGate(ranked, t, Some(Protected))|
          + |WithGate(ranked, t, Some(LowValue))| + |WithGate(ranked, t, None)| == |ranked|
    ensures |Gated(ranked, cap, t)| + |WithGate(ranked, t, None)| == |ranked|
    ensures |SelectedOnes(Gated(ranked, cap, t))|
         == |WithGate(ranked, t, Some(Critical))| + |WithGate(ranked, t, Some(Protected))|
  {
    if ranked != [] {
      var n := |ranked| - 1;
      GatesSplit(ranked[..n], cap, t);
      var gate := GateOf(ranked[n], t);
      var last := if gate.Some? then [Annotate(ranked[n], cap, gate, gate != Some(LowValue))] else [];
      assert Gated(ranked, cap, t) == Gated(ranked[..n], cap, t) + last;
      SelectedConcat(Gated(ranked[..n], cap, t), last);
      assert |SelectedOnes(last)| == if gate == Some(Critical) || gate == Some(Protected) then 1 else 0 by {
        assert last != [] ==> last[..0] == [];
      }
    }
  }

  lemma {:induction false} FilledSelects(pending: seq<Decision>, cap: int, slots: nat, n: nat)
    requires n <= |pending|
    ensures |SelectedOnes(Filled(pending, cap, slots)[..n])| == Min(n, slots)
  {
    if n > 0 {
      FilledSelects(pending, cap, slots, n - 1);
      var filled := Filled(pending, cap, slots);
      assert filled[..n][..n - 1] == filled[..n - 1];
    }
  }

  /**
    `selected_count` counts the selected decisions: the gated-in ones plus as many ungated ones as
    the cap leaves room for. Selected, gate-suppressed and truncated decisions add up to the input.
   */
  lemma CountsAddUp(decisions: seq<Decision>, cap: int, t: Thresholds)
    ensures var r := Select(decisions, cap, t);
            var ungated := |WithGate(Rank(decisions), t, None)|;
            && r.selectedCount == |SelectedOnes(r.decisions)|
            && r.selectedCount == r.mandatoryCount + r.protectedCount
                 + Min(ungated, Max(cap - r.mandatoryCount - r.protectedCount, 0))
            && r.selectedCount + r.suppressedByGate + r.truncatedByBudget == |decisions| == |r.decisions|
  {
    var ranked := Rank(decisions);
    RankSpec(decisions);
    GatesSplit(ranked, cap, t);
    var pending := WithGate(ranked, t, None);
    var slots := Max(cap - (|WithGate(ranked, t, Some(Critical))| + |WithGate(ranked, t, Some(Protected))|), 0);
    FilledSelects(pending, cap, slots, |pending|);
    var filled := Filled(pending, cap, slots);
    assert filled[..|pending|] == filled;
    SelectedConcat(Gated(ranked, cap, t), filled);
  }

  /** A decision without its annotations. */
  function Bare(d: Decision): Decision {
    d.(budgetCap := None, gate := None, selected := None)
  }

  function BareAll(decisions: seq<Decision>): (r: seq<Decision>)
    ensures |r| == |decisions| && forall i :: 0 <= i < |r| ==> r[i] == Bare(decisions[i])
  {
    seq(|decisions|, i requires 0 <= i < |decisions| => Bare(decisions[i]))
  }

  lemma {:induction false} GatesKeepAll(ranked: seq<Decision>, cap: int, t: Thresholds)
    ensures multiset(BareAll(Gated(ranked, cap, t))) + multiset(BareAll(WithGate(ranked, t, None)))
         == multiset(BareAll(ranked))
  {
    if ranked != [] {
      var n := |ranked| - 1;
      GatesKeepAll(ranked[..n], cap, t);
      assert BareAll(ranked) == BareAll(ranked[..n]) + [Bare(ranked[n])];
      var gate := GateOf(ranked[n], t);
      if gate.Some? {
        var last := Annotate(ranked[n], cap, gate, gate != Some(LowValue));
        assert BareAll(Gated(ranked, cap, t)) == BareAll(Gated(ranked[..n], cap, t)) + [Bare(last)];
        assert WithGate(ranked, t, None) == WithGate(ranked[..n], t, None);
      } else {
        assert BareAll(WithGate(ranked, t, None)) == BareAll(WithGate(ranked[..n], t, None)) + [Bare(ranked[n])];
        assert Gated(ranked, cap, t) == Gated(ranked[..n], cap, t);
      }
    }
  }

  lemma {:induction false} BareInsert(x: Decision, s: seq<Decision>)
    ensures multiset(BareAll(Insert(RankLe, x, s))) == multiset{Bare(x)} + multiset(BareAll(s))
  {
    if s == [] || RankLe(x, s[0]) {
      assert BareAll([x] + s) == [Bare(x)] + BareAll(s);
    } else {
      BareInsert(x, s[1..]);
      assert BareAll([s[0]] + Insert(RankLe, x, s[1..])) == [Bare(s[0])] + BareAll(Insert(RankLe, x, s[1..]));
      assert BareAll(s) == [Bare(s[0])] + BareAll(s[1..]);
    }
  }

  lemma {:induction false} BareRank(s: seq<Decision>)
    ensures multiset(BareAll(Rank(s))) == multiset(BareAll(s))
  {
    if s != [] {
      BareRank(s[1..]);
      BareInsert(s[0], Rank(s[1..]));
      assert BareAll(s) == [Bare(s[0])] + BareAll(s[1..]);
    }
  }

  /** Every decision comes out exactly once, and only its annotations have changed. */
  lemma EveryDecisionOnce(decisions: seq<Decision>, cap: int, t: Thresholds)
    ensures multiset(BareAll(Select(decisions, cap, t).decisions)) == multiset(BareAll(decisions))
  {
    var ranked := Rank(decisions);
    var r := Select(decisions, cap, t);
    BareRank(decisions);
    GatesKeepAll(ranked, cap, t);
    var gated := Gated(ranked, cap, t);
    var filled := r.decisions[|gated|..];
    assert r.decisions == gated + filled;
    assert BareAll(r.decisions) == BareAll(gated) + BareAll(filled);
    assert BareAll(filled) == BareAll(WithGate(ranked, t, None));
  }

  // ---------------------------------------------------------------- optimal

  function TotalUtility(decisions: seq<Decision>): real {
    if decisions == [] then 0.0 else decisions[0].utility + TotalUtility(decisions[1..])
  }

  lemma {:induction false} TotalRemove(s: seq<Decision>, i: nat)
    requires i < |s|
    ensures TotalUtility(s) == s[i].utility + TotalUtility(s[..i] + s[i + 1..])
    ensures multiset(s[..i] + s[i + 1..]) == multiset(s) - multiset{s[i]}
  {
    assert s == s[..i] + [s[i]] + s[i + 1..];
    if i > 0 {
      TotalRemove(s[1..], i - 1);
      assert (s[..i] + s[i + 1..])[1..] == s[1..][..i - 1] + s[1..][i..];
    } else {
      assert s[..0] + s[1..] == s[1..];
    }
  }

  /** Nothing in a choice from a ranked list beats its first element. */
  lemma FirstIsBest(ranked: seq<Decision>, choice: seq<Decision>, i: nat)
    requires Sorted(RankLe, ranked) && multiset(choice) <= multiset(ranked) && i < |choice|
    ensures ranked != [] && choice[i].utility <= ranked[0].utility
  {
    assert choice[i] in multiset(choice);
    assert choice[i] in multiset(ranked);
    var j :| 0 <= j < |ranked| && ranked[j] == choice[i];
    assert j > 0 ==> RankLe(ranked[0], ranked[j]);
  }

  /** Dropping the first of the list, and it or else any element of the choice, keeps the inclusion. */
  lemma DropBoth(ranked: seq<Decision>, choice: seq<Decision>, rest: seq<Decision>, i: nat)
    requires ranked != [] && multiset(choice) <= multiset(ranked) && i < |choice|
    requires multiset(rest) == multiset(choice) - multiset{choice[i]}
    requires choice[i] == ranked[0] || ranked[0] !in choice
    ensures multiset(rest) <= multiset(ranked[1..])
  {
    assert ranked == [ranked[0]] + ranked[1..];
    if choice[i] != ranked[0] {
      assert ranked[0] !in multiset(choice);
    }
  }

  /** Exchange argument: no choice of `k` elements beats the first `k` of a ranked list. */
  lemma {:induction false} PrefixIsBest(ranked: seq<Decision>, choice: seq<Decision>)
    requires Sorted(RankLe, ranked) && multiset(choice) <= multiset(ranked)
    ensures |choice| <= |ranked|
    ensures TotalUtility(choice) <= TotalUtility(ranked[..|choice|])
  {
    if choice != [] {
      var i := if ranked != [] && ranked[0] in choice then IndexOf(choice, ranked[0]) else 0;
      FirstIsBest(ranked, choice, i);
      var rest := choice[..i] + choice[i + 1..];
      TotalRemove(choice, i);
      DropBoth(ranked, choice, rest, i);
      PrefixIsBest(ranked[1..], rest);
      assert ranked[..|choice|][1..] == ranked[1..][..|rest|];
    }
  }

  function IndexOf(s: seq<Decision>, d: Decision): (i: nat)
    requires d in s
    ensures i < |s| && s[i] == d
  {
    if s[0] == d then 0 else 1 + IndexOf(s[1..], d)
  }

  lemma {:induction false} WithGateSorted(ranked: seq<Decision>, t: Thresholds, gate: Option<Gate>)
    requires Sorted(RankLe, ranked)
    ensures Sorted(RankLe, WithGate(ranked, t, gate))
    ensures forall d :: d in WithGate(ranked, t, gate) <==> d in ranked && GateOf(d, t) == gate
  {
    if ranked != [] {
      var n := |ranked| - 1;
      WithGateSorted(ranked[..n], t, gate);
      var front := WithGate(ranked[..n], t, gate);
      forall i | 0 <= i < |front| ensures RankLe(front[i], ranked[n]) {
        assert front[i] in front;
      }
      assert ranked == ranked[..n] + [ranked[n]];
    }
  }

  /**
    The selected ungated decisions are a prefix of the ranked ungated ones, and no other choice of
    as many ungated decisions has a greater total utility.
   */
  lemma UngatedChoiceIsBest(decisions: seq<Decision>, cap: int, t: Thresholds, choice: seq<Decision>)
    requires multiset(choice) <= multiset(WithGate(Rank(decisions), t, None))
    requires var r := Select(decisions, cap, t);
             |choice| == r.selectedCount - r.mandatoryCount - r.protectedCount
    ensures var (gated, pending) := (Gated(Rank(decisions), cap, t), WithGate(Rank(decisions), t, None));
            && |choice| <= |pending|
            && Select(decisions, cap, t).decisions == gated + Filled(pending, cap, |choice|)
            && TotalUtility(choice) <= TotalUtility(pending[..|choice|])
  {
    RankSpec(decisions);
    WithGateSorted(Rank(decisions), t, None);
    PrefixIsBest(WithGate(Rank(decisions), t, None), choice);
    SlotsUsed(decisions, cap, t);
  }

  /** No ungated decision is passed over for a less useful one, nor for an equally useful one of a later id. */
  lemma PassedOverIsNoBetter(decisions: seq<Decision>, cap: int, t: Thresholds, i: nat, j: nat)
    requires
      var r := Select(decisions, cap, t).decisions;
      i < |r| && j < |r| && r[i].gate == None && r[j].gate == None
      && r[i].selected == Some(true) && r[j].selected == Some(false)
    ensures
      var (d, e) := (Select(decisions, cap, t).decisions[i], Select(decisions, cap, t).decisions[j]);
      d.utility >= e.utility && (d.utility == e.utility ==> StringLe(d.findingId, e.findingId))
  {
    var (ranked, r) := (Rank(decisions), Select(decisions, cap, t).decisions);
    var (gated, pending) := (Gated(ranked, cap, t), WithGate(ranked, t, None));
    GatedGates(ranked, cap, t);
    RankSpec(decisions);
    WithGateSorted(ranked, t, None);
    assert forall k :: 0 <= k < |gated| ==> r[k] == gated[k];
    assert |gated| <= i < j;
    assert RankLe(pending[i - |gated|], pending[j - |gated|]);
  }

  /** The ungated selections fill the slots that are left, as far as there are candidates. */
  lemma SlotsUsed(decisions: seq<Decision>, cap: int, t: Thresholds)
    ensures var (r, gated, pending) := (Select(decisions, cap, t), Gated(Rank(decisions), cap, t),
                                        WithGate(Rank(decisions), t, None));
            var n := r.selectedCount - r.mandatoryCount - r.protectedCount;
            0 <= n <= |pending| ==> r.decisions == gated + Filled(pending, cap, n)
  {
    var r := Select(decisions, cap, t);
    var pending := WithGate(Rank(decisions), t, None);
    var slots := Max(cap - (r.mandatoryCount + r.protectedCount), 0);
    assert Filled(pending, cap, slots) == Filled(pending, cap, Min(|pending|, slots));
  }

  // ---------------------------------------------------------------- the cap

  /** Raising the cap never deselects anything: position by position, selected stays selected. */
  lemma RaisingTheCapKeepsSelections(decisions: seq<Decision>, cap: int, cap': int, t: Thresholds, i: nat)
    requires cap <= cap' && i < |decisions|
    ensures |Select(decisions, cap, t).decisions| == |Select(decisions, cap', t).decisions| == |decisions|
    ensures var (d, d') := (Select(decisions, cap, t).decisions[i], Select(decisions, cap', t).decisions[i]);
            Bare(d) == Bare(d') && (d.selected == Some(true) ==> d'.selected == Some(true))
  {
    var ranked := Rank(decisions);
    RankSpec(decisions);
    GatesSplit(ranked, cap, t);
    GatesSplit(ranked, cap', t);
    GatedSameShape(ranked, cap, cap', t);
    FilledKeeps(WithGate(ranked, t, None), cap, cap', Slots(decisions, cap, t), Slots(decisions, cap', t));
  }

  /** The slots the gates leave. */
  function Slots(decisions: seq<Decision>, cap: int, t: Thresholds): int {
    var r := Select(decisions, cap, t);
    Max(cap - (r.mandatoryCount + r.protectedCount), 0)
  }

  lemma FilledKeeps(pending: seq<Decision>, cap: int, cap': int, slots: int, slots': int)
    requires slots <= slots'
    ensures forall j :: 0 <= j < |pending| ==>
      var (d, d') := (Filled(pending, cap, slots)[j], Filled(pending, cap', slots')[j]);
      Bare(d) == Bare(d') && (d.selected == Some(true) ==> d'.selected == Some(true))
  {}

  lemma {:induction false} GatedSameShape(ranked: seq<Decision>, cap: int, cap': int, t: Thresholds)
    ensures |Gated(ranked, cap, t)| == |Gated(ranked, cap', t)|
    ensures forall i :: 0 <= i < |Gated(ranked, cap, t)| ==>
      Gated(ranked, cap', t)[i] == Gated(ranked, cap, t)[i].(budgetCap := Some(cap'))
  {
    if ranked != [] {
      GatedSameShape(ranked[..|ranked| - 1], cap, cap', t);
    }
  }

  lemma {:induction false} GatedGates(ranked: seq<Decision>, cap: int, t: Thresholds)
    ensures forall i :: 0 <= i < |Gated(ranked, cap, t)| ==>
      var d := Gated(ranked, cap, t)[i];
      d.gate == GateOf(d, t) && d.gate.Some? && d.selected == Some(d.gate != Some(LowValue))
  {
    if ranked != [] {
      GatedGates(ranked[..|ranked| - 1], cap, t);
    }
  }

  /** What the gates do to each decision that goes in, for every cap and thresholds. */
  lemma GatesDecideInput(decisions: seq<Decision>, cap: int, t: Thresholds, d: Decision)
    requires d in decisions
    ensures
      var f := d.features;
      exists r :: r in Select(decisions, cap, t).decisions
        && r == d.(budgetCap := Some(cap), gate := r.gate, selected := r.selected)
        && (f.severity >= 1.0 ==> r.selected == Some(true))
        && (f.severity >= 0.8 && f.confidence >= t.highConfidence ==> r.selected == Some(true))
        && (f.severity <= 0.2 && f.confidence <= t.lowConfidence && f.redundancy >= t.highRedundancy ==>
              r.selected == Some(false))
        && (f.severity < 1.0 && (f.severity < 0.8 || f.confidence < t.highConfidence)
            && (f.severity > 0.2 || f.confidence > t.lowConfidence || f.redundancy < t.highRedundancy) ==>
              r.gate == None)
  {
    EveryDecisionOnce(decisions, cap, t);
    var r := BareMember(decisions, Select(decisions, cap, t).decisions, d);
    var i :| 0 <= i < |Select(decisions, cap, t).decisions| && Select(decisions, cap, t).decisions[i] == r;
    GatesDecide(decisions, cap, t);
    assert GateHolds(r, cap, t) && Bare(r) == Bare(d);
  }

  lemma BareMember(a: seq<Decision>, b: seq<Decision>, e: Decision) returns (d: Decision)
    requires multiset(BareAll(a)) == multiset(BareAll(b)) && e in a
    ensures d in b && Bare(d) == Bare(e)
  {
    var i :| 0 <= i < |a| && a[i] == e;
    assert BareAll(a)[i] in multiset(BareAll(b));
    var j :| 0 <= j < |b| && BareAll(b)[j] == Bare(e);
    d := b[j];
  }

  /** A review publishes more than its cap only by gate: then every selected decision is gated in. */
  lemma OverBudgetOnlyByGate(decisions: seq<Decision>, cap: int, t: Thresholds)
    requires Select(decisions, cap, t).selectedCount > Max(cap, 0)
    ensures forall d :: d in Select(decisions, cap, t).decisions && d.selected == Some(true) ==>
      GateOf(d, t) == Some(Critical) || GateOf(d, t) == Some(Protected)
  {
    var ranked := Rank(decisions);
    GatedGates(ranked, cap, t);
    var (gated, r) := (Gated(ranked, cap, t), Select(decisions, cap, t));
    forall d | d in r.decisions && d.selected == Some(true)
      ensures GateOf(d, t) == Some(Critical) || GateOf(d, t) == Some(Protected)
    {
      var i :| 0 <= i < |r.decisions| && r.decisions[i] == d;
      if i < |gated| {
        assert gated[i] == d;
      }
    }
  }

  // ---------------------------------------------------------------- the order of the result

  lemma {:induction false} GatedSorted(ranked: seq<Decision>, cap: int, t: Thresholds)
    requires Sorted(RankLe, ranked)
    ensures Sorted(RankLe, Gated(ranked, cap, t))
    ensures forall i :: 0 <= i < |Gated(ranked, cap, t)| ==>
      exists d :: d in ranked && d.utility == Gated(ranked, cap, t)[i].utility
        && d.findingId == Gated(ranked, cap, t)[i].findingId
  {
    if ranked != [] {
      var n := |ranked| - 1;
      GatedSorted(ranked[..n], cap, t);
      var front := Gated(ranked[..n], cap, t);
      assert ranked == ranked[..n] + [ranked[n]];
      forall i | 0 <= i < |front| ensures RankLe(front[i], ranked[n]) {
        var d :| d in ranked[..n] && d.utility == front[i].utility && d.findingId == front[i].findingId;
        assert RankLe(d, ranked[n]);
      }
      assert ranked[n] in ranked;
    }
  }

  /** Utility and id, which decide rank, agree. */
  ghost predicate SameRank(d: Decision, e: Decision) {
    d.utility == e.utility && d.findingId == e.findingId
  }

  ghost predicate HasGated(ranked: seq<Decision>, t: Thresholds, g: Decision) {
    exists d :: d in ranked && GateOf(d, t).Some? && SameRank(d, g)
  }

  /** The gated part of the result holds the decisions with a gate, in terms of their rank. */
  lemma {:induction false} GatedAre(ranked: seq<Decision>, cap: int, t: Thresholds)
    ensures forall g :: g in Gated(ranked, cap, t) ==> HasGated(ranked, t, g)
    ensures forall d :: d in ranked && GateOf(d, t).Some? ==> exists g :: g in Gated(ranked, cap, t) && SameRank(d, g)
  {
    if ranked != [] {
      var (front, d) := (ranked[..|ranked| - 1], ranked[|ranked| - 1]);
      GatedAre(front, cap, t);
      assert ranked == front + [d];
      forall g | g in Gated(front, cap, t) ensures HasGated(ranked, t, g) {
        assert HasGated(front, t, g);
      }
      if GateOf(d, t).Some? {
        var last := Annotate(d, cap, GateOf(d, t), GateOf(d, t) != Some(LowValue));
        assert SameRank(d, last) && HasGated(ranked, t, last);
      }
    }
  }

  /** No decision without a gate outranks one with a gate. */
  ghost predicate GatedOutrank(decisions: seq<Decision>, t: Thresholds) {
    forall g, u :: g in decisions && u in decisions && GateOf(g, t).Some? && GateOf(u, t).None? ==> RankLe(g, u)
  }

  ghost predicate AllBefore(gated: seq<Decision>, pending: seq<Decision>) {
    forall g, u :: g in gated && u in pending ==> RankLe(g, u)
  }

  lemma OutrankingParts(ranked: seq<Decision>, cap: int, t: Thresholds)
    requires Sorted(RankLe, ranked) && GatedOutrank(ranked, t)
    ensures AllBefore(Gated(ranked, cap, t), WithGate(ranked, t, None))
  {
    var (gated, pending) := (Gated(ranked, cap, t), WithGate(ranked, t, None));
    GatedAre(ranked, cap, t);
    WithGateSorted(ranked, t, None);
    forall g, u | g in gated && u in pending ensures RankLe(g, u) {
      assert HasGated(ranked, t, g);
      var d :| d in ranked && GateOf(d, t).Some? && SameRank(d, g);
      assert u in ranked && GateOf(u, t).None?;
      assert RankLe(d, u);
    }
  }

  lemma OrderedPartsOutrank(ranked: seq<Decision>, cap: int, t: Thresholds)
    requires Sorted(RankLe, ranked) && AllBefore(Gated(ranked, cap, t), WithGate(ranked, t, None))
    ensures GatedOutrank(ranked, t)
  {
    var (gated, pending) := (Gated(ranked, cap, t), WithGate(ranked, t, None));
    GatedAre(ranked, cap, t);
    WithGateSorted(ranked, t, None);
    forall d, u | d in ranked && u in ranked && GateOf(d, t).Some? && GateOf(u, t).None? ensures RankLe(d, u) {
      var g :| g in gated && SameRank(d, g);
      assert u in pending;
      assert RankLe(g, u);
    }
  }

  lemma GatedOutrankParts(ranked: seq<Decision>, cap: int, t: Thresholds)
    requires Sorted(RankLe, ranked)
    ensures GatedOutrank(ranked, t) <==> AllBefore(Gated(ranked, cap, t), WithGate(ranked, t, None))
  {
    if GatedOutrank(ranked, t) {
      OutrankingParts(ranked, cap, t);
    }
    if AllBefore(Gated(ranked, cap, t), WithGate(ranked, t, None)) {
      OrderedPartsOutrank(ranked, cap, t);
    }
  }

  lemma SelectionSorted(decisions: seq<Decision>, cap: int, t: Thresholds)
    ensures Sorted(RankLe, Select(decisions, cap, t).decisions)
      <==> AllBefore(Gated(Rank(decisions), cap, t), WithGate(Rank(decisions), t, None))
  {
    var ranked := Rank(decisions);
    var (gated, pending, r) := (Gated(ranked, cap, t), WithGate(ranked, t, None), Select(decisions, cap, t).decisions);
    RankSpec(decisions);
    GatedSorted(ranked, cap, t);
    WithGateSorted(ranked, t, None);
    forall j | 0 <= j < |pending| ensures SameRank(r[|gated| + j], pending[j]) {}
    RankOrderOfParts(gated, pending, r);
  }

  lemma OutrankPermutes(decisions: seq<Decision>, ranked: seq<Decision>, t: Thresholds)
    requires multiset(decisions) == multiset(ranked)
    ensures GatedOutrank(decisions, t) <==> GatedOutrank(ranked, t)
  {
    SameElements(decisions, ranked);
  }

  /** The result is documented to be in rank order; it is exactly when no ungated input outranks a gated one. */
  lemma RankOrderIff(decisions: seq<Decision>, cap: int, t: Thresholds)
    ensures Sorted(RankLe, Select(decisions, cap, t).decisions) <==> GatedOutrank(decisions, t)
  {
    RankSpec(decisions);
    SelectionSorted(decisions, cap, t);
    GatedOutrankParts(Rank(decisions), cap, t);
    OutrankPermutes(decisions, Rank(decisions), t);
  }

  const CALM := Features(0.5, 0.5, 0.0, 0.0, 0.0, 0.0, 0.0, 0.0)

  /** A critical finding of utility 0 comes out before an ungated one of utility 1. */
  lemma RankOrderBroken(cap: int, t: Thresholds)
    ensures
      var critical := Decision("a", None, CALM.(severity := 1.0), 0.0, None, None, None);
      var plain := Decision("b", None, CALM, 1.0, None, None, None);
      !Sorted(RankLe, Select([critical, plain], cap, t).decisions)
  {
    var critical := Decision("a", None, CALM.(severity := 1.0), 0.0, None, None, None);
    var plain := Decision("b", None, CALM, 1.0, None, None, None);
    RankOrderIff([critical, plain], cap, t);
    assert GateOf(critical, t).Some? && GateOf(plain, t).None?;
    assert critical in [critical, plain] && plain in [critical, plain] && !RankLe(critical, plain);
  }

  lemma RankOrderOfParts(gated: seq<Decision>, pending: seq<Decision>, r: seq<Decision>)
    requires Sorted(RankLe, gated) && Sorted(RankLe, pending)
    requires |r| == |gated| + |pending| && r[..|gated|] == gated
    requires forall j :: 0 <= j < |pending| ==> SameRank(r[|gated| + j], pending[j])
    ensures Sorted(RankLe, r) <==> AllBefore(gated, pending)
  {
    var n := |gated|;
    assert forall i :: 0 <= i < n ==> r[i] == gated[i];
    if forall g, u :: g in gated && u in pending ==> RankLe(g, u) {
      forall i, j | 0 <= i < j < |r| ensures RankLe(r[i], r[j]) {
        if j >= n {
          assert SameRank(r[n + (j - n)], pending[j - n]);
          if i >= n {
            assert SameRank(r[n + (i - n)], pending[i - n]);
            assert RankLe(pending[i - n], pending[j - n]);
          } else {
            assert RankLe(gated[i], pending[j - n]);
          }
        }
      }
    }
    if Sorted(RankLe, r) {
      forall g, u | g in gated && u in pending ensures RankLe(g, u) {
        var i :| 0 <= i < n && gated[i] == g;
        var j :| 0 <= j < |pending| && pending[j] == u;
        assert SameRank(r[n + j], pending[j]) && RankLe(r[i], r[n + j]);
      }
    }
  }
}
