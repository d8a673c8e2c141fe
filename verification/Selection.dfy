/** `scoring.py` and `selection.py`: ranking, safety gates and the review budget. */
module Selection {
  import opened Common
  import opened Ordering

  /** The eight normalised features, in `FEATURE_NAMES` order. */
  datatype Features = Features(
    severity: real,
    confidence: real,
    agreement: real,
    actionability: real,
    repositoryRelevance: real,
    contextRelevance: real,
    redundancy: real,
    rejection: real)

  datatype Gate = Critical | Protected | LowValue

  datatype Decision = Decision(
    findingId: string,
    groupId: Option<string>,
    features: Features,
    utility: real,
    budgetCap: Option<int>,
    gate: Option<Gate>,
    selected: Option<bool>)

  datatype Thresholds = Thresholds(highConfidence: real, lowConfidence: real, highRedundancy: real)

  datatype SelectionResult = SelectionResult(
    decisions: seq<Decision>,
    cap: int,
    selectedCount: int,
    mandatoryCount: int,
    protectedCount: int,
    suppressedByGate: int,
    truncatedByBudget: int)

  // ---------------------------------------------------------------- ranking

  /** Utility descending; the finding id breaks ties. */
  predicate RankLe(a: Decision, b: Decision) {
    a.utility > b.utility || (a.utility == b.utility && StringLe(a.findingId, b.findingId))
  }

  function Rank(decisions: seq<Decision>): seq<Decision> {
    Sort(RankLe, decisions)
  }

  ghost predicate DistinctFindings(decisions: seq<Decision>) {
    forall i, j :: 0 <= i < j < |decisions| ==> decisions[i].findingId != decisions[j].findingId
  }

  lemma DecisionsOrdered(decisions: seq<Decision>)
    ensures PreordersAll(RankLe, decisions)
    ensures DistinctFindings(decisions) ==> SeparatesAll(RankLe, decisions)
  {
    forall x, y ensures RankLe(x, y) || RankLe(y, x) {
      StringLeTotal(x.findingId, y.findingId);
    }
    forall x, y, z | RankLe(x, y) && RankLe(y, z) ensures RankLe(x, z) {
      if StringLe(x.findingId, y.findingId) && StringLe(y.findingId, z.findingId) {
        StringLeTransitive(x.findingId, y.findingId, z.findingId);
      }
    }
    if DistinctFindings(decisions) {
      forall x, y | x in decisions && y in decisions && RankLe(x, y) && RankLe(y, x) ensures x == y {
        StringLeTotal(x.findingId, y.findingId);
      }
    }
  }

  lemma RankSpec(decisions: seq<Decision>)
    ensures Sorted(RankLe, Rank(decisions)) && multiset(Rank(decisions)) == multiset(decisions)
    ensures |Rank(decisions)| == |decisions|
  {
    DecisionsOrdered(decisions);
    SortSpec(RankLe, decisions);
    SortPermutes(RankLe, decisions);
  }

  /** The greatest utility comes first, and equal ones by finding id. */
  lemma RankByUtility(decisions: seq<Decision>, i: nat, j: nat)
    requires i < j < |Rank(decisions)|
    ensures
      var (d, e) := (Rank(decisions)[i], Rank(decisions)[j]);
      d.utility >= e.utility && (d.utility == e.utility ==> StringLe(d.findingId, e.findingId))
  {
    RankSpec(decisions);
    assert RankLe(Rank(decisions)[i], Rank(decisions)[j]);
  }

  // ---------------------------------------------------------------- gates and budget

  function GateReason(f: Features, t: Thresholds): Option<Gate> {
    if f.severity >= 1.0 then Some(Critical)
    else if f.severity >= 0.8 && f.confidence >= t.highConfidence then Some(Protected)
    else if f.severity <= 0.2 && f.confidence <= t.lowConfidence && f.redundancy >= t.highRedundancy then Some(LowValue)
    else None
  }

  /**
    What the gates do to a decision: a critical one, and a severe and confident one, is selected; a minor, unsure and
    redundant one is not; no other has a gate.
   */
  ghost predicate GateHolds(d: Decision, cap: int, t: Thresholds) {
    var f := d.features;
    && d.budgetCap == Some(cap) && d.selected.Some?
    && if f.severity >= 1.0 then d.gate == Some(Critical) && d.selected == Some(true)
       else if f.severity >= 0.8 && f.confidence >= t.highConfidence then
         d.gate == Some(Protected) && d.selected == Some(true)
       else if f.severity <= 0.2 && f.confidence <= t.lowConfidence && f.redundancy >= t.highRedundancy then
         d.gate == Some(LowValue) && d.selected == Some(false)
       else d.gate == None
  }

  function GateOf(d: Decision, t: Thresholds): Option<Gate> {
    GateReason(d.features, t)
  }

  function Annotate(d: Decision, cap: int, gate: Option<Gate>, selected: bool): Decision {
    d.(budgetCap := Some(cap), gate := gate, selected := Some(selected))
  }

  /** The decisions with this gate outcome, in order. */
  function WithGate(ranked: seq<Decision>, t: Thresholds, gate: Option<Gate>): seq<Decision> {
    if ranked == [] then []
    else
      var n := |ranked| - 1;
      WithGate(ranked[..n], t, gate) + (if GateOf(ranked[n], t) == gate then [ranked[n]] else [])
  }

  /** The gated decisions, annotated, in order. */
  function Gated(ranked: seq<Decision>, cap: int, t: Thresholds): seq<Decision> {
    if ranked == [] then []
    else
      var n := |ranked| - 1;
      var (d, gate) := (ranked[n], GateOf(ranked[n], t));
      Gated(ranked[..n], cap, t) + (if gate.Some? then [Annotate(d, cap, gate, gate != Some(LowValue))] else [])
  }

  /** The ungated decisions: the first `slots` are selected. */
  function Filled(pending: seq<Decision>, cap: int, slots: int): (r: seq<Decision>)
    ensures |r| == |pending|
    ensures forall i :: 0 <= i < |r| ==> r[i] == Annotate(pending[i], cap, None, i < slots)
  {
    seq(|pending|, i requires 0 <= i < |pending| => Annotate(pending[i], cap, None, i < slots))
  }

  function Max(x: int, y: int): int {
    if x < y then y else x
  }

  function Min(x: int, y: int): int {
    if x < y then x else y
  }

  predicate ValidArguments(cap: int, t: Thresholds) {
    && 0 <= cap
    && 0.0 <= t.highConfidence <= 1.0 && 0.0 <= t.lowConfidence <= 1.0 && 0.0 <= t.highRedundancy <= 1.0
  }

  /** The outcome of `select_decisions` on valid arguments. */
  function Select(decisions: seq<Decision>, cap: int, t: Thresholds): SelectionResult {
    var ranked := Rank(decisions);
    var m := |WithGate(ranked, t, Some(Critical))|;
    var p := |WithGate(ranked, t, Some(Protected))|;
    var pending := WithGate(ranked, t, None);
    var slots := Max(cap - (m + p), 0);
    SelectionResult(Gated(ranked, cap, t) + Filled(pending, cap, slots), cap,
                    m + p + Min(|pending|, slots), m, p,
                    |WithGate(ranked, t, Some(LowValue))|, |pending| - Min(|pending|, slots))
  }

  function CountGate(decisions: seq<Decision>, gate: Gate): nat {
    if decisions == [] then 0
    else
      var (front, last) := (decisions[..|decisions| - 1], decisions[|decisions| - 1]);
      CountGate(front, gate) + (if last.gate == Some(gate) then 1 else 0)
  }

  lemma {:induction false} CountGateConcat(a: seq<Decision>, b: seq<Decision>, gate: Gate)
    ensures CountGate(a + b, gate) == CountGate(a, gate) + CountGate(b, gate)
  {
    if b == [] {
      assert a + b == a;
    } else {
      assert (a + b)[..|a + b| - 1] == a + b[..|b| - 1];
      CountGateConcat(a, b[..|b| - 1], gate);
    }
  }

  lemma {:induction false} CountGateUngated(a: seq<Decision>, gate: Gate)
    requires forall i :: 0 <= i < |a| ==> a[i].gate == None
    ensures CountGate(a, gate) == 0
  {
    if a != [] {
      CountGateUngated(a[..|a| - 1], gate);
    }
  }

  lemma {:induction false} CountGateGated(ranked: seq<Decision>, cap: int, t: Thresholds, gate: Gate)
    ensures CountGate(Gated(ranked, cap, t), gate) == |WithGate(ranked, t, Some(gate))|
  {
    if ranked != [] {
      var n := |ranked| - 1;
      CountGateGated(ranked[..n], cap, t, gate);
      var reason := GateOf(ranked[n], t);
      var last := if reason.Some? then [Annotate(ranked[n], cap, reason, reason != Some(LowValue))] else [];
      assert Gated(ranked, cap, t) == Gated(ranked[..n], cap, t) + last;
      assert CountGate(last, gate) == if reason == Some(gate) then 1 else 0 by {
        assert last != [] ==> last[..0] == [];
      }
      CountGateConcat(Gated(ranked[..n], cap, t), last, gate);
    }
  }

  lemma {:induction false} GatesDecideGated(ranked: seq<Decision>, cap: int, t: Thresholds)
    ensures forall i :: 0 <= i < |Gated(ranked, cap, t)| ==>
      GateHolds(Gated(ranked, cap, t)[i], cap, t) && Gated(ranked, cap, t)[i].gate.Some?
  {
    if ranked != [] {
      GatesDecideGated(ranked[..|ranked| - 1], cap, t);
    }
  }

  lemma {:induction false} PendingHaveNoGate(ranked: seq<Decision>, t: Thresholds)
    ensures forall i :: 0 <= i < |WithGate(ranked, t, None)| ==> GateOf(WithGate(ranked, t, None)[i], t) == None
  {
    if ranked != [] {
      PendingHaveNoGate(ranked[..|ranked| - 1], t);
    }
  }

  /** Every decision that comes out is gated as it should be, for every cap and thresholds. */
  lemma GatesDecide(decisions: seq<Decision>, cap: int, t: Thresholds)
    ensures forall i :: 0 <= i < |Select(decisions, cap, t).decisions| ==>
      GateHolds(Select(decisions, cap, t).decisions[i], cap, t)
  {
    var (ranked, r) := (Rank(decisions), Select(decisions, cap, t).decisions);
    var (gated, pending) := (Gated(ranked, cap, t), WithGate(ranked, t, None));
    GatesDecideGated(ranked, cap, t);
    PendingHaveNoGate(ranked, t);
    forall i | 0 <= i < |r| ensures GateHolds(r[i], cap, t) {
      if i < |gated| {
        assert r[i] == gated[i];
      } else {
        assert GateOf(pending[i - |gated|], t) == None;
      }
    }
  }

  /** The first loop: gated decisions are settled, the others wait for the budget. */
  method ApplyGates(ranked: seq<Decision>, cap: int, t: Thresholds)
    returns (annotated: seq<Decision>, pending: seq<Decision>, mandatory: int, guarded: int)
    ensures annotated == Gated(ranked, cap, t) && pending == WithGate(ranked, t, None)
    ensures mandatory == |WithGate(ranked, t, Some(Critical))| && guarded == |WithGate(ranked, t, Some(Protected))|
    ensures forall i :: 0 <= i < |annotated| ==> GateHolds(annotated[i], cap, t) && annotated[i].gate.Some?
  {
    GatesDecideGated(ranked, cap, t);
    annotated, pending, mandatory, guarded := [], [], 0, 0;
    for i := 0 to |ranked|
      invariant annotated == Gated(ranked[..i], cap, t) && pending == WithGate(ranked[..i], t, None)
      invariant mandatory == |WithGate(ranked[..i], t, Some(Critical))|
      invariant guarded == |WithGate(ranked[..i], t, Some(Protected))|
    {
      assert ranked[..i + 1][..i] == ranked[..i];
      var reason := GateOf(ranked[i], t);
      if reason == Some(Critical) {
        annotated := annotated + [Annotate(ranked[i], cap, reason, true)];
        mandatory := mandatory + 1;
      } else if reason == Some(Protected) {
        annotated := annotated + [Annotate(ranked[i], cap, reason, true)];
        guarded := guarded + 1;
      } else if reason == Some(LowValue) {
        annotated := annotated + [Annotate(ranked[i], cap, reason, false)];
      } else {
        pending := pending + [ranked[i]];
      }
    }
    assert ranked[..|ranked|] == ranked;
  }

  /** The second loop: the remaining slots go to the waiting decisions in rank order. */
  method FillBudget(pending: seq<Decision>, cap: int, slots: nat)
    returns (filled: seq<Decision>, selectedCount: int, truncated: int)
    ensures filled == Filled(pending, cap, slots)
    ensures selectedCount == Min(|pending|, slots) && truncated == |pending| - Min(|pending|, slots)
  {
    var remaining := slots;
    filled, selectedCount, truncated := [], 0, 0;
    for i := 0 to |pending|
      invariant filled == Filled(pending, cap, slots)[..i]
      invariant remaining == Max(slots - i, 0)
      invariant selectedCount == Min(i, slots) && truncated == i - Min(i, slots)
    {
      if remaining > 0 {
        filled := filled + [Annotate(pending[i], cap, None, true)];
        selectedCount := selectedCount + 1;
        remaining := remaining - 1;
      } else {
        truncated := truncated + 1;
        filled := filled + [Annotate(pending[i], cap, None, false)];
      }
    }
  }

  method SelectDecisions(decisions: seq<Decision>, cap: int, t: Thresholds) returns (result: Result<SelectionResult,
                                                                                     string>)
    ensures result.Ok? <==> ValidArguments(cap, t)
    ensures result.Ok? ==> result.value == Select(decisions, cap, t)
    ensures result.Ok? ==> forall i :: 0 <= i < |result.value.decisions| ==>
      GateHolds(result.value.decisions[i], cap, t)
  {
    GatesDecide(decisions, cap, t);
    if cap < 0 {
      return Err("budget cap must be non-negative");
    }
    if !(0.0 <= t.highConfidence <= 1.0 && 0.0 <= t.lowConfidence <= 1.0 && 0.0 <= t.highRedundancy <= 1.0) {
      return Err("threshold must be within [0, 1]");
    }
    var ranked := Rank(decisions);
    var gated, pending, mandatory, guarded := ApplyGates(ranked, cap, t);
    var slots := Max(cap - (mandatory + guarded), 0);
    var filled, chosen, truncated := FillBudget(pending, cap, slots);
    CountGateConcat(gated, filled, LowValue);
    CountGateUngated(filled, LowValue);
    CountGateGated(ranked, cap, t, LowValue);
    return Ok(SelectionResult(gated + filled, cap, mandatory + guarded + chosen, mandatory, guarded,
                              CountGate(gated + filled, LowValue), truncated));
  }
}
