/**
  `runner.py`, `training.py`, `scoring.py`: weights synthesised from a fitted logistic model rank
  candidates exactly as the model's probabilities do.
 */
module LearnedRanking {
  import opened Ordering
  import opened Selection
  import opened Decay

  datatype Weights = Weights(
    severity: real, confidence: real, agreement: real, actionability: real,
    repositoryRelevance: real, contextRelevance: real, redundancy: real, rejection: real)

  /** Redundancy and historical rejection are subtracted. */
  function Utility(f: Features, w: Weights): real {
    w.severity * f.severity
    + w.confidence * f.confidence
    + w.agreement * f.agreement
    + w.actionability * f.actionability
    + w.repositoryRelevance * f.repositoryRelevance
    + w.contextRelevance * f.contextRelevance
    - w.redundancy * f.redundancy
    - w.rejection * f.rejection
  }

  /** The features in the order the model was trained on. */
  function Vector(f: Features): (v: seq<real>)
    ensures |v| == 8
  {
    [f.severity, f.confidence, f.agreement, f.actionability, f.repositoryRelevance, f.contextRelevance, f.redundancy,
     f.rejection]
  }

  function WeightedSum(cs: seq<real>, xs: seq<real>): real
    requires |cs| == |xs|
  {
    if cs == [] then 0.0 else WeightedSum(cs[..|cs| - 1], xs[..|xs| - 1]) + cs[|cs| - 1] * xs[|xs| - 1]
  }

  /** The fitted linear score; a strict zip fails when the lengths differ. */
  function Linear(coef: seq<real>, xs: seq<real>): real
    requires |coef| == |xs| + 1
  {
    coef[0] + WeightedSum(coef[1..], xs)
  }

  function Sigmoid(e: Exponential, z: real): real {
    if z >= 0.0 then 1.0 / (1.0 + e(-z)) else e(z) / (1.0 + e(z))
  }

  function Predict(e: Exponential, coef: seq<real>, xs: seq<real>): real
    requires |coef| == |xs| + 1
  {
    Sigmoid(e, Linear(coef, xs))
  }

  /** Bias first, then one coefficient per feature; anything else cannot be unpacked. */
  function LearnedWeights(coef: seq<real>): Weights
    requires |coef| == 9
  {
    Weights(coef[1], coef[2], coef[3], coef[4], coef[5], coef[6], -coef[7], -coef[8])
  }

  lemma SumStep(cs: seq<real>, c: real, xs: seq<real>, x: real)
    requires |cs| == |xs|
    ensures WeightedSum(cs + [c], xs + [x]) == WeightedSum(cs, xs) + c * x
  {
    FrontOf(cs, c);
    FrontOf(xs, x);
  }

  lemma FrontOf(s: seq<real>, x: real)
    ensures (s + [x])[..|s|] == s
  {}

  lemma SumOfEight(a: real, b: real, c: real, d: real, e: real, f: real, g: real, h: real, x: Features)
    ensures WeightedSum([a, b, c, d, e, f, g, h], Vector(x))
            == a * x.severity + b * x.confidence + c * x.agreement + d * x.actionability
               + e * x.repositoryRelevance + f * x.contextRelevance + g * x.redundancy + h * x.rejection
  {
    SumStep([], a, [], x.severity);
    SumStep([a], b, [x.severity], x.confidence);
    SumStep([a, b], c, [x.severity, x.confidence], x.agreement);
    var (c3, v3) := ([a, b, c], [x.severity, x.confidence, x.agreement]);
    assert [] + [a] == [a] && [a] + [b] == [a, b] && [a, b] + [c] == c3;
    assert [] + [x.severity] == [x.severity] && [x.severity] + [x.confidence] == [x.severity, x.confidence];
    assert [x.severity, x.confidence] + [x.agreement] == v3;
    SumStep(c3, d, v3, x.actionability);
    SumStep(c3 + [d], e, v3 + [x.actionability], x.repositoryRelevance);
    var (c5, v5) := (c3 + [d] + [e], v3 + [x.actionability] + [x.repositoryRelevance]);
    SumStep(c5, f, v5, x.contextRelevance);
    SumStep(c5 + [f], g, v5 + [x.contextRelevance], x.redundancy);
    SumStep(c5 + [f] + [g], h, v5 + [x.contextRelevance] + [x.redundancy], x.rejection);
    assert c5 + [f] + [g] + [h] == [a, b, c, d, e, f, g, h];
    assert v5 + [x.contextRelevance] + [x.redundancy] + [x.rejection] == Vector(x);
  }

  /** The synthesised weights reproduce the fitted score up to its bias. */
  lemma UtilityIsScoreWithoutBias(coef: seq<real>, f: Features)
    requires |coef| == 9
    ensures Utility(f, LearnedWeights(coef)) == Linear(coef, Vector(f)) - coef[0]
  {
    assert coef[1..] == [coef[1], coef[2], coef[3], coef[4], coef[5], coef[6], coef[7], coef[8]];
    SumOfEight(coef[1], coef[2], coef[3], coef[4], coef[5], coef[6], coef[7], coef[8], f);
  }

  // ---------------------------------------------------------------- the sigmoid

  ghost predicate Reciprocal(e: Exponential, x: real) {
    e(x) * e(-x) == 1.0
  }

  /** What the sigmoid needs of `exp`. */
  ghost predicate Growing(e: Exponential) {
    Increasing(e) && forall x :: Reciprocal(e, x)
  }

  lemma Ratio(a: real, b: real)
    requires a > 0.0 && b > 0.0 && a * b == 1.0
    ensures 1.0 / (1.0 + b) == a / (1.0 + a)
  {
    assert a * (1.0 + b) == a + 1.0;
    var r := a / (1.0 + a);
    assert r * (1.0 + a) == a;
    assert (r * (1.0 + b)) * a == r * (1.0 + a) == a;
    assert r * (1.0 + b) == 1.0;
  }

  /** Both branches compute the same function. */
  lemma BranchesAgree(e: Exponential, z: real)
    requires Growing(e)
    ensures Sigmoid(e, z) == e(z) / (1.0 + e(z))
    ensures Sigmoid(e, z) == 1.0 / (1.0 + e(-z))
  {
    assert Reciprocal(e, z);
    Ratio(e(z), e(-z));
    assert z >= 0.0 ==> Sigmoid(e, z) == 1.0 / (1.0 + e(-z));
  }

  lemma RatioIncreases(a: real, b: real)
    requires 0.0 < a < b
    ensures 0.0 < a / (1.0 + a) < b / (1.0 + b) < 1.0
  {
    var (p, q) := (a / (1.0 + a), b / (1.0 + b));
    assert p == 1.0 - 1.0 / (1.0 + a) && q == 1.0 - 1.0 / (1.0 + b);
    InverseDecreases(1.0 + a, 1.0 + b);
  }

  lemma InverseDecreases(x: real, y: real)
    requires 0.0 < x < y
    ensures 0.0 < 1.0 / y < 1.0 / x
  {
    assert (1.0 / x - 1.0 / y) * (x * y) == y - x;
  }

  /** The sigmoid is strictly increasing. */
  lemma SigmoidIncreases(e: Exponential, x: real, y: real)
    requires Growing(e) && x < y
    ensures Sigmoid(e, x) < Sigmoid(e, y)
  {
    BranchesAgree(e, x);
    BranchesAgree(e, y);
    assert InOrder(e, x, y);
    RatioIncreases(e(x), e(y));
  }

  // ---------------------------------------------------------------- ranking

  ghost predicate Raises(phi: real -> real, x: real, y: real) {
    x < y ==> phi(x) < phi(y)
  }

  function Rescore(d: Decision, phi: real -> real): Decision {
    d.(utility := phi(d.utility))
  }

  function RescoreAll(ds: seq<Decision>, phi: real -> real): (r: seq<Decision>)
    ensures |r| == |ds| && forall i :: 0 <= i < |r| ==> r[i] == Rescore(ds[i], phi)
  {
    seq(|ds|, i requires 0 <= i < |ds| => Rescore(ds[i], phi))
  }

  lemma {:induction false} InsertRescored(d: Decision, ds: seq<Decision>, phi: real -> real)
    requires forall x, y :: Raises(phi, x, y)
    ensures Insert(RankLe, Rescore(d, phi), RescoreAll(ds, phi)) == RescoreAll(Insert(RankLe, d, ds), phi)
  {
    if ds != [] {
      assert Raises(phi, d.utility, ds[0].utility) && Raises(phi, ds[0].utility, d.utility);
      assert RankLe(Rescore(d, phi), Rescore(ds[0], phi)) == RankLe(d, ds[0]);
      assert RescoreAll(ds, phi)[1..] == RescoreAll(ds[1..], phi);
      InsertRescored(d, ds[1..], phi);
    }
  }

  /** A strictly increasing change of all scores changes no rank. */
  lemma {:induction false} RankRescored(ds: seq<Decision>, phi: real -> real)
    requires forall x, y :: Raises(phi, x, y)
    ensures Rank(RescoreAll(ds, phi)) == RescoreAll(Rank(ds), phi)
  {
    if ds != [] {
      assert RescoreAll(ds, phi)[1..] == RescoreAll(ds[1..], phi);
      RankRescored(ds[1..], phi);
      InsertRescored(ds[0], Rank(ds[1..]), phi);
    }
  }

  /** Decisions scored by the synthesised weights, and by the model's probability. */
  function ByUtility(ds: seq<Decision>, coef: seq<real>): (r: seq<Decision>)
    requires |coef| == 9
    ensures |r| == |ds| && forall i :: 0 <= i < |r| ==>
      r[i] == ds[i].(utility := Utility(ds[i].features, LearnedWeights(coef)))
  {
    seq(|ds|, i requires 0 <= i < |ds| => ds[i].(utility := Utility(ds[i].features, LearnedWeights(coef))))
  }

  function ByProbability(ds: seq<Decision>, coef: seq<real>, e: Exponential): (r: seq<Decision>)
    requires |coef| == 9
    ensures |r| == |ds| && forall i :: 0 <= i < |r| ==>
      r[i] == ds[i].(utility := Predict(e, coef, Vector(ds[i].features)))
  {
    seq(|ds|, i requires 0 <= i < |ds| => ds[i].(utility := Predict(e, coef, Vector(ds[i].features))))
  }

  function Logistic(e: Exponential): real -> real {
    z => Sigmoid(e, z)
  }

  function Plus(bias: real): real -> real {
    x => x + bias
  }

  lemma LogisticRises(e: Exponential)
    requires Growing(e)
    ensures forall x, y :: Raises(Logistic(e), x, y)
  {
    forall x, y ensures Raises(Logistic(e), x, y) {
      if x < y {
        SigmoidIncreases(e, x, y);
      }
    }
  }

  lemma PlusRises(bias: real)
    ensures forall x, y :: Raises(Plus(bias), x, y)
  {}

  lemma ScoreFromUtility(coef: seq<real>, f: Features)
    requires |coef| == 9
    ensures Linear(coef, Vector(f)) == Plus(coef[0])(Utility(f, LearnedWeights(coef)))
  {
    UtilityIsScoreWithoutBias(coef, f);
  }

  function ByScore(ds: seq<Decision>, coef: seq<real>): (r: seq<Decision>)
    requires |coef| == 9
    ensures |r| == |ds| && forall i :: 0 <= i < |r| ==> r[i] == ds[i].(utility := Linear(coef, Vector(ds[i].features)))
  {
    seq(|ds|, i requires 0 <= i < |ds| => ds[i].(utility := Linear(coef, Vector(ds[i].features))))
  }

  lemma ScoresAreRescored(ds: seq<Decision>, coef: seq<real>)
    requires |coef| == 9
    ensures ByScore(ds, coef) == RescoreAll(ByUtility(ds, coef), Plus(coef[0]))
  {
    forall i | 0 <= i < |ds| ensures ByScore(ds, coef)[i] == Rescore(ByUtility(ds, coef)[i], Plus(coef[0])) {
      ScoreFromUtility(coef, ds[i].features);
    }
  }

  lemma ProbabilitiesAreRescored(ds: seq<Decision>, coef: seq<real>, e: Exponential)
    requires |coef| == 9
    ensures ByProbability(ds, coef, e) == RescoreAll(ByScore(ds, coef), Logistic(e))
  {}

  /** For every coefficient vector and candidate set, both scores give the same order. */
  lemma SameRanking(ds: seq<Decision>, coef: seq<real>, e: Exponential)
    requires |coef| == 9 && Growing(e)
    ensures
      var (u, p) := (Rank(ByUtility(ds, coef)), Rank(ByProbability(ds, coef, e)));
      |u| == |p| && forall i :: 0 <= i < |u| ==> u[i].findingId == p[i].findingId && u[i].features == p[i].features
  {
    LogisticRises(e);
    PlusRises(coef[0]);
    ScoresAreRescored(ds, coef);
    ProbabilitiesAreRescored(ds, coef, e);
    RankRescored(ByUtility(ds, coef), Plus(coef[0]));
    RankRescored(ByScore(ds, coef), Logistic(e));
  }
}
