/**
  `decay.py`: exponentially decayed shares. Shares are first studied for any positive weights; of the
  exponential only two facts are used: it is positive, and it turns sums into products.
 */
module Decay {
  import opened Common

  // ---------------------------------------------------------------- weighted shares

  /** A weight and whether the event counts as positive. */
  datatype Sample = Sample(weight: real, positive: bool)

  type Weighted = seq<Sample>

  ghost predicate PositiveWeights(ws: Weighted) {
    forall i :: 0 <= i < |ws| ==> ws[i].weight > 0.0
  }

  function Total(ws: Weighted): real {
    if ws == [] then 0.0 else Total(ws[..|ws| - 1]) + ws[|ws| - 1].weight
  }

  function Positive(ws: Weighted): real {
    if ws == [] then 0.0 else Positive(ws[..|ws| - 1]) + (if ws[|ws| - 1].positive then ws[|ws| - 1].weight else 0.0)
  }

  function Quotient(p: real, t: real): real {
    if t == 0.0 then 0.0 else p / t
  }

  /** The weighted fraction of positive events; 0 without evidence. */
  function Share(ws: Weighted): real {
    Quotient(Positive(ws), Total(ws))
  }

  lemma {:induction false} SumsBounded(ws: Weighted)
    requires PositiveWeights(ws)
    ensures 0.0 <= Positive(ws) <= Total(ws)
    ensures Total(ws) == 0.0 <==> ws == []
  {
    if ws != [] {
      SumsBounded(ws[..|ws| - 1]);
    }
  }

  lemma QuotientBounded(p: real, t: real)
    requires 0.0 <= p <= t
    ensures 0.0 <= Quotient(p, t) <= 1.0 && Quotient(p, t) * t == p
  {}

  /** Every share lies between 0 and 1, and is the positive weight over the whole. */
  lemma ShareBounded(ws: Weighted)
    requires PositiveWeights(ws)
    ensures 0.0 <= Share(ws) <= 1.0 && Share(ws) * Total(ws) == Positive(ws)
  {
    SumsBounded(ws);
    QuotientBounded(Positive(ws), Total(ws));
  }

  lemma {:induction false} SumsOfConcat(a: Weighted, b: Weighted)
    ensures Total(a + b) == Total(a) + Total(b)
    ensures Positive(a + b) == Positive(a) + Positive(b)
  {
    if b == [] {
      assert a + b == a;
    } else {
      var n := |b| - 1;
      SumsOfConcat(a, b[..n]);
      assert (a + b)[..|a + b| - 1] == a + b[..n];
    }
  }

  lemma InPieces<T>(s: seq<T>, i: nat)
    requires i < |s|
    ensures s == s[..i] + [s[i]] + s[i + 1..]
  {}

  lemma WithoutOne<T>(s: seq<T>, i: nat)
    requires i < |s|
    ensures multiset(s) == multiset(s[..i] + s[i + 1..]) + multiset{s[i]}
  {
    InPieces(s, i);
  }

  /** Where the last element of `a` stands in a rearrangement `b` of it. */
  lemma MatchLast<T>(a: seq<T>, b: seq<T>) returns (i: nat)
    requires multiset(a) == multiset(b) && a != []
    ensures i < |b| && b[i] == a[|a| - 1]
    ensures multiset(a[..|a| - 1]) == multiset(b[..i] + b[i + 1..])
  {
    var n := |a| - 1;
    WithoutOne(a, n);
    assert a[..n] + a[n + 1..] == a[..n];
    assert a[n] in multiset(b);
    i :| 0 <= i < |b| && b[i] == a[n];
    WithoutOne(b, i);
    assert multiset(a[..n]) == multiset(a) - multiset{a[n]};
    assert multiset(b[..i] + b[i + 1..]) == multiset(b) - multiset{a[n]};
  }

  lemma SumsMiddle(a: Weighted, x: Sample, b: Weighted)
    ensures Total(a + [x] + b) == Total(a + b) + x.weight
    ensures Positive(a + [x] + b) == Positive(a + b) + (if x.positive then x.weight else 0.0)
  {
    assert (a + [x])[..|a|] == a;
    SumsOfConcat(a + [x], b);
    SumsOfConcat(a, b);
  }

  lemma SumsWithoutOne(ws: Weighted, i: nat)
    requires i < |ws|
    ensures Total(ws) == Total(ws[..i] + ws[i + 1..]) + ws[i].weight
    ensures Positive(ws) == Positive(ws[..i] + ws[i + 1..]) + (if ws[i].positive then ws[i].weight else 0.0)
  {
    var (a, x, b) := (ws[..i], ws[i], ws[i + 1..]);
    InPieces(ws, i);
    SumsMiddle(a, x, b);
  }

  /** The order of the evidence is irrelevant. */
  lemma {:induction false} SumsPermute(a: Weighted, b: Weighted)
    requires multiset(a) == multiset(b)
    ensures Total(a) == Total(b) && Positive(a) == Positive(b) && Share(a) == Share(b)
    decreases |a|
  {
    assert |a| == |multiset(a)| == |multiset(b)| == |b|;
    if a != [] {
      var n := |a| - 1;
      var i := MatchLast(a, b);
      SumsPermute(a[..n], b[..i] + b[i + 1..]);
      SumsWithoutOne(b, i);
    }
  }

  function ScaleOne(c: real, w: Sample): Sample {
    Sample(c * w.weight, w.positive)
  }

  function Scaled(ws: Weighted, c: real): (r: Weighted)
    ensures |r| == |ws| && forall i :: 0 <= i < |r| ==> r[i] == ScaleOne(c, ws[i])
  {
    seq(|ws|, i requires 0 <= i < |ws| => ScaleOne(c, ws[i]))
  }

  lemma Distributes(c: real, x: real, y: real)
    ensures c * (x + y) == c * x + c * y
  {}

  lemma ScaledFront(ws: Weighted, c: real)
    requires ws != []
    ensures Scaled(ws, c)[..|ws| - 1] == Scaled(ws[..|ws| - 1], c)
  {}

  lemma {:induction false} TotalScales(ws: Weighted, c: real)
    ensures Total(Scaled(ws, c)) == c * Total(ws)
  {
    if ws != [] {
      var (front, last) := (ws[..|ws| - 1], ws[|ws| - 1]);
      TotalScales(front, c);
      ScaledFront(ws, c);
      Distributes(c, Total(front), last.weight);
    }
  }

  lemma {:induction false} PositiveScales(ws: Weighted, c: real)
    ensures Positive(Scaled(ws, c)) == c * Positive(ws)
  {
    if ws != [] {
      var (front, last) := (ws[..|ws| - 1], ws[|ws| - 1]);
      PositiveScales(front, c);
      ScaledFront(ws, c);
      Distributes(c, Positive(front), last.weight);
    }
  }

  lemma QuotientScales(c: real, p: real, t: real)
    requires c > 0.0 && t > 0.0
    ensures Quotient(c * p, c * t) == Quotient(p, t)
  {
    assert c * t > 0.0;
    assert Quotient(p, t) * (c * t) == c * (Quotient(p, t) * t) == c * p;
  }

  lemma QuotientOfScaled(c: real, p: real, t: real, p': real, t': real)
    requires c > 0.0 && 0.0 <= p <= t && p' == c * p && t' == c * t
    ensures Quotient(p', t') == Quotient(p, t)
  {
    if t > 0.0 {
      QuotientScales(c, p, t);
    }
  }

  lemma ScalingKeepsShare(ws: Weighted, c: real)
    requires PositiveWeights(ws) && c > 0.0
    ensures Share(Scaled(ws, c)) == Share(ws)
  {
    TotalScales(ws, c);
    PositiveScales(ws, c);
    SumsBounded(ws);
    QuotientOfScaled(c, Positive(ws), Total(ws), Positive(Scaled(ws, c)), Total(Scaled(ws, c)));
  }

  // ---------------------------------------------------------------- decay

  type Exponential = e: real -> real | forall x :: e(x) > 0.0
    witness (_ => 1.0)

  ghost predicate SumToProduct(e: Exponential, x: real, y: real) {
    e(x + y) == e(x) * e(y)
  }

  /** What makes `exp` an exponential. */
  ghost predicate Multiplicative(e: Exponential) {
    forall x, y :: SumToProduct(e, x, y)
  }

  datatype Decaying = Decaying(exp: Exponential, tau: real, lam: real)

  datatype DecayError = NegativeAge | BadParameters

  datatype Observation = Observation(age: real, positive: bool)

  type Evidence = seq<Observation>

  function Exponent(d: Decaying, age: real): real {
    Quotient(-d.lam * age, d.tau)
  }

  function Weight(d: Decaying, age: real): (w: real)
    ensures w > 0.0
  {
    d.exp(Exponent(d, age))
  }

  function DecayWeight(d: Decaying, age: real): (r: Result<real, DecayError>)
    ensures r.Ok? <==> age >= 0.0 && d.tau > 0.0 && d.lam >= 0.0
  {
    if age < 0.0 then Err(NegativeAge)
    else if d.tau <= 0.0 || d.lam < 0.0 then Err(BadParameters)
    else Ok(Weight(d, age))
  }

  function WeighOne(d: Decaying, event: Observation): Sample {
    Sample(Weight(d, event.age), event.positive)
  }

  function Weigh(d: Decaying, events: Evidence): (ws: Weighted)
    ensures |ws| == |events| && forall i :: 0 <= i < |ws| ==> ws[i] == WeighOne(d, events[i])
  {
    seq(|events|, i requires 0 <= i < |events| => WeighOne(d, events[i]))
  }

  lemma WeighedPositive(d: Decaying, events: Evidence)
    ensures PositiveWeights(Weigh(d, events))
  {}

  /** Every event can be weighed: `decay_weight` raises for none of them. */
  ghost predicate Weighable(d: Decaying, events: Evidence) {
    forall i :: 0 <= i < |events| ==> d.tau > 0.0 && d.lam >= 0.0 && events[i].age >= 0.0
  }

  function DecayedShare(d: Decaying, events: Evidence): real {
    Share(Weigh(d, events))
  }

  /** The first event that cannot be weighed fails the call; without events even bad parameters pass. */
  method WeightedShare(d: Decaying, events: Evidence) returns (r: Result<real, DecayError>)
    ensures r.Ok? <==> Weighable(d, events)
    ensures r.Ok? ==> r.value == DecayedShare(d, events)
    ensures r.Err? ==>
      && events != []
      && r.error == if events[0].age >= 0.0 && (d.tau <= 0.0 || d.lam < 0.0) then BadParameters else NegativeAge
  {
    var (total, positive) := (0.0, 0.0);
    ghost var ws := Weigh(d, events);
    for n := 0 to |events|
      invariant Weighable(d, events[..n])
      invariant total == Total(ws[..n]) && positive == Positive(ws[..n])
    {
      assert ws[..n + 1][..n] == ws[..n];
      assert n > 0 ==> events[..n][0] == events[0];
      var weight := DecayWeight(d, events[n].age);
      if weight.Err? {
        return Err(weight.error);
      }
      total := total + weight.value;
      if events[n].positive {
        positive := positive + weight.value;
      }
    }
    assert ws[..|events|] == ws && events[..|events|] == events;
    return Ok(if total == 0.0 then 0.0 else positive / total);
  }

  // ---------------------------------------------------------------- older weighs less

  ghost predicate InOrder(e: Exponential, x: real, y: real) {
    x < y ==> e(x) < e(y)
  }

  ghost predicate Increasing(e: Exponential) {
    forall x, y :: InOrder(e, x, y)
  }

  lemma QuotientOrders(lam: real, tau: real, a: real, b: real)
    requires lam > 0.0 && tau > 0.0 && a < b
    ensures -lam * b / tau < -lam * a / tau
  {
    var (x, y) := (-lam * b / tau, -lam * a / tau);
    assert x * tau == -lam * b && y * tau == -lam * a;
    assert lam * a < lam * b;
    assert (y - x) * tau > 0.0;
  }

  /** With a positive rate, older evidence weighs strictly less; fresh evidence weighs 1. */
  lemma OlderWeighsLess(d: Decaying, a: real, b: real)
    requires d.tau > 0.0 && d.lam > 0.0 && a < b && Increasing(d.exp)
    ensures Weight(d, b) < Weight(d, a)
  {
    QuotientOrders(d.lam, d.tau, a, b);
    assert InOrder(d.exp, Exponent(d, b), Exponent(d, a));
  }

  lemma SquareIsOne(w: real)
    requires w > 0.0 && w * w == w
    ensures w == 1.0
  {
    assert w * (w - 1.0) == 0.0;
  }

  /** The weight undone: `exp(lam * age / tau)` brings every weight back to 1. */
  lemma WeightIsDecay(d: Decaying, age: real)
    requires d.tau > 0.0 && Multiplicative(d.exp)
    ensures Weight(d, 0.0) == 1.0
    ensures Weight(d, age) * d.exp(d.lam * age / d.tau) == 1.0
  {
    OppositeQuotients(d.lam, age, d.tau);
    ExpOfOpposites(d.exp, Exponent(d, age), d.lam * age / d.tau);
    ExpOfZero(d.exp);
  }

  lemma ExpOfSum(e: Exponential, x: real, y: real, sum: real)
    requires Multiplicative(e) && x + y == sum
    ensures e(sum) == e(x) * e(y)
  {
    assert SumToProduct(e, x, y);
  }

  lemma ExpOfZero(e: Exponential)
    requires Multiplicative(e)
    ensures e(0.0) == 1.0
  {
    ExpOfSum(e, 0.0, 0.0, 0.0);
    SquareIsOne(e(0.0));
  }

  lemma ExpOfOpposites(e: Exponential, x: real, y: real)
    requires Multiplicative(e) && x + y == 0.0
    ensures e(x) * e(y) == 1.0
  {
    ExpOfSum(e, x, y, 0.0);
    ExpOfZero(e);
  }

  lemma OppositeQuotients(lam: real, age: real, tau: real)
    requires tau > 0.0
    ensures -lam * age / tau + lam * age / tau == 0.0 && -lam * 0.0 / tau == 0.0
  {
    var (x, y) := (-lam * age / tau, lam * age / tau);
    assert x * tau == -lam * age && y * tau == lam * age;
    assert (x + y) * tau == 0.0;
  }

  /** Of one positive and one negative event, the younger one has the greater share. */
  lemma YoungerPrevails(d: Decaying, a: real, b: real)
    requires d.tau > 0.0 && d.lam > 0.0 && Increasing(d.exp)
    ensures DecayedShare(d, [Observation(a, true), Observation(b, false)]) > 0.5 <==> a < b
  {
    var events := [Observation(a, true), Observation(b, false)];
    SharesOfTwo(Weigh(d, events));
    if a < b {
      OlderWeighsLess(d, a, b);
    } else if b < a {
      OlderWeighsLess(d, b, a);
    }
  }

  lemma SharesOfTwo(ws: Weighted)
    requires |ws| == 2 && PositiveWeights(ws) && ws[0].positive && !ws[1].positive
    ensures Share(ws) > 0.5 <==> ws[0].weight > ws[1].weight
  {
    var (p, q) := (ws[0].weight, ws[1].weight);
    assert ws[..1][..0] == [];
    assert Positive(ws[..1]) == p && Total(ws[..1]) == p;
    assert Positive(ws) == p && Total(ws) == p + q;
    HalfIff(p, q);
  }

  lemma HalfIff(p: real, q: real)
    requires p > 0.0 && q > 0.0
    ensures Quotient(p, p + q) > 0.5 <==> p > q
  {
    SignOfProduct(Quotient(p, p + q) - 0.5, p + q, 0.5 * (p - q));
  }

  lemma SignOfProduct(x: real, t: real, y: real)
    requires t > 0.0 && x * t == y
    ensures x > 0.0 <==> y > 0.0
  {}

  // ---------------------------------------------------------------- ageing

  function Aged(events: Evidence, delay: real): (r: Evidence)
    ensures |r| == |events| && forall i :: 0 <= i < |r| ==>
      r[i] == Observation(events[i].age + delay, events[i].positive)
  {
    seq(|events|, i requires 0 <= i < |events| => Observation(events[i].age + delay, events[i].positive))
  }

  lemma ExponentAdds(d: Decaying, a: real, b: real)
    requires d.tau > 0.0
    ensures Exponent(d, a + b) == Exponent(d, b) + Exponent(d, a)
  {
    assert -d.lam * (a + b) == -d.lam * b + -d.lam * a;
  }

  lemma WeightAges(d: Decaying, age: real, delay: real)
    requires d.tau > 0.0 && Multiplicative(d.exp)
    ensures Weight(d, age + delay) == Weight(d, delay) * Weight(d, age)
  {
    ExponentAdds(d, age, delay);
    assert SumToProduct(d.exp, Exponent(d, delay), Exponent(d, age));
  }

  lemma WeighedLater(d: Decaying, event: Observation, delay: real)
    requires d.tau > 0.0 && Multiplicative(d.exp)
    ensures WeighOne(d, Observation(event.age + delay, event.positive))
      == ScaleOne(Weight(d, delay), WeighOne(d, event))
  {
    WeightAges(d, event.age, delay);
  }

  /** When all evidence grows older by the same time, its share does not move. */
  lemma AgeingKeepsShare(d: Decaying, events: Evidence, delay: real)
    requires d.tau > 0.0 && Multiplicative(d.exp)
    ensures DecayedShare(d, Aged(events, delay)) == DecayedShare(d, events)
  {
    var c := Weight(d, delay);
    forall i | 0 <= i < |events| ensures Weigh(d, Aged(events, delay))[i] == Scaled(Weigh(d, events), c)[i] {
      WeighedLater(d, events[i], delay);
      assert Aged(events, delay)[i] == Observation(events[i].age + delay, events[i].positive);
      assert Scaled(Weigh(d, events), c)[i] == ScaleOne(c, Weigh(d, events)[i]);
    }
    assert Weigh(d, Aged(events, delay)) == Scaled(Weigh(d, events), c);
    WeighedPositive(d, events);
    ScalingKeepsShare(Weigh(d, events), c);
  }
}
