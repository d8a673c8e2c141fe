/** `memory.py`: decayed accept and reject shares per category, with each event also counted for its parent category. */
module Memory {
  import opened Common
  import opened Decay

  datatype Feedback = Accepted | Fixed | Modified | Rejected | Dismissed | Ignored | Discussion

  datatype Event = Event(category: string, outcome: Feedback, age: real)

  const ACCEPTED_OUTCOMES := {Accepted, Fixed}
  const REJECTED_OUTCOMES := {Rejected, Dismissed}

  datatype Shares = Shares(accepted: real, rejected: real)

  /** `rsplit("/", 1)[0]`: what precedes the last slash; the whole text without one. */
  function Parent(category: string): string {
    if category == "" then ""
    else
      var n := |category| - 1;
      if category[n] == '/' then category[..n]
      else if '/' in category[..n] then Parent(category[..n]) else category
  }

  predicate CountsFor(category: string, key: string) {
    key == category || ('/' in category && key == Parent(category))
  }

  predicate Live(e: Event, horizon: real) {
    0.0 <= e.age < horizon
  }

  /** The live events that count for `key`, in order. */
  function Relevant(events: seq<Event>, key: string, horizon: real): seq<Event> {
    if events == [] then []
    else
      var e := events[|events| - 1];
      Relevant(events[..|events| - 1], key, horizon)
        + (if Live(e, horizon) && CountsFor(e.category, key) then [e] else [])
  }

  function Observe(e: Event, outcomes: set<Feedback>): Observation {
    Observation(e.age, e.outcome in outcomes)
  }

  function Observed(events: seq<Event>, outcomes: set<Feedback>): (r: Evidence)
    ensures |r| == |events| && forall i :: 0 <= i < |r| ==> r[i] == Observe(events[i], outcomes)
  {
    seq(|events|, i requires 0 <= i < |events| => Observe(events[i], outcomes))
  }

  function EvidenceFor(events: seq<Event>, key: string, horizon: real, outcomes: set<Feedback>): (r: Evidence)
    ensures |r| == |Relevant(events, key, horizon)|
  {
    Observed(Relevant(events, key, horizon), outcomes)
  }

  function SharesFor(d: Decaying, events: seq<Event>, key: string, horizon: real): Shares {
    Shares(DecayedShare(d, EvidenceFor(events, key, horizon, ACCEPTED_OUTCOMES)),
           DecayedShare(d, EvidenceFor(events, key, horizon, REJECTED_OUTCOMES)))
  }

  // ---------------------------------------------------------------- the loops

  type Book = map<string, Evidence>

  function Entry(book: Book, key: string): Evidence {
    if key in book then book[key] else []
  }

  /** The book has a list for every category with evidence, and it is the evidence. */
  ghost predicate Records(book: Book, events: seq<Event>, horizon: real, outcomes: set<Feedback>) {
    forall key :: EntryRight(book, events, horizon, outcomes, key)
  }

  ghost predicate EntryRight(book: Book, events: seq<Event>, horizon: real, outcomes: set<Feedback>, key: string) {
    Entry(book, key) == EvidenceFor(events, key, horizon, outcomes)
      && (key in book <==> Relevant(events, key, horizon) != [])
  }

  function Append(book: Book, key: string, o: Observation): Book {
    book[key := Entry(book, key) + [o]]
  }

  function AddEvent(book: Book, e: Event, outcomes: set<Feedback>): Book {
    var own := Append(book, e.category, Observe(e, outcomes));
    if '/' in e.category then Append(own, Parent(e.category), Observe(e, outcomes)) else own
  }

  lemma {:induction false} ParentShorter(category: string)
    requires '/' in category
    ensures |Parent(category)| < |category|
  {
    var n := |category| - 1;
    if category[n] != '/' {
      assert category == category[..n] + [category[n]];
      ParentShorter(category[..n]);
    }
  }

  lemma AddEventAt(book: Book, e: Event, outcomes: set<Feedback>, key: string)
    ensures Entry(AddEvent(book, e, outcomes), key)
            == Entry(book, key) + (if CountsFor(e.category, key) then [Observe(e, outcomes)] else [])
    ensures key in AddEvent(book, e, outcomes) <==> key in book || CountsFor(e.category, key)
  {
    if '/' in e.category {
      ParentShorter(e.category);
    }
  }

  lemma RelevantSnoc(events: seq<Event>, e: Event, key: string, horizon: real)
    ensures Relevant(events + [e], key, horizon)
            == Relevant(events, key, horizon) + (if Live(e, horizon) && CountsFor(e.category, key) then [e] else [])
  {
    assert (events + [e])[..|events|] == events;
  }

  lemma EvidenceSnoc(events: seq<Event>, e: Event, key: string, horizon: real, outcomes: set<Feedback>)
    ensures EvidenceFor(events + [e], key, horizon, outcomes)
            == EvidenceFor(events, key, horizon, outcomes)
               + (if Live(e, horizon) && CountsFor(e.category, key) then [Observe(e, outcomes)] else [])
  {
    RelevantSnoc(events, e, key, horizon);
  }

  lemma RecordsSnoc(book: Book, events: seq<Event>, e: Event, horizon: real, outcomes: set<Feedback>)
    requires Records(book, events, horizon, outcomes)
    ensures Records(if Live(e, horizon) then AddEvent(book, e, outcomes) else book, events + [e], horizon, outcomes)
  {
    var book' := if Live(e, horizon) then AddEvent(book, e, outcomes) else book;
    forall key ensures EntryRight(book', events + [e], horizon, outcomes, key) {
      assert EntryRight(book, events, horizon, outcomes, key);
      EvidenceSnoc(events, e, key, horizon, outcomes);
      RelevantSnoc(events, e, key, horizon);
      AddEventAt(book, e, outcomes, key);
    }
  }

  lemma {:induction false} RelevantLive(events: seq<Event>, key: string, horizon: real)
    ensures forall i :: 0 <= i < |Relevant(events, key, horizon)| ==> Live(Relevant(events, key, horizon)[i], horizon)
  {
    if events != [] {
      RelevantLive(events[..|events| - 1], key, horizon);
    }
  }

  /** Live evidence can be weighed exactly when the parameters are good. */
  lemma EvidenceWeighable(d: Decaying, events: seq<Event>, key: string, horizon: real, outcomes: set<Feedback>)
    requires Relevant(events, key, horizon) != []
    ensures Weighable(d, EvidenceFor(events, key, horizon, outcomes)) <==> d.tau > 0.0 && d.lam >= 0.0
  {
    RelevantLive(events, key, horizon);
    var evidence := EvidenceFor(events, key, horizon, outcomes);
    assert evidence[0] == Observe(Relevant(events, key, horizon)[0], outcomes);
    forall i | 0 <= i < |evidence| ensures evidence[i].age >= 0.0 {
      assert Live(Relevant(events, key, horizon)[i], horizon);
    }
  }

  method CollectEvidence(events: seq<Event>, horizon: real) returns (accepted: Book, rejected: Book)
    ensures Records(accepted, events, horizon, ACCEPTED_OUTCOMES)
      && Records(rejected, events, horizon, REJECTED_OUTCOMES)
  {
    accepted, rejected := map[], map[];
    for n := 0 to |events|
      invariant Records(accepted, events[..n], horizon, ACCEPTED_OUTCOMES)
      invariant Records(rejected, events[..n], horizon, REJECTED_OUTCOMES)
    {
      var e := events[n];
      assert events[..n + 1] == events[..n] + [e];
      RecordsSnoc(accepted, events[..n], e, horizon, ACCEPTED_OUTCOMES);
      RecordsSnoc(rejected, events[..n], e, horizon, REJECTED_OUTCOMES);
      if Live(e, horizon) {
        accepted := AddEvent(accepted, e, ACCEPTED_OUTCOMES);
        rejected := AddEvent(rejected, e, REJECTED_OUTCOMES);
      }
    }
    assert events[..|events|] == events;
  }

  function Horizon(d: Decaying, horizonDays: Option<real>): real {
    if horizonDays.None? then 3.0 * d.tau else horizonDays.value
  }

  /** Both shares of one category, or the error of the first event. */
  method CategoryShares(d: Decaying, events: seq<Event>, key: string, horizon: real, accepted: Book, rejected: Book)
    returns (r: Result<Shares, DecayError>)
    requires EntryRight(accepted, events, horizon, ACCEPTED_OUTCOMES, key)
    requires EntryRight(rejected, events, horizon, REJECTED_OUTCOMES, key)
    requires Relevant(events, key, horizon) != []
    ensures r.Ok? <==> d.tau > 0.0 && d.lam >= 0.0
    ensures r.Ok? ==> r.value == SharesFor(d, events, key, horizon)
  {
    EvidenceWeighable(d, events, key, horizon, ACCEPTED_OUTCOMES);
    EvidenceWeighable(d, events, key, horizon, REJECTED_OUTCOMES);
    var a := WeightedShare(d, Entry(accepted, key));
    if a.Err? {
      return Err(a.error);
    }
    var b := WeightedShare(d, Entry(rejected, key));
    return Ok(Shares(a.value, b.value));
  }

  /** One entry per category with live evidence; bad parameters fail as soon as there is any. */
  method AggregateCategoryShares(d: Decaying, events: seq<Event>, horizonDays: Option<real>)
    returns (r: Result<map<string, Shares>, DecayError>)
    ensures
      var horizon := Horizon(d, horizonDays);
      r.Ok? <==> (d.tau > 0.0 && d.lam >= 0.0) || forall i :: 0 <= i < |events| ==> !Live(events[i], horizon)
    ensures
      var horizon := Horizon(d, horizonDays);
      r.Ok? ==> forall key :: (key in r.value <==> Relevant(events, key, horizon) != []) &&
                              (key in r.value ==> r.value[key] == SharesFor(d, events, key, horizon))
  {
    var horizon := Horizon(d, horizonDays);
    var accepted, rejected := CollectEvidence(events, horizon);
    SomeEvidence(events, horizon);
    var rest := accepted.Keys + rejected.Keys;
    var categories: map<string, Shares> := map[];
    forall key ensures key in rest <==> Relevant(events, key, horizon) != [] {
      assert EntryRight(accepted, events, horizon, ACCEPTED_OUTCOMES, key);
      assert EntryRight(rejected, events, horizon, REJECTED_OUTCOMES, key);
    }
    while rest != {}
      invariant forall key :: key in rest || key in categories <==> Relevant(events, key, horizon) != []
      invariant forall key :: key in categories ==> categories[key] == SharesFor(d, events, key, horizon)
      invariant categories != map[] ==> d.tau > 0.0 && d.lam >= 0.0
      decreases rest
    {
      var key :| key in rest;
      assert EntryRight(accepted, events, horizon, ACCEPTED_OUTCOMES, key);
      assert EntryRight(rejected, events, horizon, REJECTED_OUTCOMES, key);
      var shares := CategoryShares(d, events, key, horizon, accepted, rejected);
      if shares.Err? {
        return Err(shares.error);
      }
      categories := categories[key := shares.value];
      rest := rest - {key};
    }
    return Ok(categories);
  }

  /** A live event is evidence for its own category, and evidence comes from a live event. */
  lemma {:induction false} SomeEvidence(events: seq<Event>, horizon: real)
    ensures forall i :: 0 <= i < |events| && Live(events[i], horizon) ==>
      Relevant(events, events[i].category, horizon) != []
    ensures (forall i :: 0 <= i < |events| ==> !Live(events[i], horizon)) ==>
      forall key :: Relevant(events, key, horizon) == []
  {
    if events != [] {
      var n := |events| - 1;
      SomeEvidence(events[..n], horizon);
      forall i | 0 <= i < |events| && Live(events[i], horizon)
        ensures Relevant(events, events[i].category, horizon) != [] {
        assert i < n ==> events[..n][i] == events[i];
      }
    }
  }

  // ---------------------------------------------------------------- bounds

  /** No event counts as accepted and as rejected. */
  lemma {:induction false} ClassesDisjoint(d: Decaying, events: seq<Event>)
    ensures
      var (a, b) := (Weigh(d, Observed(events, ACCEPTED_OUTCOMES)), Weigh(d, Observed(events, REJECTED_OUTCOMES)));
      Total(a) == Total(b) && Positive(a) + Positive(b) <= Total(a)
  {
    if events != [] {
      var n := |events| - 1;
      ClassesDisjoint(d, events[..n]);
      WeighedFront(d, events, ACCEPTED_OUTCOMES);
      WeighedFront(d, events, REJECTED_OUTCOMES);
    }
  }

  lemma WeighedFront(d: Decaying, events: seq<Event>, outcomes: set<Feedback>)
    requires events != []
    ensures
      var (ws, front) := (Weigh(d, Observed(events, outcomes)), Weigh(d, Observed(events[..|events| - 1], outcomes)));
      var e := events[|events| - 1];
      && Total(ws) == Total(front) + Weight(d, e.age)
      && Positive(ws) == Positive(front) + (if e.outcome in outcomes then Weight(d, e.age) else 0.0)
  {
    var (n, evidence) := (|events| - 1, Observed(events, outcomes));
    assert Weigh(d, evidence)[..n] == Weigh(d, Observed(events[..n], outcomes));
    assert evidence[n] == Observe(events[n], outcomes);
    assert Weigh(d, evidence)[n] == WeighOne(d, evidence[n]);
  }

  lemma QuotientsAdd(p: real, q: real, t: real)
    requires 0.0 <= p && 0.0 <= q && p + q <= t
    ensures Quotient(p, t) + Quotient(q, t) <= 1.0
  {
    if t > 0.0 {
      assert p / t + q / t == (p + q) / t;
      QuotientBounded(p + q, t);
    }
  }

  /** Both shares lie between 0 and 1, and so does their sum. */
  lemma SharesBounded(d: Decaying, events: seq<Event>, key: string, horizon: real)
    ensures
      var s := SharesFor(d, events, key, horizon);
      0.0 <= s.accepted <= 1.0 && 0.0 <= s.rejected <= 1.0 && s.accepted + s.rejected <= 1.0
  {
    var es := Relevant(events, key, horizon);
    var (a, b) := (Weigh(d, Observed(es, ACCEPTED_OUTCOMES)), Weigh(d, Observed(es, REJECTED_OUTCOMES)));
    WeighedPositive(d, Observed(es, ACCEPTED_OUTCOMES));
    WeighedPositive(d, Observed(es, REJECTED_OUTCOMES));
    ShareBounded(a);
    ShareBounded(b);
    SumsBounded(a);
    SumsBounded(b);
    ClassesDisjoint(d, es);
    QuotientsAdd(Positive(a), Positive(b), Total(a));
  }

  // ---------------------------------------------------------------- order and age

  lemma {:induction false} MapPermutes(a: seq<Event>, b: seq<Event>, outcomes: set<Feedback>)
    requires multiset(a) == multiset(b)
    ensures multiset(Observed(a, outcomes)) == multiset(Observed(b, outcomes))
    decreases |a|
  {
    assert |a| == |multiset(a)| == |multiset(b)| == |b|;
    if a != [] {
      var n := |a| - 1;
      var i := MatchLast(a, b);
      var rest := b[..i] + b[i + 1..];
      assert a[..n] + a[n + 1..] == a[..n];
      MapPermutes(a[..n], rest, outcomes);
      ObservedWithout(a, n, outcomes);
      ObservedWithout(b, i, outcomes);
    }
  }

  lemma ObservedWithout(s: seq<Event>, i: nat, outcomes: set<Feedback>)
    requires i < |s|
    ensures multiset(Observed(s, outcomes))
            == multiset(Observed(s[..i] + s[i + 1..], outcomes)) + multiset{Observe(s[i], outcomes)}
  {
    var o := Observed(s, outcomes);
    WithoutOne(o, i);
    assert o[..i] + o[i + 1..] == Observed(s[..i] + s[i + 1..], outcomes);
  }

  lemma {:induction false} RelevantCounts(events: seq<Event>, key: string, horizon: real, x: Event)
    ensures multiset(Relevant(events, key, horizon))[x]
            == if Live(x, horizon) && CountsFor(x.category, key) then multiset(events)[x] else 0
  {
    if events != [] {
      var n := |events| - 1;
      RelevantCounts(events[..n], key, horizon, x);
      assert events == events[..n] + [events[n]];
    }
  }

  lemma {:induction false} WeighPermutes(d: Decaying, a: Evidence, b: Evidence)
    requires multiset(a) == multiset(b)
    ensures multiset(Weigh(d, a)) == multiset(Weigh(d, b))
    decreases |a|
  {
    assert |a| == |multiset(a)| == |multiset(b)| == |b|;
    if a != [] {
      var n := |a| - 1;
      var i := MatchLast(a, b);
      var rest := b[..i] + b[i + 1..];
      assert a[..n] + a[n + 1..] == a[..n];
      WeighPermutes(d, a[..n], rest);
      WeighedWithout(d, a, n);
      WeighedWithout(d, b, i);
    }
  }

  lemma WeighedWithout(d: Decaying, s: Evidence, i: nat)
    requires i < |s|
    ensures multiset(Weigh(d, s)) == multiset(Weigh(d, s[..i] + s[i + 1..])) + multiset{WeighOne(d, s[i])}
  {
    var o := Weigh(d, s);
    WithoutOne(o, i);
    assert o[..i] + o[i + 1..] == Weigh(d, s[..i] + s[i + 1..]);
  }

  /** The order of the events is irrelevant. */
  lemma EventOrderIsIrrelevant(d: Decaying, a: seq<Event>, b: seq<Event>, key: string, horizon: real)
    requires multiset(a) == multiset(b)
    ensures SharesFor(d, a, key, horizon) == SharesFor(d, b, key, horizon)
  {
    var (x, y) := (Relevant(a, key, horizon), Relevant(b, key, horizon));
    forall e ensures multiset(x)[e] == multiset(y)[e] {
      RelevantCounts(a, key, horizon, e);
      RelevantCounts(b, key, horizon, e);
    }
    assert multiset(x) == multiset(y);
    SameShare(d, x, y, ACCEPTED_OUTCOMES);
    SameShare(d, x, y, REJECTED_OUTCOMES);
  }

  lemma SameShare(d: Decaying, x: seq<Event>, y: seq<Event>, outcomes: set<Feedback>)
    requires multiset(x) == multiset(y)
    ensures DecayedShare(d, Observed(x, outcomes)) == DecayedShare(d, Observed(y, outcomes))
  {
    MapPermutes(x, y, outcomes);
    WeighPermutes(d, Observed(x, outcomes), Observed(y, outcomes));
    SumsPermute(Weigh(d, Observed(x, outcomes)), Weigh(d, Observed(y, outcomes)));
  }

  function Older(events: seq<Event>, delay: real): (r: seq<Event>)
    ensures |r| == |events| && forall i :: 0 <= i < |r| ==> r[i] == events[i].(age := events[i].age + delay)
  {
    seq(|events|, i requires 0 <= i < |events| => events[i].(age := events[i].age + delay))
  }

  /** Ageing moves no event into the horizon or out of it. */
  ghost predicate NoneCrosses(events: seq<Event>, delay: real, horizon: real) {
    forall i :: 0 <= i < |events| ==> (Live(events[i], horizon) <==> Live(Older(events, delay)[i], horizon))
  }

  lemma {:induction false} RelevantOlder(events: seq<Event>, delay: real, key: string, horizon: real)
    requires NoneCrosses(events, delay, horizon)
    ensures Relevant(Older(events, delay), key, horizon) == Older(Relevant(events, key, horizon), delay)
  {
    if events != [] {
      var (front, e) := (events[..|events| - 1], events[|events| - 1]);
      assert Older(events, delay)[..|front|] == Older(front, delay);
      forall i | 0 <= i < |front| ensures Live(front[i], horizon) <==> Live(Older(front, delay)[i], horizon) {
        assert Live(events[i], horizon) <==> Live(Older(events, delay)[i], horizon);
      }
      RelevantOlder(front, delay, key, horizon);
      assert Live(events[|front|], horizon) <==> Live(Older(events, delay)[|front|], horizon);
    }
  }

  /** Time passing changes no share as long as no event crosses the horizon. */
  lemma AgeingKeepsShares(d: Decaying, events: seq<Event>, delay: real, key: string, horizon: real)
    requires d.tau > 0.0 && Multiplicative(d.exp) && NoneCrosses(events, delay, horizon)
    ensures SharesFor(d, Older(events, delay), key, horizon) == SharesFor(d, events, key, horizon)
  {
    var es := Relevant(events, key, horizon);
    RelevantOlder(events, delay, key, horizon);
    OlderIsAged(d, es, delay, ACCEPTED_OUTCOMES);
    OlderIsAged(d, es, delay, REJECTED_OUTCOMES);
  }

  lemma OlderIsAged(d: Decaying, es: seq<Event>, delay: real, outcomes: set<Feedback>)
    requires d.tau > 0.0 && Multiplicative(d.exp)
    ensures DecayedShare(d, Observed(Older(es, delay), outcomes)) == DecayedShare(d, Observed(es, outcomes))
  {
    assert Observed(Older(es, delay), outcomes) == Aged(Observed(es, outcomes), delay);
    AgeingKeepsShare(d, Observed(es, outcomes), delay);
  }

  // ---------------------------------------------------------------- parent categories

  /** The events of exactly this category, and the others. */
  function Own(events: seq<Event>, category: string): seq<Event> {
    if events == [] then []
    else
      var e := events[|events| - 1];
      Own(events[..|events| - 1], category) + (if e.category == category then [e] else [])
  }

  function Others(events: seq<Event>, category: string): (r: seq<Event>)
    ensures |r| <= |events|
    ensures events != [] && events[|events| - 1].category == category ==> |r| < |events|
  {
    if events == [] then []
    else
      var e := events[|events| - 1];
      Others(events[..|events| - 1], category) + (if e.category == category then [] else [e])
  }

  function Weights(d: Decaying, events: seq<Event>, outcomes: set<Feedback>): Weighted {
    Weigh(d, Observed(events, outcomes))
  }

  lemma SumsSnoc(d: Decaying, events: seq<Event>, e: Event, outcomes: set<Feedback>)
    ensures Total(Weights(d, events + [e], outcomes)) == Total(Weights(d, events, outcomes)) + Weight(d, e.age)
    ensures Positive(Weights(d, events + [e], outcomes))
            == Positive(Weights(d, events, outcomes)) + (if e.outcome in outcomes then Weight(d, e.age) else 0.0)
  {
    assert (events + [e])[..|events|] == events;
    WeighedFront(d, events + [e], outcomes);
  }

  lemma OwnSnoc(events: seq<Event>, e: Event, c: string)
    ensures Own(events + [e], c) == if e.category == c then Own(events, c) + [e] else Own(events, c)
    ensures Others(events + [e], c) == if e.category == c then Others(events, c) else Others(events, c) + [e]
  {
    assert (events + [e])[..|events|] == events;
  }

  /** The weights of a category and of the rest make up the whole. */
  ghost predicate Splits(d: Decaying, events: seq<Event>, own: seq<Event>, others: seq<Event>,
                         outcomes: set<Feedback>) {
    && Total(Weights(d, events, outcomes)) == Total(Weights(d, own, outcomes)) + Total(Weights(d, others, outcomes))
    && Positive(Weights(d, events, outcomes)) == Positive(Weights(d, own, outcomes))
      + Positive(Weights(d, others, outcomes))
  }

  lemma SplitsSnoc(d: Decaying, events: seq<Event>, own: seq<Event>, others: seq<Event>, outcomes: set<Feedback>,
                   e: Event)
    requires Splits(d, events, own, others, outcomes)
    ensures Splits(d, events + [e], own + [e], others, outcomes) && Splits(d, events + [e], own, others + [e], outcomes)
  {
    SumsSnoc(d, events, e, outcomes);
    SumsSnoc(d, own, e, outcomes);
    SumsSnoc(d, others, e, outcomes);
  }

  lemma {:induction false} SumsSplit(d: Decaying, events: seq<Event>, category: string, outcomes: set<Feedback>)
    ensures Splits(d, events, Own(events, category), Others(events, category), outcomes)
  {
    if events == [] {
      assert Weights(d, [], outcomes) == [];
    } else {
      var (front, e) := (events[..|events| - 1], events[|events| - 1]);
      SumsSplit(d, front, category, outcomes);
      assert events == front + [e];
      OwnSnoc(front, e, category);
      SplitsSnoc(d, front, Own(front, category), Others(front, category), outcomes, e);
    }
  }

  lemma {:induction false} OwnOfOthers(events: seq<Event>, category: string, c: string)
    ensures Own(Others(events, category), c) == if c == category then [] else Own(events, c)
  {
    if events != [] {
      var (front, e) := (events[..|events| - 1], events[|events| - 1]);
      var rest := Others(front, category);
      OwnOfOthers(front, category, c);
      OwnSnoc(rest, e, c);
      assert Own(events, c) == if e.category == c then Own(front, c) + [e] else Own(front, c);
      assert Others(events, category) == if e.category == category then rest else rest + [e];
    }
  }

  ghost predicate Within(d: Decaying, events: seq<Event>, outcomes: set<Feedback>, c: string, lo: real, hi: real) {
    Own(events, c) != [] ==> lo <= Share(Weights(d, Own(events, c), outcomes)) <= hi
  }

  ghost predicate Bracketed(p: real, t: real, lo: real, hi: real) {
    lo * t <= p <= hi * t
  }

  lemma BracketsJoin(p: real, t: real, p': real, t': real, lo: real, hi: real, whole: real, total: real)
    requires Bracketed(p, t, lo, hi) && Bracketed(p', t', lo, hi) && whole == p + p' && total == t + t'
    ensures Bracketed(whole, total, lo, hi)
  {
    Distributes(lo, t, t');
    Distributes(hi, t, t');
  }

  lemma QuotientBrackets(p: real, t: real, lo: real, hi: real)
    requires 0.0 <= p <= t && lo <= Quotient(p, t) <= hi
    ensures Bracketed(p, t, lo, hi)
  {
    var q := Quotient(p, t);
    QuotientBounded(p, t);
    assert (q - lo) * t >= 0.0 && (hi - q) * t >= 0.0;
  }

  lemma ShareBrackets(ws: Weighted, lo: real, hi: real)
    requires PositiveWeights(ws) && lo <= Share(ws) <= hi
    ensures Bracketed(Positive(ws), Total(ws), lo, hi)
  {
    SumsBounded(ws);
    QuotientBrackets(Positive(ws), Total(ws), lo, hi);
  }

  lemma OwnLast(events: seq<Event>)
    requires events != []
    ensures Own(events, events[|events| - 1].category) != []
  {}

  lemma {:induction false} SumsWithin(d: Decaying, events: seq<Event>, outcomes: set<Feedback>, lo: real, hi: real)
    requires forall c :: Within(d, events, outcomes, c, lo, hi)
    ensures Bracketed(Positive(Weights(d, events, outcomes)), Total(Weights(d, events, outcomes)), lo, hi)
    decreases |events|
  {
    if events == [] {
      assert Weights(d, events, outcomes) == [];
    } else {
      var c := events[|events| - 1].category;
      var rest := Others(events, c);
      forall k ensures Within(d, rest, outcomes, k, lo, hi) {
        OwnOfOthers(events, c, k);
        assert Within(d, events, outcomes, k, lo, hi);
      }
      SumsWithin(d, rest, outcomes, lo, hi);
      assert Within(d, events, outcomes, c, lo, hi);
      OwnLast(events);
      WithinJoins(d, events, outcomes, c, lo, hi);
    }
  }

  lemma OwnBracketed(d: Decaying, events: seq<Event>, outcomes: set<Feedback>, lo: real, hi: real)
    requires lo <= Share(Weights(d, events, outcomes)) <= hi
    ensures Bracketed(Positive(Weights(d, events, outcomes)), Total(Weights(d, events, outcomes)), lo, hi)
  {
    WeighedPositive(d, Observed(events, outcomes));
    ShareBrackets(Weights(d, events, outcomes), lo, hi);
  }

  /** A category's own events within bounds and the others within them too. */
  lemma WithinJoins(d: Decaying, events: seq<Event>, outcomes: set<Feedback>, c: string, lo: real, hi: real)
    requires Within(d, events, outcomes, c, lo, hi) && Own(events, c) != []
    requires
      var b := Weights(d, Others(events, c), outcomes);
      Bracketed(Positive(b), Total(b), lo, hi)
    ensures Bracketed(Positive(Weights(d, events, outcomes)), Total(Weights(d, events, outcomes)), lo, hi)
  {
    var (a, b) := (Weights(d, Own(events, c), outcomes), Weights(d, Others(events, c), outcomes));
    SumsSplit(d, events, c, outcomes);
    OwnBracketed(d, Own(events, c), outcomes, lo, hi);
    var ws := Weights(d, events, outcomes);
    assert Splits(d, events, Own(events, c), Others(events, c), outcomes);
    BracketsJoin(Positive(a), Total(a), Positive(b), Total(b), lo, hi, Positive(ws), Total(ws));
  }

  lemma BetweenAfterDivision(p: real, t: real, lo: real, hi: real)
    requires t > 0.0 && lo * t <= p <= hi * t
    ensures lo <= Quotient(p, t) <= hi
  {
    var q := p / t;
    assert q * t == p;
    if q < lo {
      assert (lo - q) * t > 0.0;
    }
    if q > hi {
      assert (q - hi) * t > 0.0;
    }
  }

  lemma BracketedShare(ws: Weighted, lo: real, hi: real)
    requires PositiveWeights(ws) && ws != [] && Bracketed(Positive(ws), Total(ws), lo, hi)
    ensures lo <= Share(ws) <= hi
  {
    SumsBounded(ws);
    BetweenAfterDivision(Positive(ws), Total(ws), lo, hi);
  }

  /** Evidence for a category is its own or that of a direct child. */
  lemma {:induction false} EvidenceIsDirect(events: seq<Event>, key: string, horizon: real, c: string)
    requires Own(Relevant(events, key, horizon), c) != []
    ensures CountsFor(c, key)
  {
    if events != [] {
      var (front, e) := (events[..|events| - 1], events[|events| - 1]);
      var before := Relevant(front, key, horizon);
      assert Relevant(events, key, horizon) == if Live(e, horizon) && CountsFor(e.category, key) then before + [e]
        else before;
      OwnSnoc(before, e, c);
      if Own(before, c) != [] {
        EvidenceIsDirect(front, key, horizon, c);
      }
    }
  }

  /** A category's share lies between the least and the greatest share of its own and its direct children's events. */
  lemma ParentShareBetween(d: Decaying, events: seq<Event>, key: string, horizon: real, outcomes: set<Feedback>,
                                              lo: real, hi: real)
    requires Relevant(events, key, horizon) != []
    requires forall c :: CountsFor(c, key) ==> Within(d, Relevant(events, key, horizon), outcomes, c, lo, hi)
    ensures lo <= DecayedShare(d, EvidenceFor(events, key, horizon, outcomes)) <= hi
  {
    var es := Relevant(events, key, horizon);
    forall c ensures Within(d, es, outcomes, c, lo, hi) {
      if Own(es, c) != [] {
        EvidenceIsDirect(events, key, horizon, c);
      }
    }
    SumsWithin(d, es, outcomes, lo, hi);
    WeighedPositive(d, Observed(es, outcomes));
    BracketedShare(Weights(d, es, outcomes), lo, hi);
  }

  // ---------------------------------------------------------------- which events count

  lemma {:induction false} ParentSplits(category: string) returns (leaf: string)
    requires '/' in category
    ensures '/' !in leaf && category == Parent(category) + "/" + leaf
  {
    var n := |category| - 1;
    assert category == category[..n] + [category[n]];
    if category[n] == '/' {
      leaf := "";
    } else {
      var front := ParentSplits(category[..n]);
      leaf := front + [category[n]];
      assert category == Parent(category[..n]) + "/" + leaf;
    }
  }

  lemma {:induction false} ParentOf(key: string, leaf: string)
    requires '/' !in leaf
    ensures Parent(key + "/" + leaf) == key
  {
    var category := key + "/" + leaf;
    var n := |category| - 1;
    if leaf == "" {
      assert category[..n] == key;
    } else {
      var front := leaf[..|leaf| - 1];
      assert category[n] == leaf[|leaf| - 1] && category[..n] == key + "/" + front;
      assert category[..n][|key|] == '/';
      ParentOf(key, front);
    }
  }

  /** An event counts for its category and for the one directly above it. */
  lemma CountsForIff(category: string, key: string)
    ensures CountsFor(category, key) <==>
      key == category || exists leaf :: '/' !in leaf && category == key + "/" + leaf
  {
    if '/' in category {
      var last := ParentSplits(category);
    }
    if leaf :| '/' !in leaf && category == key + "/" + leaf {
      ParentOf(key, leaf);
      assert category[|key|] == '/';
    }
  }

  lemma {:induction false} RelevantMember(events: seq<Event>, key: string, horizon: real, e: Event)
    ensures e in Relevant(events, key, horizon) <==> e in events && Live(e, horizon) && CountsFor(e.category, key)
  {
    if events != [] {
      var n := |events| - 1;
      RelevantMember(events[..n], key, horizon, e);
      assert events == events[..n] + [events[n]];
    }
  }

  lemma {:induction false} PositiveIff(ws: Weighted)
    requires PositiveWeights(ws)
    ensures Share(ws) > 0.0 <==> exists i :: 0 <= i < |ws| && ws[i].positive
  {
    SumsBounded(ws);
    ShareBounded(ws);
    SomePositive(ws);
    QuotientPositive(Positive(ws), Total(ws));
  }

  lemma QuotientPositive(p: real, t: real)
    requires 0.0 <= p <= t
    ensures Quotient(p, t) > 0.0 <==> p > 0.0
  {
    if t > 0.0 {
      assert Quotient(p, t) * t == p;
    }
  }

  lemma {:induction false} SomePositive(ws: Weighted)
    requires PositiveWeights(ws)
    ensures Positive(ws) > 0.0 <==> exists i :: 0 <= i < |ws| && ws[i].positive
  {
    if ws != [] {
      var n := |ws| - 1;
      SomePositive(ws[..n]);
      SumsBounded(ws[..n]);
      if i :| 0 <= i < |ws| && ws[i].positive && i < n {
        assert ws[..n][i].positive;
      }
    }
  }

  /** A live event of the category itself or of one directly below it. */
  ghost predicate Concerns(e: Event, key: string, horizon: real) {
    && 0.0 <= e.age < horizon
    && (key == e.category || exists leaf :: '/' !in leaf && e.category == key + "/" + leaf)
  }

  lemma ConcernsIff(e: Event, key: string, horizon: real)
    ensures Concerns(e, key, horizon) <==> Live(e, horizon) && CountsFor(e.category, key)
  {
    CountsForIff(e.category, key);
  }

  lemma ShareIff(d: Decaying, events: seq<Event>, key: string, horizon: real, outcomes: set<Feedback>)
    ensures DecayedShare(d, EvidenceFor(events, key, horizon, outcomes)) > 0.0 <==>
      exists e :: e in events && Concerns(e, key, horizon) && e.outcome in outcomes
  {
    var es := Relevant(events, key, horizon);
    var ws := Weigh(d, Observed(es, outcomes));
    WeighedPositive(d, Observed(es, outcomes));
    PositiveIff(ws);
    assert forall i :: 0 <= i < |ws| ==> (ws[i].positive <==> es[i].outcome in outcomes);
    if i :| 0 <= i < |ws| && ws[i].positive {
      RelevantMember(events, key, horizon, es[i]);
      ConcernsIff(es[i], key, horizon);
    }
    if e :| e in events && Concerns(e, key, horizon) && e.outcome in outcomes {
      ConcernsIff(e, key, horizon);
      RelevantMember(events, key, horizon, e);
      var i :| 0 <= i < |es| && es[i] == e;
      assert ws[i].positive;
    }
  }

  /** A category has evidence exactly if an event concerns it. */
  lemma EvidenceIff(events: seq<Event>, key: string, horizon: real)
    ensures Relevant(events, key, horizon) != [] <==> exists e :: e in events && Concerns(e, key, horizon)
  {
    var es := Relevant(events, key, horizon);
    if e :| e in events && Concerns(e, key, horizon) {
      ConcernsIff(e, key, horizon);
      RelevantMember(events, key, horizon, e);
    }
    if es != [] {
      RelevantMember(events, key, horizon, es[0]);
      ConcernsIff(es[0], key, horizon);
    }
  }

  /** Without a given horizon, evidence is what is younger than three time constants. */
  lemma DefaultHorizon(d: Decaying, events: seq<Event>, key: string)
    ensures Relevant(events, key, Horizon(d, None)) != [] <==>
      exists e :: e in events && Concerns(e, key, 3.0 * d.tau)
  {
    EvidenceIff(events, key, Horizon(d, None));
  }

  /**
    The accepted share is positive exactly by an accepted or fixed event, the rejected one by a rejected or
    dismissed one.
   */
  lemma SharesIff(d: Decaying, events: seq<Event>, key: string, horizon: real)
    ensures SharesFor(d, events, key, horizon).accepted > 0.0 <==>
      exists e :: e in events && Concerns(e, key, horizon) && (e.outcome == Accepted || e.outcome == Fixed)
    ensures SharesFor(d, events, key, horizon).rejected > 0.0 <==>
      exists e :: e in events && Concerns(e, key, horizon) && (e.outcome == Rejected || e.outcome == Dismissed)
  {
    ShareIff(d, events, key, horizon, ACCEPTED_OUTCOMES);
    ShareIff(d, events, key, horizon, REJECTED_OUTCOMES);
  }
}
