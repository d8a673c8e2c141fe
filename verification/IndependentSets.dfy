/**
  First-come maximal independent sets of a symmetric relation, in the form the grouping loops
  need: `lead[k]` is the position that position `k` ends up with.
 */
module IndependentSets {

  ghost predicate Symmetric<T(!new)>(close: (T, T) -> bool) {
    forall a, b {:trigger close(a, b)} :: close(a, b) == close(b, a)
  }

  /**
    `lead[k]` is the first leader before `k` that is close to it, or `k` itself when there is
    none; leaders are the positions that lead themselves.
   */
  ghost predicate Greedy<T>(close: (T, T) -> bool, s: seq<T>, lead: seq<nat>) {
    && |lead| <= |s|
    && (forall k :: 0 <= k < |lead| ==> lead[k] <= k && lead[lead[k]] == lead[k])
    && (forall k :: 0 <= k < |lead| && lead[k] < k ==> close(s[lead[k]], s[k]))
    && (forall m, k {:trigger close(s[m], s[k])} ::
          0 <= m < k < |lead| && lead[m] == m && close(s[m], s[k]) ==> lead[k] <= m)
  }

  /** The first leader from `m` on that is close to `k`, or `k`. */
  function Search<T>(close: (T, T) -> bool, s: seq<T>, lead: seq<nat>, k: nat, m: nat): (r: nat)
    requires m <= k == |lead| < |s|
    ensures m <= r <= k
    ensures r < k ==> lead[r] == r && close(s[r], s[k])
    ensures forall m' :: m <= m' < r && lead[m'] == m' ==> !close(s[m'], s[k])
    decreases k - m
  {
    if m == k || (lead[m] == m && close(s[m], s[k])) then m else Search(close, s, lead, k, m + 1)
  }

  lemma GreedyExtends<T>(close: (T, T) -> bool, s: seq<T>, lead: seq<nat>)
    requires |lead| < |s| && Greedy(close, s, lead)
    ensures Greedy(close, s, lead + [Search(close, s, lead, |lead|, 0)])
  {
    var n := |lead|;
    var r := Search(close, s, lead, n, 0);
    var longer := lead + [r];
    forall m, k | 0 <= m < k < |longer| && longer[m] == m && close(s[m], s[k]) ensures longer[k] <= m {
      ExtendedAt(close, s, lead, m, k);
    }
    assert forall k :: 0 <= k < |longer| ==> longer[k] <= k && longer[longer[k]] == longer[k];
    assert forall k :: 0 <= k < |longer| && longer[k] < k ==> close(s[longer[k]], s[k]);
  }

  lemma ExtendedAt<T>(close: (T, T) -> bool, s: seq<T>, lead: seq<nat>, m: nat, k: nat)
    requires |lead| < |s| && Greedy(close, s, lead)
    requires m < k <= |lead| && lead[m] == m && close(s[m], s[k])
    ensures (if k < |lead| then lead[k] else Search(close, s, lead, |lead|, 0)) <= m
  {
  }

  function LeadersUpTo<T>(close: (T, T) -> bool, s: seq<T>, n: nat): (lead: seq<nat>)
    requires n <= |s|
    ensures |lead| == n && Greedy(close, s, lead)
  {
    if n == 0 then []
    else
      var lead := LeadersUpTo(close, s, n - 1);
      GreedyExtends(close, s, lead);
      lead + [Search(close, s, lead, n - 1, 0)]
  }

  function Leaders<T>(close: (T, T) -> bool, s: seq<T>): (lead: seq<nat>)
    ensures |lead| == |s| && Greedy(close, s, lead)
  {
    LeadersUpTo(close, s, |s|)
  }

  /** The greedy leaders are the only ones. */
  lemma {:induction false} GreedyUnique<T>(close: (T, T) -> bool, s: seq<T>, lead: seq<nat>, lead': seq<nat>, n: nat)
    requires Greedy(close, s, lead) && Greedy(close, s, lead') && n <= |lead| == |lead'|
    ensures lead[..n] == lead'[..n]
  {
    if n > 0 {
      var k := n - 1;
      GreedyUnique(close, s, lead, lead', k);
      assert forall m :: 0 <= m < k ==> lead[m] == lead[..k][m] == lead'[..k][m] == lead'[m];
      assert lead[k] < k ==> close(s[lead[k]], s[k]);
      assert lead'[k] < k ==> close(s[lead'[k]], s[k]);
      assert lead[k] == lead'[k];
      assert lead[..n] == lead[..k] + [lead[k]] && lead'[..n] == lead'[..k] + [lead'[k]];
    }
  }

  /** Leaders are pairwise far apart, and nobody else can join them. */
  lemma LeadersIndependentAndMaximal<T>(close: (T, T) -> bool, s: seq<T>, j: nat, k: nat)
    requires j < |s| && k < |s|
    ensures var lead := Leaders(close, s);
            && (lead[j] == j && lead[k] == k && j < k ==> !close(s[j], s[k]))
            && (lead[k] != k ==> lead[k] < k && lead[lead[k]] == lead[k] && close(s[lead[k]], s[k]))
            && (lead[k] != k && j < lead[k] && lead[j] == j ==> !close(s[j], s[k]))
  {
  }

  /** Any set of positions that takes `k` iff no earlier member is close to it, is the leaders. */
  lemma {:induction false} FirstComeSetUnique<T>(close: (T, T) -> bool, s: seq<T>, chosen: set<nat>, k: nat)
    requires k < |s|
    requires forall i {:trigger i in chosen} :: 0 <= i < |s| ==>
      (i in chosen <==> forall j {:trigger close(s[j], s[i])} :: 0 <= j < i && j in chosen ==> !close(s[j], s[i]))
    ensures k in chosen <==> Leaders(close, s)[k] == k
    decreases k
  {
    var lead := Leaders(close, s);
    forall j | 0 <= j < k ensures j in chosen <==> lead[j] == j {
      FirstComeSetUnique(close, s, chosen, j);
    }
    if lead[k] < k {
      assert close(s[lead[k]], s[k]);
    }
  }

  // ---------------------------------------------------------------- groups

  /** The positions before `n` led by `m`, ascending. */
  function LedBy(lead: seq<nat>, m: nat, n: nat): seq<nat>
    requires n <= |lead|
  {
    if n == 0 then []
    else LedBy(lead, m, n - 1) + (if lead[n - 1] == m then [n - 1] else [])
  }

  lemma LedByMember(lead: seq<nat>, m: nat, n: nat, k: nat)
    requires n <= |lead|
    ensures k in LedBy(lead, m, n) <==> k < n && lead[k] == m
  {
  }

  lemma LedByInRange(lead: seq<nat>, m: nat, n: nat)
    requires n <= |lead|
    ensures forall i :: 0 <= i < |LedBy(lead, m, n)| ==> LedBy(lead, m, n)[i] < n && lead[LedBy(lead, m, n)[i]] == m
  {
  }

  /** `m` leads a group of at least two. */
  predicate LeadsGroup(lead: seq<nat>, m: nat) {
    |LedBy(lead, m, |lead|)| >= 2
  }

  /** Two positions with the same leader make it lead a group. */
  lemma TwoMembers(lead: seq<nat>, m: nat, j: nat, k: nat)
    requires j < k < |lead| && lead[j] == m && lead[k] == m
    ensures LeadsGroup(lead, m)
  {
    LedByMember(lead, m, |lead|, j);
    LedByMember(lead, m, |lead|, k);
  }

  lemma GroupOfOne<T>(close: (T, T) -> bool, s: seq<T>, lead: seq<nat>, k: nat)
    requires Greedy(close, s, lead) && k < |lead| && !LeadsGroup(lead, lead[k])
    ensures lead[k] == k
  {
    if lead[k] < k {
      TwoMembers(lead, lead[k], lead[k], k);
    }
  }

  /** When the outer loop reaches `p`: has position `k` been assigned to a group? */
  predicate Settled(lead: seq<nat>, k: nat, p: nat)
    requires k < |lead|
  {
    lead[k] < p && LeadsGroup(lead, lead[k])
  }

  /** An unassigned position is a leader when the outer loop reaches it. */
  lemma ReachedLeads<T>(close: (T, T) -> bool, s: seq<T>, lead: seq<nat>, p: nat)
    requires Greedy(close, s, lead) && p < |lead| && !Settled(lead, p, p)
    ensures lead[p] == p
  {
    if lead[p] != p {
      GroupOfOne(close, s, lead, p);
    }
  }

  /**
    The test of the inner loop picks exactly the positions led by `p`. This is where symmetry is
    needed: an earlier element left on its own cannot be close to a later leader.
   */
  lemma JoinsIff<T(!new)>(close: (T, T) -> bool, s: seq<T>, lead: seq<nat>, p: nat, q: nat)
    requires Symmetric(close) && Greedy(close, s, lead) && |lead| == |s|
    requires p < |s| && q < |s| && p != q && lead[p] == p
    ensures !Settled(lead, q, p) && close(s[p], s[q]) <==> lead[q] == p
  {
    assert close(s[p], s[q]) == close(s[q], s[p]);
    if !Settled(lead, q, p) && lead[q] < p {
      GroupOfOne(close, s, lead, q);
    }
  }

  /** The members found once the inner loop has passed the positions before `q`. */
  function FoundUpTo(lead: seq<nat>, p: nat, q: nat): (r: seq<nat>)
    requires p < |lead| && q <= |lead|
    ensures forall i :: 0 <= i < |r| ==> r[i] < |lead|
  {
    LedByInRange(lead, p, q);
    if q <= p then [p] else LedBy(lead, p, q)
  }

  lemma {:induction false} NoneLed<T>(close: (T, T) -> bool, s: seq<T>, lead: seq<nat>, m: nat, n: nat)
    requires Greedy(close, s, lead) && m < |lead| && n <= |lead| && (n <= m || lead[m] != m)
    ensures LedBy(lead, m, n) == []
  {
    if n > 0 {
      NoneLed(close, s, lead, m, n - 1);
    }
  }

  lemma FoundStep<T(!new)>(close: (T, T) -> bool, s: seq<T>, lead: seq<nat>, p: nat, q: nat)
    requires Symmetric(close) && Greedy(close, s, lead) && |lead| == |s| && p < |s| && q < |s| && lead[p] == p
    ensures FoundUpTo(lead, p, q + 1) == FoundUpTo(lead, p, q)
      + if p != q && !Settled(lead, q, p) && close(s[p], s[q]) then [q] else []
  {
    if q <= p {
      NoneLed(close, s, lead, p, q);
    }
    if p != q {
      JoinsIff(close, s, lead, p, q);
    }
  }
}
