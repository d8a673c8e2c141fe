/** `priority.py`: the member encoding and the sorted set the scheduler pops from. */
module PriorityQueue {
  import opened Common
  import opened Ordering
  import opened Decimal

  // ---------------------------------------------------------------- members

  const ORDINAL_WIDTH := 20

  datatype MemberError = NegativeOrdinal

  function Member(ordinal: nat, id: string): string {
    Format(ordinal, ORDINAL_WIDTH) + ":" + id
  }

  function MakeMember(ordinal: int, id: string): (r: Result<string, MemberError>)
    ensures r.Ok? <==> 0 <= ordinal
  {
    if ordinal < 0 then Err(NegativeOrdinal) else Ok(Member(ordinal, id))
  }

  /** The length of the text before the first colon. */
  function ColonAt(member: string): (n: nat)
    ensures n <= |member|
  {
    if member == "" || member[0] == ':' then 0 else 1 + ColonAt(member[1..])
  }

  function MemberOrdinal(member: string): nat {
    ToNat(member[..ColonAt(member)])
  }

  function MemberReviewId(member: string): string {
    var n := ColonAt(member);
    if n < |member| then member[n + 1..] else ""
  }

  lemma {:induction false} ColonAfter(digits: string, rest: string)
    requires forall i :: 0 <= i < |digits| ==> IsDigit(digits[i])
    ensures ColonAt(digits + ":" + rest) == |digits|
  {
    if digits != "" {
      assert (digits + ":" + rest)[1..] == digits[1..] + ":" + rest;
      ColonAfter(digits[1..], rest);
    }
  }

  /** Decoding gives back the ordinal and the review id, for every ordinal. */
  lemma MemberRoundTrip(ordinal: nat, id: string)
    ensures MemberOrdinal(Member(ordinal, id)) == ordinal && MemberReviewId(Member(ordinal, id)) == id
  {
    var digits := Format(ordinal, ORDINAL_WIDTH);
    FormatReads(ordinal, ORDINAL_WIDTH);
    ColonAfter(digits, id);
    assert Member(ordinal, id)[..|digits|] == digits;
    assert Member(ordinal, id)[|digits| + 1..] == id;
  }

  /** Below 10^20, members order as text the way their ordinals order as numbers. */
  lemma MembersOrderAsOrdinals(m: nat, x: string, n: nat, y: string)
    requires m < Power(ORDINAL_WIDTH) && n < Power(ORDINAL_WIDTH)
    ensures m < n ==> Precedes(Member(m, x), Member(n, y))
    ensures StringLe(Member(m, x), Member(n, y)) ==> m <= n
  {
    if m < n {
      FormatOrders(m, n, ORDINAL_WIDTH);
      FormatWidth(m, ORDINAL_WIDTH);
      FormatWidth(n, ORDINAL_WIDTH);
      PrefixDecides(Format(m, ORDINAL_WIDTH), Format(n, ORDINAL_WIDTH), ":" + x, ":" + y);
      SplitMember(m, x);
      SplitMember(n, y);
    } else if n < m {
      MembersOrderAsOrdinals(n, y, m, x);
      StringLeTotal(Member(m, x), Member(n, y));
    }
  }

  lemma SplitMember(ordinal: nat, id: string)
    ensures Member(ordinal, id) == Format(ordinal, ORDINAL_WIDTH) + (":" + id)
  {}

  /** At 10^20 the encoding overflows its width and sorts before its predecessor. */
  lemma OrderBreaksAtTheWidth(x: string, y: string)
    ensures Precedes(Member(Power(ORDINAL_WIDTH), x), Member(Power(ORDINAL_WIDTH) - 1, y))
  {
    var (p, v) := (Power(ORDINAL_WIDTH), ORDINAL_WIDTH - 1);
    assert p == 10 * Power(v);
    LeadingDigit(p - 1, 9, v);
    OverflowDigit();
    assert Member(p, x)[0] == '1' && Member(p - 1, y)[0] == '9';
  }

  /** All members of ordinals below `bound` order as their ordinals. */
  ghost predicate OrderedBelow(bound: nat) {
    forall m: nat, n: nat, x, y :: m < n < bound ==> Precedes(Member(m, x), Member(n, y))
  }

  /** The text order is the number order for all ordinals below a bound exactly up to 10^20. */
  lemma OrderedBelowIff(bound: nat)
    ensures OrderedBelow(bound) <==> bound <= Power(ORDINAL_WIDTH)
  {
    if bound <= Power(ORDINAL_WIDTH) {
      forall m: nat, n: nat, x, y | m < n < bound ensures Precedes(Member(m, x), Member(n, y)) {
        MembersOrderAsOrdinals(m, x, n, y);
      }
    } else {
      var p := Power(ORDINAL_WIDTH);
      OrderBreaksAtTheWidth("", "");
      StringLeTotal(Member(p, ""), Member(p - 1, ""));
      assert !Precedes(Member(p - 1, ""), Member(p, ""));
    }
  }

  lemma OverflowDigit()
    ensures Format(Power(ORDINAL_WIDTH), ORDINAL_WIDTH) != "" && Format(Power(ORDINAL_WIDTH), ORDINAL_WIDTH)[0] == '1'
  {
    TensStartWithOne(ORDINAL_WIDTH);
  }

  lemma {:induction false} TensStartWithOne(w: nat)
    ensures Format(Power(w), w) != "" && Format(Power(w), w)[0] == '1'
  {
    if w > 0 {
      assert Power(w) == 10 * Power(w - 1) && Power(w) / 10 == Power(w - 1);
      TensStartWithOne(w - 1);
    }
  }

  // ---------------------------------------------------------------- the sorted set

  datatype Entry = Entry(member: string, score: real)

  /** Redis order: by score, then by member. */
  predicate Below(a: Entry, b: Entry) {
    a.score < b.score || (a.score == b.score && StringLe(a.member, b.member))
  }

  /** A sorted set: its entries in Redis order, one per member. */
  ghost predicate IsZset(z: seq<Entry>) {
    forall i, j :: 0 <= i < j < |z| ==> Below(z[i], z[j]) && z[i].member != z[j].member
  }

  function ZRem(z: seq<Entry>, member: string): seq<Entry> {
    if z == [] then [] else if z[0].member == member then z[1..] else [z[0]] + ZRem(z[1..], member)
  }

  function InsertEntry(z: seq<Entry>, e: Entry): seq<Entry> {
    if z == [] || Below(e, z[0]) then [e] + z else [z[0]] + InsertEntry(z[1..], e)
  }

  /** `ZADD`: a member already present gets the new score. */
  function ZAdd(z: seq<Entry>, e: Entry): seq<Entry> {
    InsertEntry(ZRem(z, e.member), e)
  }

  /** `ZREVRANGE 0 0`. */
  function ZTop(z: seq<Entry>): Option<Entry> {
    if z == [] then None else Some(z[|z| - 1])
  }

  /** `ZRANGEBYSCORE score score LIMIT 0 1`. */
  function ZFirst(z: seq<Entry>, score: real): Option<Entry> {
    if z == [] then None else if z[0].score == score then Some(z[0]) else ZFirst(z[1..], score)
  }

  predicate Has(z: seq<Entry>, member: string) {
    exists i :: 0 <= i < |z| && z[i].member == member
  }

  lemma {:induction false} ZRemSpec(z: seq<Entry>, member: string)
    requires IsZset(z)
    ensures IsZset(ZRem(z, member)) && !Has(ZRem(z, member), member)
    ensures forall e :: e in ZRem(z, member) ==> e in z && e.member != member
    ensures forall e :: e in z && e.member != member ==> e in ZRem(z, member)
    ensures |ZRem(z, member)| == |z| - (if Has(z, member) then 1 else 0)
  {
    if z != [] {
      assert forall i :: 0 <= i < |z[1..]| ==> z[1..][i] == z[i + 1];
      if z[0].member != member {
        ZRemSpec(z[1..], member);
        var r := ZRem(z[1..], member);
        forall i | 0 <= i < |r| ensures Below(z[0], r[i]) && z[0].member != r[i].member {
          assert r[i] in z[1..];
        }
        assert Has(z, member) <==> Has(z[1..], member) by {
          if i :| 0 <= i < |z| && z[i].member == member {
            assert z[1..][i - 1] == z[i];
          }
        }
      }
    }
  }

  lemma BelowTotal(a: Entry, b: Entry)
    ensures Below(a, b) || Below(b, a)
    ensures Below(a, b) && Below(b, a) ==> a == b
  {
    StringLeTotal(a.member, b.member);
  }

  lemma BelowTransitive(a: Entry, b: Entry, c: Entry)
    requires Below(a, b) && Below(b, c)
    ensures Below(a, c)
  {
    if a.score == b.score == c.score {
      StringLeTransitive(a.member, b.member, c.member);
    }
  }

  lemma ConsIsZset(x: Entry, r: seq<Entry>)
    requires IsZset(r) && forall i :: 0 <= i < |r| ==> Below(x, r[i]) && x.member != r[i].member
    ensures IsZset([x] + r)
  {}

  lemma InsertFirst(z: seq<Entry>, e: Entry)
    requires IsZset(z) && !Has(z, e.member) && z != [] && Below(e, z[0])
    ensures IsZset([e] + z)
  {
    forall i | 0 <= i < |z| ensures Below(e, z[i]) && e.member != z[i].member {
      if i > 0 {
        BelowTransitive(e, z[0], z[i]);
      }
    }
    ConsIsZset(e, z);
  }

  lemma {:induction false} EntryInserted(z: seq<Entry>, e: Entry)
    ensures multiset(InsertEntry(z, e)) == multiset(z) + multiset{e}
  {
    if z != [] && !Below(e, z[0]) {
      EntryInserted(z[1..], e);
      assert z == [z[0]] + z[1..];
    }
  }

  lemma {:induction false} InsertSpec(z: seq<Entry>, e: Entry)
    requires IsZset(z) && !Has(z, e.member)
    ensures IsZset(InsertEntry(z, e))
  {
    if z != [] && Below(e, z[0]) {
      InsertFirst(z, e);
    } else if z != [] {
      var rest := z[1..];
      assert forall i :: 0 <= i < |rest| ==> rest[i] == z[i + 1];
      InsertSpec(rest, e);
      EntryInserted(rest, e);
      var r := InsertEntry(rest, e);
      forall i | 0 <= i < |r| ensures Below(z[0], r[i]) && z[0].member != r[i].member {
        BelowTotal(e, z[0]);
        assert r[i] in multiset(r);
        assert r[i] in rest || r[i] == e;
      }
      ConsIsZset(z[0], r);
    }
  }

  /** The highest score, and the earliest member among those that share it. */
  ghost predicate IsNext(z: seq<Entry>, e: Entry) {
    e in z && forall f :: f in z ==> f.score < e.score || (f.score == e.score && StringLe(e.member, f.member))
  }

  lemma {:induction false} FirstSpec(z: seq<Entry>, score: real)
    requires IsZset(z)
    ensures ZFirst(z, score).Some? ==>
      var e := ZFirst(z, score).value;
      e in z && e.score == score && forall f :: f in z && f.score == score ==> StringLe(e.member, f.member)
    ensures ZFirst(z, score).None? ==> forall f :: f in z ==> f.score != score
  {
    if z != [] {
      assert forall i :: 0 <= i < |z[1..]| ==> z[1..][i] == z[i + 1];
      if z[0].score == score {
        forall f | f in z && f.score == score ensures StringLe(z[0].member, f.member) {
          var i :| 0 <= i < |z| && z[i] == f;
          StringLeTotal(f.member, f.member);
          if i > 0 {
            assert Below(z[0], z[i]);
          }
        }
      } else {
        FirstSpec(z[1..], score);
        assert forall f :: f in z ==> f == z[0] || f in z[1..];
      }
    }
  }

  /** Reading the top and then the first of its score finds the next entry. */
  lemma TopThenFirst(z: seq<Entry>)
    requires IsZset(z) && z != []
    ensures var e := ZFirst(z, ZTop(z).value.score); e.Some? && IsNext(z, e.value)
  {
    var top := z[|z| - 1];
    FirstSpec(z, top.score);
    assert top in z;
    forall f | f in z ensures f.score <= top.score {
      var i :| 0 <= i < |z| && z[i] == f;
      if i < |z| - 1 {
        assert Below(z[i], z[|z| - 1]);
      }
    }
  }

  lemma NextUnique(z: seq<Entry>, a: Entry, b: Entry)
    requires IsNext(z, a) && IsNext(z, b)
    ensures a == b
  {
    StringLeTotal(a.member, b.member);
  }

  // ---------------------------------------------------------------- the store

  datatype PriorityEntry = PriorityEntry(reviewId: string, score: real, ordinal: nat)

  function Encode(p: PriorityEntry): Entry {
    Entry(Member(p.ordinal, p.reviewId), p.score)
  }

  function Decode(e: Entry): PriorityEntry {
    PriorityEntry(MemberReviewId(e.member), e.score, MemberOrdinal(e.member))
  }

  lemma DecodeEncode(p: PriorityEntry)
    ensures Decode(Encode(p)) == p
  {
    MemberRoundTrip(p.ordinal, p.reviewId);
  }

  /** An entry that was enqueued. */
  predicate Encoded(e: Entry) {
    Encode(Decode(e)) == e
  }

  ghost predicate Stored(z: seq<Entry>) {
    IsZset(z) && forall e :: e in z ==> Encoded(e)
  }

  lemma ZAddSpec(z: seq<Entry>, e: Entry)
    requires IsZset(z)
    ensures IsZset(ZAdd(z, e))
    ensures forall f :: f in ZAdd(z, e) ==> f == e || (f in z && f.member != e.member)
    ensures forall f :: f == e || (f in z && f.member != e.member) ==> f in ZAdd(z, e)
  {
    var rest := ZRem(z, e.member);
    ZRemSpec(z, e.member);
    InsertSpec(rest, e);
    EntryInserted(rest, e);
    forall f ensures f in ZAdd(z, e) <==> f == e || f in rest {
      assert f in ZAdd(z, e) <==> f in multiset(rest) + multiset{e};
    }
  }

  class RedisPriorityStore {
    var zset: seq<Entry>

    ghost predicate Valid()
      reads this
    {
      Stored(zset)
    }

    constructor ()
      ensures Valid() && zset == []
    {
      zset := [];
    }

    method Enqueue(reviewId: string, score: real, ordinal: int) returns (error: Option<MemberError>)
      requires Valid()
      modifies this
      ensures Valid()
      ensures error.Some? <==> ordinal < 0
      ensures error.Some? ==> zset == old(zset)
      ensures error.None? ==>
        var e := Encode(PriorityEntry(reviewId, score, ordinal));
        && zset == ZAdd(old(zset), e) && e in zset
        && (forall f :: f in zset && f != e ==> f in old(zset) && f.member != e.member)
        && (forall f :: f in old(zset) && f.member != e.member ==> f in zset)
    {
      var made := MakeMember(ordinal, reviewId);
      if made.Err? {
        return Some(made.error);
      }
      var e := Entry(made.value, score);
      DecodeEncode(PriorityEntry(reviewId, score, ordinal));
      ZAddSpec(zset, e);
      zset := ZAdd(zset, e);
      error := None;
    }

    /** The review with the highest score, the oldest one on ties, is removed and returned. */
    method PopHighest() returns (r: Option<PriorityEntry>)
      requires Valid()
      modifies this
      ensures Valid()
      ensures r.None? <==> old(zset) == []
      ensures r.None? ==> zset == []
      ensures r.Some? ==> IsNext(old(zset), Encode(r.value)) && zset == ZRem(old(zset), Encode(r.value).member)
    {
      var top := ZTop(zset);
      if top.None? {
        return None;
      }
      TopThenFirst(zset);
      var first := ZFirst(zset, top.value.score);
      if first.None? {
        return None;
      }
      var e := first.value;
      ZRemSpec(zset, e.member);
      var removed := Has(zset, e.member);
      zset := ZRem(zset, e.member);
      if !removed {
        return None;
      }
      r := Some(PriorityEntry(MemberReviewId(e.member), e.score, MemberOrdinal(e.member)));
    }
  }

  // ---------------------------------------------------------------- draining

  lemma {:induction false} ZRemPermutes(z: seq<Entry>, e: Entry)
    requires e in z && IsZset(z)
    ensures multiset(z) == multiset(ZRem(z, e.member)) + multiset{e}
  {
    assert z == [z[0]] + z[1..];
    if z[0].member != e.member {
      ZRemPermutes(z[1..], e);
    } else {
      var i :| 0 <= i < |z| && z[i] == e;
      assert i > 0 ==> z[0].member != z[i].member;
    }
  }

  /** What repeated pops return. */
  ghost function Drain(z: seq<Entry>): seq<Entry>
    requires IsZset(z)
    decreases |z|
  {
    if z == [] then []
    else
      TopThenFirst(z);
      var e := ZFirst(z, ZTop(z).value.score).value;
      ZRemSpec(z, e.member);
      ZRemPermutes(z, e);
      assert |z| == |multiset(z)|;
      [e] + Drain(ZRem(z, e.member))
  }

  lemma DrainStep(z: seq<Entry>, e: Entry)
    requires IsZset(z) && IsNext(z, e)
    ensures IsZset(ZRem(z, e.member)) && |ZRem(z, e.member)| < |z|
    ensures Drain(z) == [e] + Drain(ZRem(z, e.member))
  {
    TopThenFirst(z);
    NextUnique(z, e, ZFirst(z, ZTop(z).value.score).value);
    ZRemSpec(z, e.member);
    ZRemPermutes(z, e);
    assert |z| == |multiset(z)|;
  }

  /** Popping until the store answers with nothing: the reviews come out as `Drain` says, and the store is empty. */
  method PopAll(store: RedisPriorityStore) returns (out: seq<PriorityEntry>)
    requires store.Valid()
    modifies store
    ensures store.Valid() && store.zset == []
    ensures EncodeAll(out) == Drain(old(store.zset))
  {
    out := [];
    ghost var (all, z) := (Drain(store.zset), store.zset);
    var next := store.PopHighest();
    while next.Some?
      invariant store.Valid() && IsZset(z) && EncodeAll(out) + Drain(z) == all
      invariant next.None? ==> z == [] && store.zset == []
      invariant next.Some? ==> Popped(z, next.value, store.zset)
      decreases |z|
    {
      PoppedNext(out, z, next.value, store.zset);
      out := out + [next.value];
      z := store.zset;
      next := store.PopHighest();
    }
  }

  /** `rest` is what a pop of `p` leaves. */
  ghost predicate Popped(z: seq<Entry>, p: PriorityEntry, rest: seq<Entry>) {
    IsNext(z, Encode(p)) && rest == ZRem(z, Encode(p).member)
  }

  lemma Regroup(front: seq<Entry>, e: Entry, back: seq<Entry>)
    ensures (front + [e]) + back == front + ([e] + back)
  {}

  lemma PoppedNext(out: seq<PriorityEntry>, z: seq<Entry>, p: PriorityEntry, rest: seq<Entry>)
    requires IsZset(z) && Popped(z, p, rest)
    ensures IsZset(rest) && |rest| < |z|
    ensures EncodeAll(out + [p]) + Drain(rest) == EncodeAll(out) + Drain(z)
  {
    DrainStep(z, Encode(p));
    EncodeAllSnoc(out, p);
    Regroup(EncodeAll(out), Encode(p), Drain(rest));
  }

  lemma EncodeAllSnoc(out: seq<PriorityEntry>, p: PriorityEntry)
    ensures EncodeAll(out + [p]) == EncodeAll(out) + [Encode(p)]
  {
    assert (out + [p])[..|out|] == out;
  }

  lemma {:induction false} DrainPermutes(z: seq<Entry>)
    requires IsZset(z)
    ensures multiset(Drain(z)) == multiset(z)
    decreases |z|
  {
    if z != [] {
      TopThenFirst(z);
      var e := ZFirst(z, ZTop(z).value.score).value;
      ZRemSpec(z, e.member);
      ZRemPermutes(z, e);
      assert |z| == |multiset(z)|;
      DrainPermutes(ZRem(z, e.member));
    }
  }

  /** Higher score first, then the earlier member. */
  predicate Before(a: Entry, b: Entry) {
    a.score > b.score || (a.score == b.score && StringLe(a.member, b.member))
  }

  lemma {:induction false} DrainOrdered(z: seq<Entry>)
    requires IsZset(z)
    ensures forall i, j :: 0 <= i < j < |Drain(z)| ==> Before(Drain(z)[i], Drain(z)[j])
    decreases |z|
  {
    if z != [] {
      TopThenFirst(z);
      var e := ZFirst(z, ZTop(z).value.score).value;
      ZRemSpec(z, e.member);
      ZRemPermutes(z, e);
      assert |z| == |multiset(z)|;
      var rest := ZRem(z, e.member);
      DrainOrdered(rest);
      DrainPermutes(rest);
      forall j | 0 <= j < |Drain(rest)| ensures Before(e, Drain(rest)[j]) {
        assert Drain(rest)[j] in multiset(rest);
      }
    }
  }

  /** The queue after a series of enqueues. */
  function EnqueueAll(entries: seq<PriorityEntry>): seq<Entry> {
    if entries == [] then []
    else ZAdd(EnqueueAll(entries[..|entries| - 1]), Encode(entries[|entries| - 1]))
  }

  /** No two entries share ordinal and review id. */
  ghost predicate DistinctEntries(entries: seq<PriorityEntry>) {
    forall i, j :: 0 <= i < j < |entries| ==>
      entries[i].ordinal != entries[j].ordinal || entries[i].reviewId != entries[j].reviewId
  }

  function EncodeAll(entries: seq<PriorityEntry>): seq<Entry> {
    if entries == [] then [] else EncodeAll(entries[..|entries| - 1]) + [Encode(entries[|entries| - 1])]
  }

  lemma {:induction false} EncodeAllAt(entries: seq<PriorityEntry>)
    ensures |EncodeAll(entries)| == |entries| && forall i :: 0 <= i < |entries| ==>
      EncodeAll(entries)[i] == Encode(entries[i])
  {
    if entries != [] {
      EncodeAllAt(entries[..|entries| - 1]);
    }
  }

  lemma {:induction false} ZRemAbsent(z: seq<Entry>, member: string)
    requires forall i :: 0 <= i < |z| ==> z[i].member != member
    ensures ZRem(z, member) == z
  {
    if z != [] {
      ZRemAbsent(z[1..], member);
      assert z == [z[0]] + z[1..];
    }
  }

  lemma {:induction false} NotYetQueued(z: seq<Entry>, entries: seq<PriorityEntry>, p: PriorityEntry)
    requires multiset(z) == multiset(EncodeAll(entries))
    requires forall k :: 0 <= k < |entries| ==> entries[k].ordinal != p.ordinal || entries[k].reviewId != p.reviewId
    ensures forall i :: 0 <= i < |z| ==> z[i].member != Encode(p).member
  {
    EncodeAllAt(entries);
    MemberRoundTrip(p.ordinal, p.reviewId);
    forall i | 0 <= i < |z| ensures z[i].member != Encode(p).member {
      assert z[i] in multiset(EncodeAll(entries));
      var k :| 0 <= k < |entries| && EncodeAll(entries)[k] == z[i];
      MemberRoundTrip(entries[k].ordinal, entries[k].reviewId);
    }
  }

  lemma {:induction false} EnqueuedIs(entries: seq<PriorityEntry>)
    requires DistinctEntries(entries)
    ensures IsZset(EnqueueAll(entries)) && multiset(EnqueueAll(entries)) == multiset(EncodeAll(entries))
  {
    if entries != [] {
      var (before, last) := (entries[..|entries| - 1], entries[|entries| - 1]);
      var z := EnqueueAll(before);
      EnqueuedIs(before);
      NotYetQueued(z, before, last);
      ZRemAbsent(z, Encode(last).member);
      InsertSpec(z, Encode(last));
      EntryInserted(z, Encode(last));
    }
  }

  /**
    Draining returns exactly what was enqueued, highest score first and in FIFO order among equal
    scores, for ordinals below 10^20.
   */
  lemma DrainIsByScoreThenFifo(entries: seq<PriorityEntry>)
    requires DistinctEntries(entries)
    requires forall i :: 0 <= i < |entries| ==> entries[i].ordinal < Power(ORDINAL_WIDTH)
    ensures IsZset(EnqueueAll(entries))
    ensures
      var out := Drain(EnqueueAll(entries));
      && multiset(out) == multiset(EncodeAll(entries))
      && forall i, j :: 0 <= i < j < |out| ==>
          var (a, b) := (Decode(out[i]), Decode(out[j]));
          a.score > b.score || (a.score == b.score && a.ordinal <= b.ordinal)
  {
    EnqueuedIs(entries);
    var out := Drain(EnqueueAll(entries));
    DrainPermutes(EnqueueAll(entries));
    DrainOrdered(EnqueueAll(entries));
    EncodeAllAt(entries);
    forall i, j | 0 <= i < j < |out|
      ensures var (a, b) := (Decode(out[i]), Decode(out[j]));
              a.score > b.score || (a.score == b.score && a.ordinal <= b.ordinal)
    {
      assert out[i] in multiset(EncodeAll(entries)) && out[j] in multiset(EncodeAll(entries));
      var k :| 0 <= k < |EncodeAll(entries)| && EncodeAll(entries)[k] == out[i];
      var l :| 0 <= l < |EncodeAll(entries)| && EncodeAll(entries)[l] == out[j];
      OrderedAsEncoded(entries[k], entries[l]);
    }
  }

  lemma OrderedAsEncoded(p: PriorityEntry, q: PriorityEntry)
    requires p.ordinal < Power(ORDINAL_WIDTH) && q.ordinal < Power(ORDINAL_WIDTH)
    requires Before(Encode(p), Encode(q))
    ensures Decode(Encode(p)) == p && Decode(Encode(q)) == q
    ensures p.score > q.score || (p.score == q.score && p.ordinal <= q.ordinal)
  {
    DecodeEncode(p);
    DecodeEncode(q);
    MembersOrderAsOrdinals(p.ordinal, p.reviewId, q.ordinal, q.reviewId);
  }
}
