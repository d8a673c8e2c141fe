/** `pop_highest` as its three Redis commands, interleaved among any number of poppers and enqueues. */
module PriorityRace {
  import opened Common
  import opened Ordering
  import opened PriorityQueue

  /** What a popper knows between its commands. */
  datatype Phase = Idle | SawTop(score: real) | SawFirst(entry: Entry)

  datatype Taken = Taken(popper: nat, entry: Entry)

  /** `enqueued` and `taken` log the enqueues and the successful removals. */
  datatype State = State(zset: seq<Entry>, phases: map<nat, Phase>, enqueued: seq<Entry>, taken: seq<Taken>)

  datatype Label =
    | Enqueue(entry: Entry)
    | ReadTop(popper: nat)
    | ReadFirst(popper: nat)
    | Remove(popper: nat)
    | Crash(popper: nat)

  const EMPTY := State([], map[], [], [])

  function PhaseOf(s: State, w: nat): Phase {
    if w in s.phases then s.phases[w] else Idle
  }

  function Next(s: State, l: Label): State {
    match l
    case Enqueue(e) => s.(zset := ZAdd(s.zset, e), enqueued := s.enqueued + [e])
    case Crash(w) => s.(phases := s.phases[w := Idle])
    case ReadTop(w) =>
      var top := ZTop(s.zset);
      if PhaseOf(s, w).Idle? && top.Some? then s.(phases := s.phases[w := SawTop(top.value.score)]) else s
    case ReadFirst(w) =>
      if !PhaseOf(s, w).SawTop? then s
      else
        var first := ZFirst(s.zset, PhaseOf(s, w).score);
        s.(phases := s.phases[w := if first.Some? then SawFirst(first.value) else Idle])
    case Remove(w) =>
      if !PhaseOf(s, w).SawFirst? then s
      else
        var e := PhaseOf(s, w).entry;
        var done := s.(phases := s.phases[w := Idle]);
        if Has(s.zset, e.member) then done.(zset := ZRem(s.zset, e.member), taken := s.taken + [Taken(w, e)]) else done
  }

  function Run(labels: seq<Label>): State {
    if labels == [] then EMPTY else Next(Run(labels[..|labels| - 1]), labels[|labels| - 1])
  }

  function Entries(taken: seq<Taken>): (r: seq<Entry>)
    ensures |r| == |taken| && forall i :: 0 <= i < |r| ==> r[i] == taken[i].entry
  {
    seq(|taken|, i requires 0 <= i < |taken| => taken[i].entry)
  }

  /** No member is enqueued twice. */
  ghost predicate FreshMembers(es: seq<Entry>) {
    forall i, j :: 0 <= i < j < |es| ==> es[i].member != es[j].member
  }

  ghost predicate Conserved(s: State) {
    multiset(Entries(s.taken)) + multiset(s.zset) == multiset(s.enqueued)
  }

  /** What a popper has seen was enqueued. */
  ghost predicate SeenAreReal(s: State) {
    forall w :: PhaseOf(s, w).SawFirst? ==> PhaseOf(s, w).entry in s.enqueued
  }

  ghost predicate Inv(s: State) {
    IsZset(s.zset) && Conserved(s) && SeenAreReal(s)
  }

  lemma PresentWasEnqueued(s: State, e: Entry)
    requires Conserved(s) && e in s.zset
    ensures e in s.enqueued
  {
    assert e in multiset(s.zset);
    assert e in multiset(s.enqueued);
  }

  lemma FreshAgree(es: seq<Entry>, a: Entry, b: Entry)
    requires FreshMembers(es) && a in es && b in es && a.member == b.member
    ensures a == b
  {
    var i :| 0 <= i < |es| && es[i] == a;
    var j :| 0 <= j < |es| && es[j] == b;
    if i < j {
      assert es[i].member != es[j].member;
    }
  }

  lemma EnqueueKeeps(s: State, e: Entry)
    requires Inv(s) && FreshMembers(s.enqueued + [e])
    ensures Inv(Next(s, Enqueue(e)))
  {
    var more := s.enqueued + [e];
    forall i | 0 <= i < |s.zset| ensures s.zset[i].member != e.member {
      PresentWasEnqueued(s, s.zset[i]);
      var k :| 0 <= k < |s.enqueued| && s.enqueued[k] == s.zset[i];
      assert more[k].member != more[|s.enqueued|].member;
    }
    ZRemAbsent(s.zset, e.member);
    InsertSpec(s.zset, e);
    EntryInserted(s.zset, e);
    var s' := Next(s, Enqueue(e));
    forall w | PhaseOf(s', w).SawFirst? ensures PhaseOf(s', w).entry in s'.enqueued {
      assert PhaseOf(s', w) == PhaseOf(s, w);
    }
  }

  /** Only the popper that moves changes what it has seen. */
  lemma PhaseSet(s: State, w: nat, p: Phase, v: nat)
    ensures PhaseOf(s.(phases := s.phases[w := p]), v) == if v == w then p else PhaseOf(s, v)
  {}

  lemma SeenKept(s: State, s': State, w: nat, p: Phase)
    requires SeenAreReal(s) && s'.phases == s.phases[w := p] && s'.enqueued == s.enqueued
    requires p.SawFirst? ==> p.entry in s.enqueued
    ensures SeenAreReal(s')
  {
    forall v | PhaseOf(s', v).SawFirst? ensures PhaseOf(s', v).entry in s'.enqueued {
      PhaseSet(s, w, p, v);
      assert PhaseOf(s', v) == if v == w then p else PhaseOf(s, v);
    }
  }

  /** The entry queued under the member a popper saw is the entry it saw. */
  lemma SeenIsQueued(s: State, w: nat)
    requires Inv(s) && FreshMembers(s.enqueued) && PhaseOf(s, w).SawFirst? && Has(s.zset, PhaseOf(s, w).entry.member)
    ensures PhaseOf(s, w).entry in s.zset
  {
    var e := PhaseOf(s, w).entry;
    var i :| 0 <= i < |s.zset| && s.zset[i].member == e.member;
    PresentWasEnqueued(s, s.zset[i]);
    FreshAgree(s.enqueued, s.zset[i], e);
  }

  lemma TakenMoves(z: seq<Entry>, taken: seq<Taken>, w: nat, e: Entry)
    requires IsZset(z) && e in z
    ensures IsZset(ZRem(z, e.member))
    ensures multiset(Entries(taken + [Taken(w, e)])) + multiset(ZRem(z, e.member)) == multiset(Entries(taken))
      + multiset(z)
  {
    ZRemSpec(z, e.member);
    ZRemPermutes(z, e);
    assert Entries(taken + [Taken(w, e)]) == Entries(taken) + [e];
  }

  lemma RemoveKeeps(s: State, w: nat)
    requires Inv(s) && FreshMembers(s.enqueued)
    ensures Inv(Next(s, Remove(w)))
  {
    if PhaseOf(s, w).SawFirst? {
      var e := PhaseOf(s, w).entry;
      SeenKept(s, Next(s, Remove(w)), w, Idle);
      if Has(s.zset, e.member) {
        SeenIsQueued(s, w);
        TakenMoves(s.zset, s.taken, w, e);
      }
    }
  }

  lemma ReadKeeps(s: State, w: nat)
    requires Inv(s)
    ensures Inv(Next(s, ReadTop(w))) && Inv(Next(s, ReadFirst(w))) && Inv(Next(s, Crash(w)))
  {
    SeenKept(s, Next(s, Crash(w)), w, Idle);
    if PhaseOf(s, w).Idle? && s.zset != [] {
      SeenKept(s, Next(s, ReadTop(w)), w, SawTop(ZTop(s.zset).value.score));
    }
    if PhaseOf(s, w).SawTop? {
      var first := ZFirst(s.zset, PhaseOf(s, w).score);
      FirstSpec(s.zset, PhaseOf(s, w).score);
      if first.Some? {
        PresentWasEnqueued(s, first.value);
      }
      SeenKept(s, Next(s, ReadFirst(w)), w, if first.Some? then SawFirst(first.value) else Idle);
    }
  }

  lemma EnqueuedGrows(s: State, l: Label)
    requires FreshMembers(Next(s, l).enqueued)
    ensures FreshMembers(s.enqueued)
  {
    if l.Enqueue? {
      assert forall i :: 0 <= i < |s.enqueued| ==> (s.enqueued + [l.entry])[i] == s.enqueued[i];
    }
  }

  /** However poppers and fresh enqueues interleave, what was taken and what remains is what was enqueued. */
  lemma {:induction false} NothingLostOrDoubled(labels: seq<Label>)
    requires FreshMembers(Run(labels).enqueued)
    ensures Inv(Run(labels))
  {
    if labels == [] {
      assert Run(labels) == EMPTY;
    } else {
      var (before, l) := (Run(labels[..|labels| - 1]), labels[|labels| - 1]);
      EnqueuedGrows(before, l);
      NothingLostOrDoubled(labels[..|labels| - 1]);
      match l
      case Enqueue(e) => EnqueueKeeps(before, e);
      case Remove(w) => RemoveKeeps(before, w);
      case other => ReadKeeps(before, other.popper);
    }
  }

  /** No member goes to two poppers, or twice to one, and none that was taken is still queued. */
  lemma TakenAtMostOnce(labels: seq<Label>, i: nat, j: nat)
    requires FreshMembers(Run(labels).enqueued)
    requires i < j < |Run(labels).taken|
    ensures Run(labels).taken[i].entry.member != Run(labels).taken[j].entry.member
    ensures !Has(Run(labels).zset, Run(labels).taken[i].entry.member)
  {
    var s := Run(labels);
    NothingLostOrDoubled(labels);
    var all := Entries(s.taken) + s.zset;
    assert multiset(all) == multiset(s.enqueued);
    OnceEach(all, s.enqueued);
    assert all[i] == s.taken[i].entry && all[j] == s.taken[j].entry;
    forall k | 0 <= k < |s.zset| ensures s.zset[k].member != s.taken[i].entry.member {
      assert all[|s.taken| + k] == s.zset[k];
    }
  }

  /** A rearrangement of fresh members is fresh. */
  lemma OnceEach(all: seq<Entry>, es: seq<Entry>)
    requires multiset(all) == multiset(es) && FreshMembers(es)
    ensures FreshMembers(all)
  {
    var key := (e: Entry) => e.member;
    assert DistinctBy(key, es);
    DistinctByPermutes(key, es, all);
  }

  /** Without interference the three commands are one pop. */
  lemma AlonePopsNext(s: State, w: nat)
    requires IsZset(s.zset) && s.zset != [] && PhaseOf(s, w) == Idle
    ensures
      var s' := Next(Next(Next(s, ReadTop(w)), ReadFirst(w)), Remove(w));
      && |s'.taken| == |s.taken| + 1 && s'.taken[..|s.taken|] == s.taken && s'.taken[|s.taken|].popper == w
      && var e := s'.taken[|s.taken|].entry;
         IsNext(s.zset, e) && s'.zset == ZRem(s.zset, e.member)
  {
    TopThenFirst(s.zset);
  }

  /** What a popper has seen was enqueued once, so it is either still queued or taken, not both. */
  lemma QueuedOrTaken(s: State, e: Entry)
    requires Inv(s) && FreshMembers(s.enqueued) && e in s.enqueued
    ensures e in s.zset <==> e !in Entries(s.taken)
  {
    var key := (x: Entry) => x.member;
    assert DistinctBy(key, s.enqueued);
    OnceIn(key, s.enqueued, e);
    assert e in multiset(s.enqueued);
    assert multiset(Entries(s.taken))[e] + multiset(s.zset)[e] == 1;
    assert e in s.zset <==> e in multiset(s.zset);
    assert e in Entries(s.taken) <==> e in multiset(Entries(s.taken));
  }

  /** When the last command of a pop removes nothing: exactly when the entry it saw was taken in between. */
  lemma RemoveMissesIff(labels: seq<Label>, w: nat)
    requires FreshMembers(Run(labels).enqueued) && PhaseOf(Run(labels), w).SawFirst?
    ensures
      var s := Run(labels);
      Next(s, Remove(w)).taken == s.taken <==> PhaseOf(s, w).entry in Entries(s.taken)
  {
    var s := Run(labels);
    var e := PhaseOf(s, w).entry;
    NothingLostOrDoubled(labels);
    QueuedOrTaken(s, e);
    if Has(s.zset, e.member) {
      SeenIsQueued(s, w);
    }
  }

  /** When the middle command finds nothing: exactly when all that was enqueued with the score it saw was taken. */
  lemma ReadFirstMissesIff(labels: seq<Label>, w: nat)
    requires FreshMembers(Run(labels).enqueued) && PhaseOf(Run(labels), w).SawTop?
    ensures
      var s := Run(labels);
      PhaseOf(Next(s, ReadFirst(w)), w) == Idle <==>
      forall e :: e in s.enqueued && e.score == PhaseOf(s, w).score ==> e in Entries(s.taken)
  {
    var s := Run(labels);
    var score := PhaseOf(s, w).score;
    NothingLostOrDoubled(labels);
    FirstSpec(s.zset, score);
    forall e | e in s.enqueued && e.score == score ensures e in s.zset <==> e !in Entries(s.taken) {
      QueuedOrTaken(s, e);
    }
    if ZFirst(s.zset, score).Some? {
      var e := ZFirst(s.zset, score).value;
      PresentWasEnqueued(s, e);
      assert e !in Entries(s.taken);
    }
  }

  /** When the first command finds nothing: exactly when everything enqueued was taken. */
  lemma ReadTopMissesIff(labels: seq<Label>, w: nat)
    requires FreshMembers(Run(labels).enqueued) && PhaseOf(Run(labels), w) == Idle
    ensures
      var s := Run(labels);
      PhaseOf(Next(s, ReadTop(w)), w) == Idle <==> forall e :: e in s.enqueued ==> e in Entries(s.taken)
  {
    var s := Run(labels);
    NothingLostOrDoubled(labels);
    forall e | e in s.enqueued ensures e in s.zset <==> e !in Entries(s.taken) {
      QueuedOrTaken(s, e);
    }
    if s.zset != [] {
      PresentWasEnqueued(s, s.zset[0]);
      assert s.zset[0] !in Entries(s.taken);
    }
  }

  lemma RunSnoc(labels: seq<Label>, l: Label)
    ensures Run(labels + [l]) == Next(Run(labels), l)
  {
    assert (labels + [l])[..|labels|] == labels;
  }

  /** Two enqueues, and two poppers whose reads come before either removal. */
  function BothRead(a: Entry, b: Entry): seq<Label> {
    [] + [Enqueue(a)] + [Enqueue(b)] + [ReadTop(0)] + [ReadTop(1)] + [ReadFirst(0)] + [ReadFirst(1)]
  }

  lemma BothSeeTheSame(a: Entry, b: Entry)
    requires a.score < b.score && a.member != b.member
    ensures
      var s := Run(BothRead(a, b));
      && s.zset == [a, b] && s.taken == []
      && PhaseOf(s, 0) == SawFirst(b) && PhaseOf(s, 1) == SawFirst(b)
  {
    var queued := [] + [Enqueue(a)] + [Enqueue(b)];
    RunSnoc([], Enqueue(a));
    RunSnoc([] + [Enqueue(a)], Enqueue(b));
    assert [a][1..] == [] && ZRem([a], b.member) == [a] && InsertEntry([], b) == [b];
    assert ZAdd([], a) == [a] && ZAdd([a], b) == [a, b];
    assert ZFirst([a, b], b.score) == ZFirst([b], b.score) == Some(b);
    RunSnoc(queued, ReadTop(0));
    RunSnoc(queued + [ReadTop(0)], ReadTop(1));
    RunSnoc(queued + [ReadTop(0)] + [ReadTop(1)], ReadFirst(0));
    RunSnoc(queued + [ReadTop(0)] + [ReadTop(1)] + [ReadFirst(0)], ReadFirst(1));
  }

  /** A pop that comes back empty-handed although a review is queued: the other popper took what both saw. */
  lemma PopMayMiss(a: Entry, b: Entry)
    requires a.score < b.score && a.member != b.member
    ensures
      var s := Run(BothRead(a, b) + [Remove(0)] + [Remove(1)]);
      s.taken == [Taken(0, b)] && s.zset == [a] && PhaseOf(s, 1) == Idle
  {
    BothSeeTheSame(a, b);
    RunSnoc(BothRead(a, b), Remove(0));
    RunSnoc(BothRead(a, b) + [Remove(0)], Remove(1));
    assert [a, b][1].member == b.member && ZRem([a, b], b.member) == [a];
  }
}
