/** Orders on strings and stable sorting, as Python's `sorted` provides them. */
module Ordering {

  /** Code-point lexicographic order: `a <= b` on Python strings. */
  predicate StringLe(a: string, b: string) {
    a == "" || (b != "" && (a[0] < b[0] || (a[0] == b[0] && StringLe(a[1..], b[1..]))))
  }

  lemma StringLeTotal(a: string, b: string)
    ensures StringLe(a, b) || StringLe(b, a)
    ensures StringLe(a, b) && StringLe(b, a) ==> a == b
  {
    if a != "" && b != "" && a[0] == b[0] {
      StringLeTotal(a[1..], b[1..]);
      if StringLe(a, b) && StringLe(b, a) {
        assert a == [a[0]] + a[1..] && b == [b[0]] + b[1..];
      }
    }
  }

  lemma StringLeTransitive(a: string, b: string, c: string)
    requires StringLe(a, b) && StringLe(b, c)
    ensures StringLe(a, c)
  {
    if a != "" && a[0] == b[0] && b[0] == c[0] {
      StringLeTransitive(a[1..], b[1..], c[1..]);
    }
  }

  /** Strings compare by their first difference, and a prefix comes before what it begins. */
  lemma {:induction false} StringLeIff(a: string, b: string)
    ensures StringLe(a, b) <==>
      a <= b || exists k :: 0 <= k < |a| && k < |b| && a[..k] == b[..k] && a[k] < b[k]
  {
    if a != "" && b != "" && a[0] == b[0] {
      StringLeIff(a[1..], b[1..]);
      assert a == [a[0]] + a[1..] && b == [b[0]] + b[1..];
      if k :| 0 <= k < |a| - 1 && k < |b| - 1 && a[1..][..k] == b[1..][..k] && a[1..][k] < b[1..][k] {
        assert a[..k + 1] == [a[0]] + a[1..][..k] && b[..k + 1] == [b[0]] + b[1..][..k];
        assert a[k + 1] < b[k + 1];
      }
      if k :| 0 <= k < |a| && k < |b| && a[..k] == b[..k] && a[k] < b[k] {
        assert k > 0;
        assert a[1..][..k - 1] == a[..k][1..] && b[1..][..k - 1] == b[..k][1..];
      }
    } else if a != "" && b != "" && a[0] < b[0] {
      assert a[..0] == b[..0];
    } else if a != "" && b != "" {
      if k :| 0 <= k < |a| && k < |b| && a[..k] == b[..k] && a[k] < b[k] {
        assert k > 0 ==> a[..k][0] == b[..k][0];
      }
    }
  }

  /** Inserts before the first element that does not come earlier, so ties keep their order. */
  function Insert<T>(le: (T, T) -> bool, x: T, s: seq<T>): seq<T> {
    if |s| == 0 || le(x, s[0]) then [x] + s else [s[0]] + Insert(le, x, s[1..])
  }

  /** Stable sort. */
  function Sort<T>(le: (T, T) -> bool, s: seq<T>): seq<T> {
    if |s| == 0 then [] else Insert(le, s[0], Sort(le, s[1..]))
  }

  ghost predicate Sorted<T>(le: (T, T) -> bool, s: seq<T>) {
    forall i, j :: 0 <= i < j < |s| ==> le(s[i], s[j])
  }

  /** `le` is total and transitive on the elements of `s`. */
  ghost predicate PreordersAll<T>(le: (T, T) -> bool, s: seq<T>) {
    && (forall x, y {:trigger le(x, y)} :: x in s && y in s ==> le(x, y) || le(y, x))
    && (forall x, y, z {:trigger le(x, y), le(y, z)} :: x in s && y in s && z in s && le(x, y) && le(y, z) ==> le(x, z))
  }

  /** Two elements of `s` that tie are the same element. */
  ghost predicate SeparatesAll<T>(le: (T, T) -> bool, s: seq<T>) {
    forall x, y {:trigger le(x, y)} :: x in s && y in s && le(x, y) && le(y, x) ==> x == y
  }

  lemma InsertPermutes<T>(le: (T, T) -> bool, x: T, s: seq<T>)
    ensures multiset(Insert(le, x, s)) == multiset{x} + multiset(s)
    ensures |Insert(le, x, s)| == 1 + |s|
  {
    if |s| != 0 && !le(x, s[0]) {
      InsertPermutes(le, x, s[1..]);
      assert s == [s[0]] + s[1..];
    }
  }

  lemma SortPermutes<T>(le: (T, T) -> bool, s: seq<T>)
    ensures multiset(Sort(le, s)) == multiset(s)
    ensures |Sort(le, s)| == |s|
  {
    if |s| != 0 {
      SortPermutes(le, s[1..]);
      InsertPermutes(le, s[0], Sort(le, s[1..]));
      assert s == [s[0]] + s[1..];
    }
  }

  lemma SameElements<T>(s: seq<T>, t: seq<T>)
    requires multiset(s) == multiset(t)
    ensures |s| == |t|
    ensures forall x :: x in s ==> x in t
    ensures forall x :: x in t ==> x in s
  {
    assert |s| == |multiset(s)| == |multiset(t)| == |t|;
    forall x ensures x in s <==> x in t {
      assert x in s <==> x in multiset(s);
      assert x in t <==> x in multiset(t);
    }
  }

  /** Both order properties pass to any list of elements of `s`. */
  lemma OrdersRestrict<T>(le: (T, T) -> bool, s: seq<T>, t: seq<T>)
    requires forall y :: y in t ==> y in s
    ensures PreordersAll(le, s) ==> PreordersAll(le, t)
    ensures SeparatesAll(le, s) ==> SeparatesAll(le, t)
  {
  }

  lemma {:induction false} InsertSorts<T>(le: (T, T) -> bool, x: T, s: seq<T>)
    requires PreordersAll(le, [x] + s) && Sorted(le, s)
    ensures Sorted(le, Insert(le, x, s))
  {
    assert x in [x] + s;
    if |s| != 0 {
      assert s[0] in [x] + s;
      if le(x, s[0]) {
        PrependSorted(le, x, s);
      } else {
        assert le(s[0], x);
        OrdersRestrict(le, [x] + s, [x] + s[1..]);
        InsertSorts(le, x, s[1..]);
        InsertPermutes(le, x, s[1..]);
        var tail := Insert(le, x, s[1..]);
        forall y | y in tail ensures le(s[0], y) {
          assert y in multiset(tail);
        }
      }
    }
  }

  lemma PrependSorted<T>(le: (T, T) -> bool, x: T, s: seq<T>)
    requires PreordersAll(le, [x] + s) && Sorted(le, s)
    requires |s| != 0 && le(x, s[0])
    ensures Sorted(le, [x] + s)
  {
    var r := [x] + s;
    assert r[0] == x && r[1] == s[0];
    forall i, j | 0 <= i < j < |r| ensures le(r[i], r[j]) {
      assert r[i] in r && r[j] in r;
      if i == 0 && j > 1 {
        assert le(s[0], s[j - 1]);
      }
    }
  }

  lemma {:induction false} SortSorts<T>(le: (T, T) -> bool, s: seq<T>)
    requires PreordersAll(le, s)
    ensures Sorted(le, Sort(le, s))
  {
    if |s| != 0 {
      OrdersRestrict(le, s, s[1..]);
      SortSorts(le, s[1..]);
      SortPermutes(le, s[1..]);
      var tail := Sort(le, s[1..]);
      SameElements(tail, s[1..]);
      forall y | y in [s[0]] + tail ensures y in s {
        assert y == s[0] || y in tail;
      }
      OrdersRestrict(le, s, [s[0]] + tail);
      InsertSorts(le, s[0], tail);
    }
  }

  /** A sorted arrangement without ties is determined by its multiset of elements. */
  lemma {:induction false} SortedUnique<T>(le: (T, T) -> bool, s: seq<T>, t: seq<T>)
    requires multiset(s) == multiset(t)
    requires Sorted(le, s) && Sorted(le, t) && SeparatesAll(le, s)
    ensures s == t
  {
    SameElements(s, t);
    if |s| != 0 {
      SameFirst(le, s, t);
      RestElements(s);
      RestElements(t);
      OrdersRestrict(le, s, s[1..]);
      SortedTail(le, s);
      SortedTail(le, t);
      SortedUnique(le, s[1..], t[1..]);
      assert s == [s[0]] + s[1..] && t == [t[0]] + t[1..];
    }
  }

  lemma SortedTail<T>(le: (T, T) -> bool, s: seq<T>)
    requires |s| != 0 && Sorted(le, s)
    ensures Sorted(le, s[1..])
  {
  }

  lemma RestElements<T>(s: seq<T>)
    requires |s| != 0
    ensures multiset(s[1..]) == multiset(s) - multiset{s[0]}
    ensures forall y :: y in s[1..] ==> y in s
  {
    assert s == [s[0]] + s[1..];
  }

  lemma SameFirst<T>(le: (T, T) -> bool, s: seq<T>, t: seq<T>)
    requires |s| == |t| != 0 && t[0] in s && s[0] in t
    requires Sorted(le, s) && Sorted(le, t) && SeparatesAll(le, s)
    ensures s[0] == t[0]
  {
    var i :| 0 <= i < |t| && t[i] == s[0];
    var j :| 0 <= j < |s| && s[j] == t[0];
    if i != 0 && j != 0 {
      assert le(t[0], t[i]) && le(s[0], s[j]);
    }
  }

  /** What a stable sort by a tie-free order promises, as one fact. */
  lemma SortSpec<T>(le: (T, T) -> bool, s: seq<T>)
    requires PreordersAll(le, s)
    ensures Sorted(le, Sort(le, s)) && multiset(Sort(le, s)) == multiset(s)
    ensures SeparatesAll(le, s) ==> SeparatesAll(le, Sort(le, s))
  {
    SortSorts(le, s);
    SortPermutes(le, s);
    SameElements(s, Sort(le, s));
    OrdersRestrict(le, s, Sort(le, s));
  }

  /** Sorting forgets the input order when no two elements tie. */
  lemma SortCanonical<T>(le: (T, T) -> bool, s: seq<T>, t: seq<T>)
    requires multiset(s) == multiset(t)
    requires PreordersAll(le, s) && SeparatesAll(le, s)
    ensures Sort(le, s) == Sort(le, t)
  {
    SameElements(s, t);
    OrdersRestrict(le, s, t);
    SortSpec(le, s);
    SortSpec(le, t);
    SortedUnique(le, Sort(le, s), Sort(le, t));
  }

  /** Two orders that agree on the elements sort them alike, ties included. */
  lemma {:induction false} SortAgrees<T>(le: (T, T) -> bool, le': (T, T) -> bool, s: seq<T>)
    requires forall x, y {:trigger le(x, y)} {:trigger le'(x, y)} :: x in s && y in s ==> le(x, y) == le'(x, y)
    ensures Sort(le, s) == Sort(le', s)
  {
    if |s| != 0 {
      assert forall y :: y in s[1..] ==> y in s;
      SortAgrees(le, le', s[1..]);
      SortPermutes(le, s[1..]);
      SameElements(Sort(le, s[1..]), s[1..]);
      forall y | y in Sort(le, s[1..]) ensures le(s[0], y) == le'(s[0], y) {
        assert y in s[1..] && s[0] in s;
      }
      InsertAgrees(le, le', s[0], Sort(le, s[1..]));
    }
  }

  lemma {:induction false} InsertAgrees<T>(le: (T, T) -> bool, le': (T, T) -> bool, x: T, s: seq<T>)
    requires forall y :: y in s ==> le(x, y) == le'(x, y)
    ensures Insert(le, x, s) == Insert(le', x, s)
  {
    if |s| != 0 {
      assert s[0] in s;
      assert forall y :: y in s[1..] ==> y in s;
      InsertAgrees(le, le', x, s[1..]);
    }
  }

  // ---------------------------------------------------------------- distinct keys

  ghost predicate DistinctBy<T, K>(key: T -> K, s: seq<T>) {
    forall i, j :: 0 <= i < j < |s| ==> key(s[i]) != key(s[j])
  }

  lemma TwiceIn<T>(s: seq<T>, i: nat, j: nat)
    requires i < j < |s| && s[i] == s[j]
    ensures multiset(s)[s[i]] >= 2
  {
    assert s == s[..j] + [s[j]] + s[j + 1..];
    assert s[i] in s[..j];
  }

  lemma {:induction false} OnceIn<T, K>(key: T -> K, s: seq<T>, x: T)
    requires DistinctBy(key, s)
    ensures multiset(s)[x] <= 1
  {
    if |s| != 0 {
      var n := |s| - 1;
      OnceIn(key, s[..n], x);
      assert s == s[..n] + [s[n]];
      if x == s[n] {
        assert x !in s[..n];
      }
    }
  }

  /** Rearranging a list keeps its keys distinct. */
  lemma DistinctByPermutes<T, K>(key: T -> K, s: seq<T>, t: seq<T>)
    requires multiset(s) == multiset(t) && DistinctBy(key, s)
    ensures DistinctBy(key, t)
  {
    SameElements(s, t);
    forall i, j | 0 <= i < j < |t| ensures key(t[i]) != key(t[j]) {
      if key(t[i]) == key(t[j]) {
        assert t[i] in t && t[j] in t;
        var a :| 0 <= a < |s| && s[a] == t[i];
        var b :| 0 <= b < |s| && s[b] == t[j];
        assert a == b;
        TwiceIn(t, i, j);
        OnceIn(key, s, t[i]);
      }
    }
  }
}
