/** `consolidate.py`: dropping invalid findings and exact duplicates, and the ids of what is kept. */
module Normalisation {
  import opened Common
  import opened Decimal
  import opened Grouping
  import opened GroupingCanonical

  datatype Severity = Info | Low | Medium | High | Critical

  /** A finding that passed the strict contract of `AgentFinding`. */
  datatype AgentFinding = AgentFinding(
    path: string,
    lineStart: Option<int>,
    lineEnd: Option<int>,
    category: string,
    severity: Severity,
    confidence: real,
    title: string,
    description: string)

  /** One item of an agent's output, or `None` where the contract rejects it. */
  datatype Input = Input(agentKey: string, finding: Option<AgentFinding>)

  datatype Drop = Invalid(agentKey: string) | ExactDuplicate(agentKey: string, category: string, path: string,
                                                             line: Option<int>)

  predicate BarFree(s: string) {
    forall i :: 0 <= i < |s| ==> s[i] != '|'
  }

  // ---------------------------------------------------------------- content hash

  function Escape(s: string): string {
    if s == "" then ""
    else (if s[0] == '|' then "xb" else if s[0] == 'x' then "xx" else [s[0]]) + Escape(s[1..])
  }

  function Unescape(s: string): string {
    if s == "" then ""
    else if s[0] == 'x' && |s| > 1 then [if s[1] == 'b' then '|' else s[1]] + Unescape(s[2..])
    else [s[0]] + Unescape(s[1..])
  }

  lemma {:induction false} EscapeInverts(s: string)
    ensures Unescape(Escape(s)) == s && BarFree(Escape(s))
  {
    if s != "" {
      EscapeInverts(s[1..]);
      var front := if s[0] == '|' then "xb" else if s[0] == 'x' then "xx" else [s[0]];
      assert Escape(s)[|front|..] == Escape(s[1..]);
      assert s == [s[0]] + s[1..];
    }
  }

  lemma EscapeIsHash()
    ensures forall x, y :: Escape(x) == Escape(y) ==> x == y
    ensures forall x :: BarFree(Escape(x))
  {
    forall x, y | Escape(x) == Escape(y) ensures x == y {
      EscapeInverts(x);
      EscapeInverts(y);
    }
    forall x ensures BarFree(Escape(x)) {
      EscapeInverts(x);
    }
  }

  /** A hexadecimal SHA-256 digest: no bar in it, and no two texts share it. */
  type Hash = f: string -> string | forall x, y :: BarFree(f(x)) && (f(x) == f(y) ==> x == y)
    witness (EscapeIsHash(); (x: string) => Escape(x))

  // ---------------------------------------------------------------- texts

  function SeverityText(s: Severity): (r: string)
    ensures BarFree(r)
  {
    match s
    case Info => "INFO"
    case Low => "LOW"
    case Medium => "MEDIUM"
    case High => "HIGH"
    case Critical => "CRITICAL"
  }

  function IntText(n: int): string {
    if n < 0 then "-" + Format(-n, 1) else Format(n, 1)
  }

  /** A line number as an f-string prints it. */
  function LineText(line: Option<int>): string {
    if line.None? then "None" else IntText(line.value)
  }

  function BlankOrLine(line: Option<int>): string {
    if line.None? then "" else IntText(line.value)
  }

  function PlainText(f: AgentFinding): string {
    f.category + " | " + (f.title + " | " + f.description + " | " + f.path + " | " + BlankOrLine(f.lineStart) + " | "
                          + BlankOrLine(f.lineEnd))
  }

  datatype Key = Key(agentKey: string, path: string, lineStart: Option<int>, lineEnd: Option<int>, category: string,
                     digest: string)

  function KeyOf(hash: Hash, x: Input): Option<Key> {
    if x.finding.None? then None
    else
      var f := x.finding.value;
      Some(Key(x.agentKey, f.path, f.lineStart, f.lineEnd, f.category, hash(PlainText(f))))
  }

  function Tail(f: AgentFinding): string {
    f.path + "|" + LineText(f.lineStart) + "|" + LineText(f.lineEnd) + "|" + SeverityText(f.severity)
  }

  /** The text an id is derived from. */
  function RawId(reviewId: string, agentKey: string, digest: string, f: AgentFinding): string {
    reviewId + ("|" + (agentKey + "|" + (digest + "|" + (f.category + "|" + Tail(f)))))
  }

  function IdOf(reviewId: string, hash: Hash, uuid5: Digest, agentKey: string, f: AgentFinding): string {
    uuid5(RawId(reviewId, agentKey, hash(PlainText(f)), f))
  }

  function Write(reviewId: string, hash: Hash, uuid5: Digest, x: Input): Finding
    requires x.finding.Some?
  {
    var f := x.finding.value;
    Finding(IdOf(reviewId, hash, uuid5, x.agentKey, f), x.agentKey, reviewId, f.path, f.lineStart, f.lineEnd,
            f.category, SeverityText(f.severity), f.confidence, None)
  }

  /** The row repeats what the agent reported and belongs to no group yet. */
  ghost predicate Carries(reviewId: string, x: Input, row: Finding) {
    && x.finding.Some? && row.agentKey == x.agentKey && row.reviewId == reviewId
    && var f := x.finding.value;
       && row.path == f.path && row.lineStart == f.lineStart && row.lineEnd == f.lineEnd
       && row.category == f.category && row.confidence == f.confidence && row.duplicateGroup == None
  }

  /** The rows written for valid inputs, in order. */
  ghost predicate AreRows(reviewId: string, hash: Hash, uuid5: Digest, inputs: seq<Input>, rows: seq<Finding>) {
    |rows| == |inputs| && forall i :: 0 <= i < |inputs| ==> IsRow(reviewId, hash, uuid5, inputs[i], rows[i])
  }

  ghost predicate IsRow(reviewId: string, hash: Hash, uuid5: Digest, x: Input, row: Finding) {
    x.finding.Some? && row == Write(reviewId, hash, uuid5, x)
  }

  // ---------------------------------------------------------------- first occurrences

  /** The dedupe key of every input; invalid ones have none. */
  function Keys(hash: Hash, inputs: seq<Input>): (r: seq<Option<Key>>)
    ensures |r| == |inputs| && forall i :: 0 <= i < |r| ==> r[i] == KeyOf(hash, inputs[i])
  {
    seq(|inputs|, i requires 0 <= i < |inputs| => KeyOf(hash, inputs[i]))
  }

  /** Valid, and the first of its key. */
  predicate IsFirst(keys: seq<Option<Key>>, i: nat)
    requires i < |keys|
  {
    keys[i].Some? && keys[i] !in keys[..i]
  }

  /** The positions kept among the first `n`. */
  function Firsts(keys: seq<Option<Key>>, n: nat): (r: seq<nat>)
    requires n <= |keys|
    ensures forall i :: 0 <= i < |r| ==> r[i] < n
  {
    if n == 0 then [] else Firsts(keys, n - 1) + (if IsFirst(keys, n - 1) then [n - 1] else [])
  }

  function Select(inputs: seq<Input>, positions: seq<nat>): (r: seq<Input>)
    requires forall i :: 0 <= i < |positions| ==> positions[i] < |inputs|
    ensures |r| == |positions| && forall i :: 0 <= i < |r| ==> r[i] == inputs[positions[i]]
  {
    seq(|positions|, i requires 0 <= i < |positions| => inputs[positions[i]])
  }

  /** The inputs kept among the first `n`. */
  function Kept(hash: Hash, inputs: seq<Input>, n: nat): seq<Input>
    requires n <= |inputs|
  {
    Select(inputs, Firsts(Keys(hash, inputs), n))
  }

  lemma KeptSnoc(hash: Hash, inputs: seq<Input>, n: nat)
    requires n < |inputs|
    ensures Kept(hash, inputs, n + 1) == Kept(hash, inputs, n)
      + (if IsFirst(Keys(hash, inputs), n) then [inputs[n]] else [])
  {}

  /** Why the other inputs among the first `n` were dropped, in input order. */
  function Drops(keys: seq<Option<Key>>, inputs: seq<Input>, n: nat): (r: seq<Drop>)
    requires n <= |inputs| == |keys|
  {
    if n == 0 then []
    else
      var (x, before) := (inputs[n - 1], Drops(keys, inputs, n - 1));
      if IsFirst(keys, n - 1) then before
      else if x.finding.None? then before + [Invalid(x.agentKey)]
      else before + [ExactDuplicate(x.agentKey, x.finding.value.category, x.finding.value.path,
                                    x.finding.value.lineStart)]
  }

  /** The keys of the valid inputs so far. */
  ghost predicate Seen(seen: set<Key>, keys: seq<Option<Key>>) {
    forall k :: k in seen <==> Some(k) in keys
  }

  /** The loop's variables after `n` inputs. */
  ghost predicate Progress(hash: Hash, inputs: seq<Input>, n: nat, kept: seq<Input>, errors: seq<Drop>,
                           seen: set<Key>) {
    && n <= |inputs| && kept == Kept(hash, inputs, n) && errors == Drops(Keys(hash, inputs), inputs, n)
    && Seen(seen, Keys(hash, inputs)[..n])
  }

  lemma FirstIffUnseen(seen: set<Key>, keys: seq<Option<Key>>, n: nat)
    requires n < |keys| && Seen(seen, keys[..n])
    ensures IsFirst(keys, n) <==> keys[n].Some? && keys[n].value !in seen
    ensures !IsFirst(keys, n) ==> Seen(seen, keys[..n + 1])
    ensures IsFirst(keys, n) ==> Seen(seen + {keys[n].value}, keys[..n + 1])
  {
    assert keys[..n + 1] == keys[..n] + [keys[n]];
  }

  lemma DropNext(hash: Hash, inputs: seq<Input>, n: nat, kept: seq<Input>, errors: seq<Drop>, seen: set<Key>,
                 drop: Drop)
    requires Progress(hash, inputs, n, kept, errors, seen) && n < |inputs|
    requires KeyOf(hash, inputs[n]).Some? ==> KeyOf(hash, inputs[n]).value in seen
    requires
      var x := inputs[n];
      drop == if x.finding.None? then Invalid(x.agentKey)
              else ExactDuplicate(x.agentKey, x.finding.value.category, x.finding.value.path, x.finding.value.lineStart)
    ensures Progress(hash, inputs, n + 1, kept, errors + [drop], seen)
  {
    FirstIffUnseen(seen, Keys(hash, inputs), n);
    KeptSnoc(hash, inputs, n);
  }

  lemma KeepNext(hash: Hash, inputs: seq<Input>, n: nat, kept: seq<Input>, errors: seq<Drop>, seen: set<Key>)
    requires Progress(hash, inputs, n, kept, errors, seen) && n < |inputs|
    requires KeyOf(hash, inputs[n]).Some? && KeyOf(hash, inputs[n]).value !in seen
    ensures Progress(hash, inputs, n + 1, kept + [inputs[n]], errors, seen + {KeyOf(hash, inputs[n]).value})
  {
    FirstIffUnseen(seen, Keys(hash, inputs), n);
    KeptSnoc(hash, inputs, n);
  }

  method MakeKey(inputs: seq<Input>, n: nat, hash: Hash) returns (key: Option<Key>)
    requires n < |inputs|
    ensures key == KeyOf(hash, inputs[n]) && (key.Some? <==> inputs[n].finding.Some?)
  {
    key := KeyOf(hash, inputs[n]);
  }

  method MakeRow(reviewId: string, hash: Hash, uuid5: Digest, x: Input) returns (row: Finding)
    requires x.finding.Some?
    ensures IsRow(reviewId, hash, uuid5, x, row)
  {
    row := Write(reviewId, hash, uuid5, x);
  }

  method NormaliseFindings(reviewId: string, inputs: seq<Input>, hash: Hash, uuid5: Digest)
    returns (findings: seq<Finding>, dropped: nat, errors: seq<Drop>)
    ensures AreRows(reviewId, hash, uuid5, Kept(hash, inputs, |inputs|), findings)
    ensures errors == Drops(Keys(hash, inputs), inputs, |inputs|) && dropped == |errors|
    ensures |findings| + dropped == |inputs|
    ensures forall k :: 0 <= k < |findings| ==> Carries(reviewId, Kept(hash, inputs, |inputs|)[k], findings[k])
    ensures Kept(hash, inputs, |inputs|) == Select(inputs, Firsts(Keys(hash, inputs), |inputs|))
    ensures forall i :: 0 <= i < |inputs| && inputs[i].finding.Some? ==>
      (i !in Firsts(Keys(hash, inputs), |inputs|) <==> HasTwin(inputs, i))
  {
    findings, dropped, errors := [], 0, [];
    var seen: set<Key> := {};
    ghost var kept: seq<Input> := [];
    for n := 0 to |inputs|
      invariant Progress(hash, inputs, n, kept, errors, seen)
      invariant AreRows(reviewId, hash, uuid5, kept, findings)
      invariant dropped == |errors| && |findings| + dropped == n
    {
      var x := inputs[n];
      var key := MakeKey(inputs, n, hash);
      if key.None? {
        DropNext(hash, inputs, n, kept, errors, seen, Invalid(x.agentKey));
        dropped, errors := dropped + 1, errors + [Invalid(x.agentKey)];
      } else if key.value in seen {
        var f := x.finding.value;
        var drop := ExactDuplicate(x.agentKey, f.category, f.path, f.lineStart);
        DropNext(hash, inputs, n, kept, errors, seen, drop);
        dropped, errors := dropped + 1, errors + [drop];
      } else {
        KeepNext(hash, inputs, n, kept, errors, seen);
        seen := seen + {key.value};
        var row := MakeRow(reviewId, hash, uuid5, x);
        RowsSnoc(reviewId, hash, uuid5, kept, findings, x, row);
        findings, kept := findings + [row], kept + [x];
      }
    }
    RowsCarry(reviewId, hash, uuid5, kept, findings);
    forall i | 0 <= i < |inputs| && inputs[i].finding.Some?
      ensures i !in Firsts(Keys(hash, inputs), |inputs|) <==> HasTwin(inputs, i)
    {
      DuplicateIff(hash, inputs, i);
    }
  }

  lemma RowsCarry(reviewId: string, hash: Hash, uuid5: Digest, inputs: seq<Input>, rows: seq<Finding>)
    requires AreRows(reviewId, hash, uuid5, inputs, rows)
    ensures forall k :: 0 <= k < |rows| ==> Carries(reviewId, inputs[k], rows[k])
  {
    forall k | 0 <= k < |rows| ensures Carries(reviewId, inputs[k], rows[k]) {
      assert IsRow(reviewId, hash, uuid5, inputs[k], rows[k]);
    }
  }

  lemma RowsSnoc(reviewId: string, hash: Hash, uuid5: Digest, inputs: seq<Input>, rows: seq<Finding>, x: Input,
                 row: Finding)
    requires AreRows(reviewId, hash, uuid5, inputs, rows) && IsRow(reviewId, hash, uuid5, x, row)
    ensures AreRows(reviewId, hash, uuid5, inputs + [x], rows + [row])
  {}

  /** The kept positions are exactly the first valid occurrences, in input order. */
  lemma {:induction false} FirstsAre(keys: seq<Option<Key>>, n: nat)
    requires n <= |keys|
    ensures var r := Firsts(keys, n);
      && (forall i :: 0 <= i < |r| ==> IsFirst(keys, r[i]))
      && (forall i, j :: 0 <= i < j < |r| ==> r[i] < r[j])
      && (forall k :: 0 <= k < n && IsFirst(keys, k) ==> k in r)
  {
    if n > 0 {
      FirstsAre(keys, n - 1);
    }
  }

  /** Kept keys are pairwise distinct. */
  lemma KeptKeysDistinct(keys: seq<Option<Key>>, i: nat, j: nat)
    requires i < j < |Firsts(keys, |keys|)|
    ensures keys[Firsts(keys, |keys|)[i]].Some? && keys[Firsts(keys, |keys|)[i]] != keys[Firsts(keys, |keys|)[j]]
  {
    FirstsAre(keys, |keys|);
    var (a, b) := (Firsts(keys, |keys|)[i], Firsts(keys, |keys|)[j]);
    assert IsFirst(keys, a) && IsFirst(keys, b);
    assert keys[..b][a] == keys[a];
  }

  // ---------------------------------------------------------------- ids

  /** Two texts that agree and have their first bar after `a` and `b` agree on both sides of it. */
  lemma SplitAtBar(a: string, x: string, b: string, y: string)
    requires BarFree(a) && BarFree(b) && a + "|" + x == b + "|" + y
    ensures a == b && x == y
  {
    var (s, t) := (a + "|" + x, b + "|" + y);
    assert s[|a|] == '|' && t[|b|] == '|';
    assert s[..|a|] == a && t[..|b|] == b;
    assert s[|a| + 1..] == x && t[|b| + 1..] == y;
  }

  lemma SplitAtLastBar(x: string, a: string, y: string, b: string)
    requires BarFree(a) && BarFree(b) && x + "|" + a == y + "|" + b
    ensures a == b && x == y
  {
    var (s, t) := (x + "|" + a, y + "|" + b);
    var n := |s|;
    assert s[n - 1 - |a|] == '|' && t[n - 1 - |b|] == '|';
    assert s[..|x|] == x && t[..|y|] == y;
    assert s[|x| + 1..] == a && t[|y| + 1..] == b;
  }

  /** The category ends at a bar in the id text and at a blank in the hashed text, so both texts pin it down. */
  lemma SameCategory(c: string, x: string, v: string, d: string, y: string, w: string)
    requires c + "|" + x == d + "|" + y && c + " | " + v == d + " | " + w
    ensures c == d && x == y
  {
    var (s, t) := (c + "|" + x, d + "|" + y);
    var (p, q) := (c + " | " + v, d + " | " + w);
    assert s[|c|] == '|' && p[|c|] == ' ' && t[|d|] == '|' && q[|d|] == ' ';
    assert s[..|c|] == c && t[..|d|] == d;
    assert s[|c| + 1..] == x && t[|d| + 1..] == y;
  }

  lemma LineTextReads(line: Option<int>)
    ensures BarFree(LineText(line))
    ensures line.Some? ==>
      var s := LineText(line);
      && s != ""
      && (line.value < 0 ==> s[0] == '-' && ToNat(s[1..]) == -line.value)
      && (0 <= line.value ==> IsDigit(s[0]) && ToNat(s) == line.value)
  {
    if line.Some? {
      var n := if line.value < 0 then -line.value else line.value;
      FormatReads(n, 1);
      assert Format(n, 1) != "";
      assert ("-" + Format(n, 1))[1..] == Format(n, 1);
    }
  }

  lemma LineTextInjective(a: Option<int>, b: Option<int>)
    requires LineText(a) == LineText(b)
    ensures a == b
  {
    LineTextReads(a);
    LineTextReads(b);
  }

  lemma TailInjective(f: AgentFinding, g: AgentFinding)
    requires Tail(f) == Tail(g)
    ensures f.path == g.path && f.lineStart == g.lineStart && f.lineEnd == g.lineEnd
  {
    LineTextReads(f.lineStart);
    LineTextReads(g.lineStart);
    LineTextReads(f.lineEnd);
    LineTextReads(g.lineEnd);
    SplitAtLastBar(f.path + "|" + LineText(f.lineStart) + "|" + LineText(f.lineEnd), SeverityText(f.severity),
                   g.path + "|" + LineText(g.lineStart) + "|" + LineText(g.lineEnd), SeverityText(g.severity));
    SplitAtLastBar(f.path + "|" + LineText(f.lineStart), LineText(f.lineEnd), g.path + "|" + LineText(g.lineStart),
                   LineText(g.lineEnd));
    SplitAtLastBar(f.path, LineText(f.lineStart), g.path, LineText(g.lineStart));
    LineTextInjective(f.lineStart, g.lineStart);
    LineTextInjective(f.lineEnd, g.lineEnd);
  }

  lemma RawIdFields(reviewId: string, a: string, h: string, f: AgentFinding, b: string, k: string, g: AgentFinding)
    requires BarFree(a) && BarFree(b) && BarFree(h) && BarFree(k)
    requires RawId(reviewId, a, h, f) == RawId(reviewId, b, k, g)
    ensures a == b && h == k && f.category + "|" + Tail(f) == g.category + "|" + Tail(g)
  {
    var (u, v) := (f.category + "|" + Tail(f), g.category + "|" + Tail(g));
    AfterPrefix(reviewId, "|" + (a + "|" + (h + "|" + u)), "|" + (b + "|" + (k + "|" + v)));
    AfterPrefix("|", a + "|" + (h + "|" + u), b + "|" + (k + "|" + v));
    SplitAtBar(a, h + "|" + u, b, k + "|" + v);
    SplitAtBar(h, u, k, v);
  }

  /** Findings of different reviews never share an id, as long as review ids contain no bar. */
  lemma ReviewsShareNoId(reviewId: string, other: string, hash: Hash, uuid5: Digest, a: string, f: AgentFinding,
                         b: string, g: AgentFinding)
    requires BarFree(reviewId) && BarFree(other) && reviewId != other
    ensures IdOf(reviewId, hash, uuid5, a, f) != IdOf(other, hash, uuid5, b, g)
  {
    var (x, y) := (RawId(reviewId, a, hash(PlainText(f)), f), RawId(other, b, hash(PlainText(g)), g));
    var (u, v) := (a + "|" + (hash(PlainText(f)) + "|" + (f.category + "|" + Tail(f))),
                   b + "|" + (hash(PlainText(g)) + "|" + (g.category + "|" + Tail(g))));
    if x == y {
      Regroup(reviewId, u);
      Regroup(other, v);
      SplitAtBar(reviewId, u, other, v);
    }
  }

  lemma Regroup(a: string, u: string)
    ensures a + ("|" + u) == a + "|" + u
  {}

  lemma AfterPrefix(front: string, x: string, y: string)
    requires front + x == front + y
    ensures x == y
  {
    assert (front + x)[|front|..] == x && (front + y)[|front|..] == y;
  }

  /**
    Findings of one review with the same id have the same dedupe key, whatever bars their categories and
    paths contain.
   */
  lemma SameIdSameKey(reviewId: string, hash: Hash, uuid5: Digest, a: string, f: AgentFinding, b: string,
                      g: AgentFinding)
    requires BarFree(a) && BarFree(b)
    requires IdOf(reviewId, hash, uuid5, a, f) == IdOf(reviewId, hash, uuid5, b, g)
    ensures KeyOf(hash, Input(a, Some(f))) == KeyOf(hash, Input(b, Some(g)))
  {
    RawIdFields(reviewId, a, hash(PlainText(f)), f, b, hash(PlainText(g)), g);
    assert PlainText(f) == PlainText(g);
    CategoriesOf(f, g);
    TailInjective(f, g);
  }

  /** An id stands for the agent, the place, the category, the text and the severity, and for nothing else. */
  lemma SameIdIff(reviewId: string, hash: Hash, uuid5: Digest, a: string, f: AgentFinding, b: string, g: AgentFinding)
    requires BarFree(a) && BarFree(b)
    ensures IdOf(reviewId, hash, uuid5, a, f) == IdOf(reviewId, hash, uuid5, b, g) <==>
      && a == b && f.path == g.path && f.lineStart == g.lineStart && f.lineEnd == g.lineEnd
      && f.category == g.category && f.title + " | " + f.description == g.title + " | " + g.description
      && f.severity == g.severity
  {
    SameKeyIff(hash, Input(a, Some(f)), Input(b, Some(g)));
    if IdOf(reviewId, hash, uuid5, a, f) == IdOf(reviewId, hash, uuid5, b, g) {
      SameIdSameKey(reviewId, hash, uuid5, a, f, b, g);
      RawIdFields(reviewId, a, hash(PlainText(f)), f, b, hash(PlainText(g)), g);
      AfterPrefix(f.category + "|", Tail(f), Tail(g));
      SeverityOfTail(f, g);
    }
  }

  lemma SeverityOfTail(f: AgentFinding, g: AgentFinding)
    requires Tail(f) == Tail(g)
    ensures f.severity == g.severity
  {
    SplitAtLastBar(f.path + "|" + LineText(f.lineStart) + "|" + LineText(f.lineEnd), SeverityText(f.severity),
                   g.path + "|" + LineText(g.lineStart) + "|" + LineText(g.lineEnd), SeverityText(g.severity));
    SeverityTextInjective(f.severity, g.severity);
  }

  lemma SeverityTextInjective(s: Severity, t: Severity)
    requires SeverityText(s) == SeverityText(t)
    ensures s == t
  {
    var (x, y) := (SeverityText(s), SeverityText(t));
    assert x[0] == y[0] && |x| == |y|;
  }

  lemma CategoriesOf(f: AgentFinding, g: AgentFinding)
    requires PlainText(f) == PlainText(g) && f.category + "|" + Tail(f) == g.category + "|" + Tail(g)
    ensures f.category == g.category && Tail(f) == Tail(g)
  {
    var v := f.title + " | " + f.description + " | " + f.path + " | " + BlankOrLine(f.lineStart) + " | "
      + BlankOrLine(f.lineEnd);
    var w := g.title + " | " + g.description + " | " + g.path + " | " + BlankOrLine(g.lineStart) + " | "
      + BlankOrLine(g.lineEnd);
    SameCategory(f.category, Tail(f), v, g.category, Tail(g), w);
  }

  lemma DifferentKeys(reviewId: string, hash: Hash, uuid5: Digest, a: Input, b: Input)
    requires a.finding.Some? && b.finding.Some? && BarFree(a.agentKey) && BarFree(b.agentKey)
    requires KeyOf(hash, a) != KeyOf(hash, b)
    ensures IdOf(reviewId, hash, uuid5, a.agentKey, a.finding.value) != IdOf(reviewId, hash, uuid5, b.agentKey,
                                                                             b.finding.value)
  {
    var (f, g) := (a.finding.value, b.finding.value);
    assert a == Input(a.agentKey, Some(f)) && b == Input(b.agentKey, Some(g));
    if IdOf(reviewId, hash, uuid5, a.agentKey, f) == IdOf(reviewId, hash, uuid5, b.agentKey, g) {
      SameIdSameKey(reviewId, hash, uuid5, a.agentKey, f, b.agentKey, g);
    }
  }

  /**
    The kept findings have distinct ids and belong to one review, so grouping can start from them with
    any embeddings.
   */
  lemma KeptAreFresh(reviewId: string, hash: Hash, uuid5: Digest, inputs: seq<Input>, items: seq<Item>)
    requires forall i :: 0 <= i < |inputs| ==> BarFree(inputs[i].agentKey)
    requires |items| == |Kept(hash, inputs, |inputs|)|
    requires forall i :: 0 <= i < |items| ==> IsRow(reviewId, hash, uuid5, Kept(hash, inputs, |inputs|)[i], items[i].f)
    ensures FreshItems(items)
  {
    var kept := Kept(hash, inputs, |inputs|);
    forall i, j | 0 <= i < j < |items| ensures items[i].f.id != items[j].f.id {
      assert IsRow(reviewId, hash, uuid5, kept[i], items[i].f) && IsRow(reviewId, hash, uuid5, kept[j], items[j].f);
      KeptKeysDistinct(Keys(hash, inputs), i, j);
      DifferentKeys(reviewId, hash, uuid5, kept[i], kept[j]);
    }
  }

  // ---------------------------------------------------------------- running it again

  lemma {:induction false} AllFirst(keys: seq<Option<Key>>, inputs: seq<Input>, n: nat)
    requires n <= |inputs| == |keys| && forall i :: 0 <= i < |keys| ==> IsFirst(keys, i)
    ensures Drops(keys, inputs, n) == [] && |Firsts(keys, n)| == n
    ensures forall i :: 0 <= i < n ==> Firsts(keys, n)[i] == i
  {
    if n > 0 {
      AllFirst(keys, inputs, n - 1);
    }
  }

  lemma KeptAllFirst(keys: seq<Option<Key>>, kept: seq<Option<Key>>)
    requires |kept| == |Firsts(keys, |keys|)| && forall i :: 0 <= i < |kept| ==>
      kept[i] == keys[Firsts(keys, |keys|)[i]]
    ensures forall i :: 0 <= i < |kept| ==> IsFirst(kept, i)
  {
    FirstsAre(keys, |keys|);
    forall i | 0 <= i < |kept| ensures IsFirst(kept, i) {
      assert IsFirst(keys, Firsts(keys, |keys|)[i]);
      forall j | 0 <= j < i ensures kept[j] != kept[i] {
        KeptKeysDistinct(keys, j, i);
      }
    }
  }

  /** Normalising what was kept keeps all of it, in the same order, and drops nothing. */
  lemma NormaliseTwice(hash: Hash, inputs: seq<Input>)
    ensures
      var kept := Kept(hash, inputs, |inputs|);
      Kept(hash, kept, |kept|) == kept && Drops(Keys(hash, kept), kept, |kept|) == []
  {
    var kept := Kept(hash, inputs, |inputs|);
    KeptAllFirst(Keys(hash, inputs), Keys(hash, kept));
    AllFirst(Keys(hash, kept), kept, |kept|);
  }

  // ---------------------------------------------------------------- what a duplicate is

  lemma BeforeSuffix(x: string, y: string, back: string)
    requires x + back == y + back
    ensures x == y
  {
    assert (x + back)[..|x|] == x && (y + back)[..|y|] == y;
  }

  lemma PlainTextSplits(f: AgentFinding)
    ensures
      PlainText(f) == (f.category + " | ") + ((f.title + " | " + f.description)
        + (" | " + f.path + " | " + BlankOrLine(f.lineStart) + " | " + BlankOrLine(f.lineEnd)))
  {}

  /** At the same place and in the same category, the hashed texts differ in title and description only. */
  lemma SameTextIff(f: AgentFinding, g: AgentFinding)
    requires f.category == g.category && f.path == g.path && f.lineStart == g.lineStart && f.lineEnd == g.lineEnd
    ensures PlainText(f) == PlainText(g) <==> f.title + " | " + f.description == g.title + " | " + g.description
  {
    PlainTextSplits(f);
    PlainTextSplits(g);
    if PlainText(f) == PlainText(g) {
      var back := " | " + f.path + " | " + BlankOrLine(f.lineStart) + " | " + BlankOrLine(f.lineEnd);
      var (x, y) := (f.title + " | " + f.description, g.title + " | " + g.description);
      AfterPrefix(f.category + " | ", x + back, y + back);
      BeforeSuffix(x, y, back);
    }
  }

  lemma SameKeyIff(hash: Hash, x: Input, y: Input)
    requires x.finding.Some? && y.finding.Some?
    ensures
      var (f, g) := (x.finding.value, y.finding.value);
      KeyOf(hash, x) == KeyOf(hash, y) <==>
        && x.agentKey == y.agentKey && f.path == g.path && f.lineStart == g.lineStart && f.lineEnd == g.lineEnd
        && f.category == g.category && f.title + " | " + f.description == g.title + " | " + g.description
  {
    var (f, g) := (x.finding.value, y.finding.value);
    if f.category == g.category && f.path == g.path && f.lineStart == g.lineStart && f.lineEnd == g.lineEnd {
      SameTextIff(f, g);
    }
  }

  /**
    Some earlier valid input of the same agent agrees with input `i` in path, lines, category and text, whatever
    their severities and confidences.
   */
  ghost predicate HasTwin(inputs: seq<Input>, i: nat)
    requires i < |inputs| && inputs[i].finding.Some?
  {
    var f := inputs[i].finding.value;
    exists j :: 0 <= j < i && inputs[j].finding.Some? && inputs[j].agentKey == inputs[i].agentKey
      && var g := inputs[j].finding.value;
         && g.path == f.path && g.lineStart == f.lineStart && g.lineEnd == f.lineEnd && g.category == f.category
         && g.title + " | " + g.description == f.title + " | " + f.description
  }

  /** A valid finding is dropped if and only if it has an earlier twin. */
  lemma {:induction false} DuplicateIff(hash: Hash, inputs: seq<Input>, i: nat)
    requires i < |inputs| && inputs[i].finding.Some?
    ensures i !in Firsts(Keys(hash, inputs), |inputs|) <==> HasTwin(inputs, i)
  {
    var keys := Keys(hash, inputs);
    FirstsAre(keys, |inputs|);
    assert i in Firsts(keys, |inputs|) <==> IsFirst(keys, i);
    if keys[i] in keys[..i] {
      var j :| 0 <= j < i && keys[j] == keys[i];
      SameKeyIff(hash, inputs[j], inputs[i]);
    }
    forall j | 0 <= j < i && inputs[j].finding.Some? ensures keys[j] == KeyOf(hash, inputs[j]) {
      SameKeyIff(hash, inputs[j], inputs[i]);
    }
    if j :| 0 <= j < i && inputs[j].finding.Some? && KeyOf(hash, inputs[j]) == KeyOf(hash, inputs[i]) {
      assert keys[..i][j] == keys[i];
    }
  }

  /** Inputs of which each is the first of its key are all kept. */
  lemma {:induction false} AllKept(hash: Hash, inputs: seq<Input>, keys: seq<Option<Key>>)
    requires keys == Keys(hash, inputs) && forall i :: 0 <= i < |keys| ==> IsFirst(keys, i)
    ensures Kept(hash, inputs, |inputs|) == inputs
  {
    AllFirst(keys, inputs, |inputs|);
  }

  lemma TwoFirst(keys: seq<Option<Key>>, a: Option<Key>, b: Option<Key>)
    requires keys == [a, b] && a.Some? && b.Some? && a != b
    ensures forall i :: 0 <= i < |keys| ==> IsFirst(keys, i)
  {
    assert keys[..1] == [a];
  }

  lemma {:induction false} TwoKept(hash: Hash, both: seq<Input>)
    requires |both| == 2 && both[0].finding.Some? && both[1].finding.Some?
    requires KeyOf(hash, both[0]) != KeyOf(hash, both[1])
    ensures Kept(hash, both, 2) == both
  {
    var keys := Keys(hash, both);
    TwoFirst(keys, KeyOf(hash, both[0]), KeyOf(hash, both[1]));
    AllKept(hash, both, keys);
  }

  lemma OneTextDiffers(a: string, b: string, c: string, d: string)
    requires (a != c && b == d) || (a == c && b != d)
    ensures a + " | " + b != c + " | " + d
  {
    if a + " | " + b == c + " | " + d {
      if a == c {
        AfterPrefix(a + " | ", b, d);
      } else {
        assert a + (" | " + b) == a + " | " + b && c + (" | " + d) == c + " | " + d;
        BeforeSuffix(a, c, " | " + b);
      }
    }
  }

  /** Two findings that differ in their titles only, or in their descriptions only, are both kept. */
  lemma {:induction false} DifferentTextsAreKept(hash: Hash, agent: string, f: AgentFinding, g: AgentFinding)
    requires g == f.(title := g.title) || g == f.(description := g.description)
    requires f.title != g.title || f.description != g.description
    ensures
      var both := [Input(agent, Some(f)), Input(agent, Some(g))];
      Kept(hash, both, 2) == both
  {
    OneTextDiffers(f.title, f.description, g.title, g.description);
    SameKeyIff(hash, Input(agent, Some(f)), Input(agent, Some(g)));
    TwoKept(hash, [Input(agent, Some(f)), Input(agent, Some(g))]);
  }
}
