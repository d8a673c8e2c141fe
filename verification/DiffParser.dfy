/**
  `diff_utils.py`: parsing a unified diff into hunks and cutting them into slices. `Parse` reads
  a list of lines hunk by hunk; the line-tracking loop of `parse_patch` is proved against it.
 */
module DiffParser {
  import opened Common
  import opened Text
  import opened Decimal

  // ---------------------------------------------------------------- hunk headers

  /** How many leading characters are digits. */
  function DigitSpan(s: string): (n: nat)
    ensures n <= |s|
  {
    if s == "" || !IsDigit(s[0]) then 0 else 1 + DigitSpan(s[1..])
  }

  datatype Header = Header(oldStart: nat, oldCount: nat, newStart: nat, newCount: nat)

  /** `(\d+)(?:,(\d+))?`: a start and an optional count, which defaults to 1, and what follows. */
  function ParseRange(s: string): Option<(nat, nat, string)> {
    var n := DigitSpan(s);
    if n == 0 then None
    else
      var (start, rest) := (ToNat(s[..n]), s[n..]);
      if rest != "" && rest[0] == ',' && DigitSpan(rest[1..]) != 0 then
        var m := DigitSpan(rest[1..]);
        Some((start, ToNat(rest[1..][..m]), rest[1..][m..]))
      else Some((start, 1, rest))
  }

  /** `^@@ -(\d+)(?:,(\d+))? \+(\d+)(?:,(\d+))? @@(.*)$` on a single line. */
  function ParseHeader(line: string): Option<Header> {
    if !("@@ -" <= line) then None
    else
      match ParseRange(line[4..])
      case None => None
      case Some((oldStart, oldCount, rest)) =>
        if !(" +" <= rest) then None
        else
          match ParseRange(rest[2..])
          case None => None
          case Some((newStart, newCount, tail)) =>
            if " @@" <= tail then Some(Header(oldStart, oldCount, newStart, newCount)) else None
  }

  // ---------------------------------------------------------------- hunks

  /** A hunk before its body lines are joined. */
  datatype RawHunk = RawHunk(text: string, header: Header, lines: seq<string>, added: seq<nat>)

  datatype Hunk = Hunk(header: string, range: Header, added: seq<nat>, body: string)

  function Render(h: RawHunk): Hunk {
    Hunk(h.text, h.header, h.added, Join(h.lines))
  }

  function RenderAll(hs: seq<RawHunk>): (r: seq<Hunk>)
    ensures |r| == |hs| && forall i :: 0 <= i < |r| ==> r[i] == Render(hs[i])
  {
    seq(|hs|, i requires 0 <= i < |hs| => Render(hs[i]))
  }

  predicate IsMarker(line: string) {
    "@@" <= Strip(line)
  }

  predicate Adds(line: string) {
    line != "" && line[0] == '+'
  }

  /** Lines of the new file: added or context. */
  predicate InNewFile(line: string) {
    line != "" && (line[0] == '+' || line[0] == ' ')
  }

  /** Lines kept in a hunk body; anything else between two headers is dropped. */
  predicate IsBodyLine(line: string) {
    line != "" && (line[0] == '+' || line[0] == '-' || line[0] == ' ' || line[0] == '\\')
  }

  /** The length of the run of lines before the next hunk marker. */
  function BodySpan(lines: seq<string>): (n: nat)
    ensures n <= |lines|
    ensures forall i :: 0 <= i < n ==> !IsMarker(lines[i])
    ensures n < |lines| ==> IsMarker(lines[n])
  {
    if lines == [] || IsMarker(lines[0]) then 0 else 1 + BodySpan(lines[1..])
  }

  function Kept(lines: seq<string>): seq<string> {
    if lines == [] then []
    else
      var n := |lines| - 1;
      Kept(lines[..n]) + (if IsBodyLine(lines[n]) then [lines[n]] else [])
  }

  function NewFileCount(lines: seq<string>): nat {
    if lines == [] then 0
    else
      var n := |lines| - 1;
      NewFileCount(lines[..n]) + (if InNewFile(lines[n]) then 1 else 0)
  }

  /** The new-file numbers of the added lines: the start plus the new-file lines before each. */
  function AddedNumbers(lines: seq<string>, start: nat): seq<nat> {
    if lines == [] then []
    else
      var n := |lines| - 1;
      AddedNumbers(lines[..n], start) + (if Adds(lines[n]) then [start + NewFileCount(lines[..n])] else [])
  }

  function MakeHunk(line: string, header: Header, body: seq<string>): RawHunk {
    RawHunk(Strip(line), header, Kept(body), AddedNumbers(Kept(body), header.newStart))
  }

  /** The hunk a marker line opens, if its header is well formed. */
  function OpenHunk(line: string, rest: seq<string>): seq<RawHunk> {
    match ParseHeader(Strip(line))
    case None => []
    case Some(header) => [MakeHunk(line, header, rest[..BodySpan(rest)])]
  }

  /** All hunks of the lines, marker by marker. */
  function Parse(lines: seq<string>): seq<RawHunk> {
    if lines == [] then []
    else (if IsMarker(lines[0]) then OpenHunk(lines[0], lines[1..]) else []) + Parse(lines[1..])
  }

  // ---------------------------------------------------------------- the loop

  /** Lines without a marker contribute no hunk. */
  lemma {:induction false} ParseSkips(lines: seq<string>, n: nat)
    requires n <= |lines| && forall i :: 0 <= i < n ==> !IsMarker(lines[i])
    ensures Parse(lines) == Parse(lines[n..])
  {
    if n > 0 {
      assert lines[1..][n - 1..] == lines[n..];
      ParseSkips(lines[1..], n - 1);
    }
  }

  lemma {:induction false} BodySpanIs(lines: seq<string>, n: nat)
    requires n <= |lines| && (forall i :: 0 <= i < n ==> !IsMarker(lines[i])) && (n < |lines| ==> IsMarker(lines[n]))
    ensures BodySpan(lines) == n
  {
    if n > 0 {
      assert forall i :: 0 <= i < n - 1 ==> lines[1..][i] == lines[i + 1];
      BodySpanIs(lines[1..], n - 1);
    }
  }

  /** The loop's variables: the open hunk, if any, and the new-file position. */
  datatype Tracker = Tracker(open: Option<RawHunk>, newPos: nat)

  /** `flush`: the open hunk is complete. */
  function Flushed(t: Tracker): seq<RawHunk> {
    if t.open.Some? then [t.open.value] else []
  }

  /** The tracker after the lines from marker `h` up to `i`. */
  ghost predicate Tracks(lines: seq<string>, h: nat, i: nat, t: Tracker) {
    && h < i <= |lines| && IsMarker(lines[h])
    && (forall k :: h < k < i ==> !IsMarker(lines[k]))
    && match ParseHeader(Strip(lines[h]))
       case None => t.open == None
       case Some(header) =>
         && t.open == Some(MakeHunk(lines[h], header, lines[h + 1..i]))
         && t.newPos == header.newStart + NewFileCount(Kept(lines[h + 1..i]))
  }

  /** One line of an open hunk: body lines are kept, added lines numbered, new-file lines counted. */
  ghost predicate Tracked(t: Tracker, line: string, t': Tracker)
    requires t.open.Some?
  {
    var h := t.open.value;
    t' == Tracker(Some(h.(lines := h.lines + (if IsBodyLine(line) then [line] else []),
                          added := h.added + (if Adds(line) then [t.newPos] else []))),
                  t.newPos + (if InNewFile(line) then 1 else 0))
  }

  method TrackLine(t: Tracker, line: string) returns (t': Tracker)
    ensures t.open.None? ==> t' == t
    ensures t.open.Some? ==> Tracked(t, line, t')
  {
    t' := t;
    if t.open.None? {
      return;
    }
    var h := t.open.value;
    assert h.lines + [] == h.lines && h.added + [] == h.added;
    if line == "" {
      return;
    }
    if line[0] == '+' {
      t' := Tracker(Some(h.(added := h.added + [t.newPos], lines := h.lines + [line])), t.newPos + 1);
    } else if line[0] == '-' {
      t' := t.(open := Some(h.(lines := h.lines + [line])));
    } else if line[0] == ' ' {
      t' := Tracker(Some(h.(lines := h.lines + [line])), t.newPos + 1);
    } else if line[0] == '\\' {
      t' := t.(open := Some(h.(lines := h.lines + [line])));
    }
  }

  lemma KeptSnoc(body: seq<string>, line: string, start: nat)
    ensures Kept(body + [line]) == Kept(body) + (if IsBodyLine(line) then [line] else [])
    ensures NewFileCount(body + [line]) == NewFileCount(body) + (if InNewFile(line) then 1 else 0)
    ensures AddedNumbers(body + [line], start)
            == AddedNumbers(body, start) + (if Adds(line) then [start + NewFileCount(body)] else [])
  {
    assert (body + [line])[..|body|] == body;
  }

  /** The kept lines of a segment with one more line, and what is counted from them. */
  lemma KeptAdded(body: seq<string>, line: string, start: nat)
    ensures Kept(body + [line]) == Kept(body) + (if IsBodyLine(line) then [line] else [])
    ensures AddedNumbers(Kept(body + [line]), start)
            == AddedNumbers(Kept(body), start) + (if Adds(line) then [start + NewFileCount(Kept(body))] else [])
    ensures NewFileCount(Kept(body + [line])) == NewFileCount(Kept(body)) + (if InNewFile(line) then 1 else 0)
  {
    KeptSnoc(body, line, 0);
    if IsBodyLine(line) {
      KeptSnoc(Kept(body), line, start);
    } else {
      assert Kept(body + [line]) == Kept(body);
    }
  }

  lemma MakeHunkSnoc(line: string, header: Header, body: seq<string>, next: string)
    ensures
      var h := MakeHunk(line, header, body);
      MakeHunk(line, header, body + [next])
      == h.(lines := h.lines + (if IsBodyLine(next) then [next] else []),
            added := h.added + (if Adds(next) then [header.newStart + NewFileCount(Kept(body))] else []))
  {
    KeptAdded(body, next, header.newStart);
  }

  lemma TracksOn(lines: seq<string>, h: nat, i: nat, t: Tracker, t': Tracker)
    requires i < |lines| && Tracks(lines, h, i, t) && !IsMarker(lines[i])
    requires if t.open.None? then t' == t else Tracked(t, lines[i], t')
    ensures Tracks(lines, h, i + 1, t')
  {
    var body := lines[h + 1..i];
    assert lines[h + 1..i + 1] == body + [lines[i]];
    match ParseHeader(Strip(lines[h]))
    case None =>
    case Some(header) =>
      MakeHunkSnoc(lines[h], header, body, lines[i]);
      KeptAdded(body, lines[i], header.newStart);
  }

  /** When the next marker or the end is reached, the tracker holds what `Parse` makes of the segment. */
  lemma SegmentParsed(lines: seq<string>, h: nat, i: nat, t: Tracker)
    requires Tracks(lines, h, i, t) && (i < |lines| ==> IsMarker(lines[i]))
    ensures Parse(lines[h..]) == Flushed(t) + Parse(lines[i..])
  {
    var (rest, n) := (lines[h + 1..], i - h - 1);
    SegmentOf(lines, h, i);
    assert forall k :: 0 <= k < n ==> rest[k] == lines[h + 1 + k];
    BodySpanIs(rest, n);
    ParseSkips(rest, n);
    assert OpenHunk(lines[h], rest) == Flushed(t);
  }

  lemma SegmentOf(lines: seq<string>, h: nat, i: nat)
    requires h < i <= |lines|
    ensures lines[h..][0] == lines[h] && lines[h..][1..] == lines[h + 1..]
    ensures lines[h + 1..][i - h - 1..] == lines[i..] && lines[h + 1..][..i - h - 1] == lines[h + 1..i]
  {}

  lemma HunksGrow(lines: seq<string>, h: nat, i: nat, t: Tracker, hunks: seq<RawHunk>)
    requires Tracks(lines, h, i, t) && (i < |lines| ==> IsMarker(lines[i]))
    requires Parse(lines) == hunks + Parse(lines[h..])
    ensures Parse(lines) == (hunks + Flushed(t)) + Parse(lines[i..])
  {
    SegmentParsed(lines, h, i, t);
    ConcatAssociates(hunks, Flushed(t), Parse(lines[i..]));
  }

  lemma ConcatAssociates<T>(a: seq<T>, b: seq<T>, c: seq<T>)
    ensures a + (b + c) == (a + b) + c
  {}

  /** A marker line starts a fresh tracker: a hunk without lines, or nothing if its header is malformed. */
  method StartHunk(lines: seq<string>, i: nat) returns (t: Tracker)
    requires i < |lines| && IsMarker(lines[i])
    ensures Tracks(lines, i, i + 1, t)
  {
    var header := ParseHeader(Strip(lines[i]));
    assert lines[i + 1..i + 1] == [];
    match header
    case None => t := Tracker(None, 0);
    case Some(fields) => t := Tracker(Some(RawHunk(Strip(lines[i]), fields, [], [])), fields.newStart);
  }

  method ParseLines(lines: seq<string>) returns (hunks: seq<RawHunk>)
    ensures hunks == Parse(lines)
  {
    hunks := [];
    var t := Tracker(None, 0);
    var started := false;
    ghost var h := 0;
    for i := 0 to |lines|
      invariant !started ==> hunks == [] && t.open == None && Parse(lines) == Parse(lines[i..])
      invariant started ==> Tracks(lines, h, i, t) && Parse(lines) == hunks + Parse(lines[h..])
    {
      if IsMarker(lines[i]) {
        if started {
          HunksGrow(lines, h, i, t, hunks);
        }
        assert !started ==> hunks + Flushed(t) == [];
        hunks := hunks + Flushed(t);
        t := StartHunk(lines, i);
        h, started := i, true;
      } else {
        ghost var before := t;
        t := TrackLine(t, lines[i]);
        if started {
          TracksOn(lines, h, i, before, t);
        } else {
          assert lines[i..][1..] == lines[i + 1..];
        }
      }
    }
    if started {
      HunksGrow(lines, h, |lines|, t, hunks);
    }
    assert lines[|lines|..] == [];
    hunks := hunks + Flushed(t);
  }

  /** `parse_patch`. */
  function Hunks(patch: string): seq<Hunk> {
    RenderAll(Parse(SplitLines(patch)))
  }

  method ParsePatch(patch: string) returns (hunks: seq<Hunk>)
    ensures hunks == Hunks(patch)
  {
    var raw := ParseLines(SplitLines(patch));
    hunks := RenderAll(raw);
  }
}
