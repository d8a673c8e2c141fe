/** Hunk headers as text: which lines are headers, and which numbers they announce. */
module DiffHeader {
  import opened Common
  import opened Text
  import opened Decimal
  import opened DiffParser
  import opened DiffRoundTrip

  ghost predicate Digits(s: string) {
    s != "" && forall i :: 0 <= i < |s| ==> IsDigit(s[i])
  }

  /** A start, and a count if one is written. */
  function RangeText(start: string, count: Option<string>): string {
    start + (if count.Some? then "," + count.value else "")
  }

  function HeaderLine(before: string, after: string, tail: string): string {
    "@@ -" + (before + (" +" + (after + (" @@" + tail))))
  }

  function CountOf(count: Option<string>): nat {
    if count.Some? then ToNat(count.value) else 1
  }

  ghost predicate GoodRange(start: string, count: Option<string>) {
    Digits(start) && (count.Some? ==> Digits(count.value))
  }

  // ---------------------------------------------------------------- reading what was written

  lemma {:induction false} SpanOfDigits(s: string, rest: string)
    requires forall i :: 0 <= i < |s| ==> IsDigit(s[i])
    requires rest == "" || !IsDigit(rest[0])
    ensures DigitSpan(s + rest) == |s|
  {
    if s == "" {
      assert s + rest == rest;
    } else {
      assert (s + rest)[1..] == s[1..] + rest;
      SpanOfDigits(s[1..], rest);
    }
  }

  lemma RangeReads(start: string, count: Option<string>, rest: string)
    requires GoodRange(start, count) && rest != "" && !IsDigit(rest[0]) && rest[0] != ','
    ensures ParseRange(RangeText(start, count) + rest) == Some((ToNat(start), CountOf(count), rest))
  {
    var s := RangeText(start, count) + rest;
    var behind := (if count.Some? then "," + count.value else "") + rest;
    assert s == start + behind;
    SpanOfDigits(start, behind);
    assert s[..|start|] == start && s[|start|..] == behind;
    if count.Some? {
      assert behind[1..] == count.value + rest;
      SpanOfDigits(count.value, rest);
      assert (count.value + rest)[..|count.value|] == count.value && (count.value + rest)[|count.value|..] == rest;
    } else {
      assert behind == rest;
    }
  }

  lemma Behind(front: string, rest: string)
    ensures front <= front + rest && (front + rest)[|front|..] == rest
  {}

  /** A header line announces the numbers written in it; a missing count is 1. */
  lemma HeaderReads(a: string, b: Option<string>, c: string, d: Option<string>, tail: string)
    requires GoodRange(a, b) && GoodRange(c, d)
    ensures ParseHeader(HeaderLine(RangeText(a, b), RangeText(c, d), tail))
         == Some(Header(ToNat(a), CountOf(b), ToNat(c), CountOf(d)))
  {
    var last := " @@" + tail;
    var mid := " +" + (RangeText(c, d) + last);
    Behind("@@ -", RangeText(a, b) + mid);
    RangeReads(a, b, mid);
    Behind(" +", RangeText(c, d) + last);
    RangeReads(c, d, last);
    Behind(" @@", tail);
  }

  lemma FormatDigits(n: nat)
    ensures Digits(Format(n, 1)) && ToNat(Format(n, 1)) == n
  {
    FormatReads(n, 1);
  }

  /** The same for numbers as they are usually printed. */
  lemma WrittenHeaderReads(o: nat, c: nat, n: nat, k: nat, tail: string)
    ensures ParseHeader("@@ -" + Format(o, 1) + "," + Format(c, 1) + " +" + Format(n, 1) + "," + Format(k, 1) + " @@"
                        + tail) == Some(Header(o, c, n, k))
    ensures ParseHeader("@@ -" + Format(o, 1) + " +" + Format(n, 1) + "," + Format(k, 1) + " @@" + tail)
         == Some(Header(o, 1, n, k))
    ensures ParseHeader("@@ -" + Format(o, 1) + "," + Format(c, 1) + " +" + Format(n, 1) + " @@" + tail)
         == Some(Header(o, c, n, 1))
    ensures ParseHeader("@@ -" + Format(o, 1) + " +" + Format(n, 1) + " @@" + tail) == Some(Header(o, 1, n, 1))
  {
    var (a, b, x, y) := (Format(o, 1), Format(c, 1), Format(n, 1), Format(k, 1));
    FormatDigits(o);
    FormatDigits(c);
    FormatDigits(n);
    FormatDigits(k);
    HeaderReads(a, Some(b), x, Some(y), tail);
    HeaderReads(a, None, x, Some(y), tail);
    HeaderReads(a, Some(b), x, None, tail);
    HeaderReads(a, None, x, None, tail);
    PiecesOfHeader(a, b, x, y, tail);
  }

  lemma PiecesOfHeader(a: string, b: string, x: string, y: string, tail: string)
    ensures "@@ -" + a + "," + b + " +" + x + "," + y + " @@" + tail
         == HeaderLine(RangeText(a, Some(b)), RangeText(x, Some(y)), tail)
    ensures "@@ -" + a + " +" + x + "," + y + " @@" + tail
         == HeaderLine(RangeText(a, None), RangeText(x, Some(y)), tail)
    ensures "@@ -" + a + "," + b + " +" + x + " @@" + tail
         == HeaderLine(RangeText(a, Some(b)), RangeText(x, None), tail)
    ensures "@@ -" + a + " +" + x + " @@" + tail == HeaderLine(RangeText(a, None), RangeText(x, None), tail)
  {}

  // ---------------------------------------------------------------- nothing else is a header

  lemma {:induction false} SpanIsDigits(s: string)
    ensures forall i :: 0 <= i < DigitSpan(s) ==> IsDigit(s[i])
  {
    if s != "" && IsDigit(s[0]) {
      SpanIsDigits(s[1..]);
    }
  }

  lemma RangeSplits(s: string) returns (start: string, count: Option<string>, rest: string)
    requires ParseRange(s).Some?
    ensures GoodRange(start, count) && s == RangeText(start, count) + rest
    ensures ParseRange(s) == Some((ToNat(start), CountOf(count), rest))
  {
    var n := DigitSpan(s);
    SpanIsDigits(s);
    start, rest, count := s[..n], s[n..], None;
    assert s == start + rest;
    if rest != "" && rest[0] == ',' && DigitSpan(rest[1..]) != 0 {
      var behind := rest[1..];
      var m := DigitSpan(behind);
      SpanIsDigits(behind);
      assert rest == "," + behind && behind == behind[..m] + behind[m..];
      assert s == start + ("," + behind[..m]) + behind[m..];
      count, rest := Some(behind[..m]), behind[m..];
    }
  }

  lemma HeaderLineOf(line: string, before: string, rest: string, after: string, last: string)
    requires "@@ -" <= line && line[4..] == before + rest
    requires " +" <= rest && rest[2..] == after + last
    requires " @@" <= last
    ensures line == HeaderLine(before, after, last[3..])
  {
    assert line == "@@ -" + line[4..] && rest == " +" + rest[2..] && last == " @@" + last[3..];
  }

  lemma HeaderSplits(line: string) returns (a: string, b: Option<string>, c: string, d: Option<string>, tail: string)
    requires ParseHeader(line).Some?
    ensures GoodRange(a, b) && GoodRange(c, d)
    ensures line == HeaderLine(RangeText(a, b), RangeText(c, d), tail)
    ensures ParseHeader(line) == Some(Header(ToNat(a), CountOf(b), ToNat(c), CountOf(d)))
  {
    var rest: string;
    a, b, rest := RangeSplits(line[4..]);
    var last: string;
    c, d, last := RangeSplits(rest[2..]);
    tail := last[3..];
    HeaderLineOf(line, RangeText(a, b), rest, RangeText(c, d), last);
  }

  /** `line` is written as a header of these numbers. */
  ghost predicate Announces(line: string, h: Header) {
    exists a, b, c, d, tail :: GoodRange(a, b) && GoodRange(c, d)
      && line == HeaderLine(RangeText(a, b), RangeText(c, d), tail)
      && h == Header(ToNat(a), CountOf(b), ToNat(c), CountOf(d))
  }

  lemma AnnouncedReads(line: string, h: Header)
    requires Announces(line, h)
    ensures ParseHeader(line) == Some(h)
  {
    var a, b, c, d, tail :| (GoodRange(a, b) && GoodRange(c, d)
                             && line == HeaderLine(RangeText(a, b), RangeText(c, d), tail)
                             && h == Header(ToNat(a), CountOf(b), ToNat(c), CountOf(d)));
    HeaderReads(a, b, c, d, tail);
  }

  lemma ReadIsAnnounced(line: string, h: Header)
    requires ParseHeader(line) == Some(h)
    ensures Announces(line, h)
  {
    var a, b, c, d, tail := HeaderSplits(line);
  }

  /** A line is a header with these numbers if and only if it is written that way, whatever follows. */
  lemma HeaderIff(line: string, h: Header)
    ensures ParseHeader(line) == Some(h) <==> Announces(line, h)
  {
    if Announces(line, h) {
      AnnouncedReads(line, h);
    } else if ParseHeader(line) == Some(h) {
      ReadIsAnnounced(line, h);
    }
  }

  lemma {:induction false} KeepsStart(start: string, rest: string)
    requires start != "" && !IsSpace(start[|start| - 1])
    ensures start <= StripRight(start + rest)
  {
    if rest == "" {
      assert start + rest == start;
    } else if IsSpace(rest[|rest| - 1]) {
      assert (start + rest)[..|start + rest| - 1] == start + rest[..|rest| - 1];
      KeepsStart(start, rest[..|rest| - 1]);
    }
  }

  lemma MarkerStarts(line: string) returns (front: string, rest: string)
    requires IsMarker(line)
    ensures Blank(front) && line == front + ("@@" + rest)
  {
    var core := StripLeft(line);
    front := StripLeftRemoves(line);
    StripRightPrefix(core);
    rest := core[2..];
    assert core == "@@" + rest;
  }

  lemma StartIsMarker(front: string, rest: string)
    requires Blank(front)
    ensures IsMarker(front + ("@@" + rest))
  {
    StripLeftCore(front, "@@" + rest);
    KeepsStart("@@", rest);
  }

  /** A marker line is one that starts with two at signs after any blanks. */
  lemma MarkerIff(line: string)
    ensures IsMarker(line) <==> exists front, rest :: Blank(front) && line == front + ("@@" + rest)
  {
    if front, rest :| Blank(front) && line == front + ("@@" + rest) {
      StartIsMarker(front, rest);
    } else if IsMarker(line) {
      var front, rest := MarkerStarts(line);
    }
  }

  // ---------------------------------------------------------------- from the header to the lines

  /** The lines of the new file that a hunk shows, without their markers. */
  function NewLines(lines: seq<string>): seq<string> {
    if lines == [] then []
    else
      var n := |lines| - 1;
      NewLines(lines[..n]) + (if InNewFile(lines[n]) then [lines[n][1..]] else [])
  }

  /** The added lines, without their markers. */
  function AddedTexts(lines: seq<string>): seq<string> {
    if lines == [] then []
    else
      var n := |lines| - 1;
      AddedTexts(lines[..n]) + (if Adds(lines[n]) then [lines[n][1..]] else [])
  }

  /** In a file that shows the hunk's lines from its start on, each added number is the line its text stands on. */
  lemma {:induction false} AddedNumbersLocate(lines: seq<string>, start: nat)
    ensures |AddedNumbers(lines, start)| == |AddedTexts(lines)| && |NewLines(lines)| == NewFileCount(lines)
    ensures forall i :: 0 <= i < |AddedTexts(lines)| ==>
      && start <= AddedNumbers(lines, start)[i] < start + |NewLines(lines)|
      && NewLines(lines)[AddedNumbers(lines, start)[i] - start] == AddedTexts(lines)[i]
  {
    if lines != [] {
      AddedNumbersLocate(lines[..|lines| - 1], start);
    }
  }

  lemma HeaderIsMarker(line: string)
    requires ParseHeader(line).Some? && Strip(line) == line
    ensures IsMarker(line)
  {
    assert line[0] == '@' && line[1] == '@';
  }

  lemma Opens(line: string, h: Header, rest: seq<string>)
    requires ParseHeader(Strip(line)) == Some(h)
    ensures OpenHunk(line, rest) == [MakeHunk(line, h, rest[..BodySpan(rest)])]
  {}

  lemma OpensAll(line: string, h: Header, body: seq<string>)
    requires ParseHeader(Strip(line)) == Some(h) && forall i :: 0 <= i < |body| ==> !IsMarker(body[i])
    ensures OpenHunk(line, body) == [MakeHunk(line, h, body)]
  {
    BodySpanIs(body, |body|);
    Opens(line, h, body);
    assert body[..|body|] == body;
  }

  lemma NoMarkersNoHunks(body: seq<string>)
    requires forall i :: 0 <= i < |body| ==> !IsMarker(body[i])
    ensures Parse(body) == []
  {
    ParseSkips(body, |body|);
    assert body[|body|..] == [];
  }

  /** Every hunk of a patch carries the numbers written in its header line. */
  lemma HunksAnnounce(patch: string, i: nat)
    requires i < |Hunks(patch)|
    ensures Announces(Hunks(patch)[i].header, Hunks(patch)[i].range)
  {
    SplitUnbroken(patch);
    ParseWellMade(SplitLines(patch));
    var h := Parse(SplitLines(patch))[i];
    ReadIsAnnounced(h.text, h.header);
  }

  lemma LocatedIn(h: RawHunk)
    requires h.added == AddedNumbers(h.lines, h.header.newStart)
    ensures |h.added| == |AddedTexts(h.lines)|
    ensures forall j :: 0 <= j < |h.added| ==>
      && h.header.newStart <= h.added[j] < h.header.newStart + |NewLines(h.lines)|
      && NewLines(h.lines)[h.added[j] - h.header.newStart] == AddedTexts(h.lines)[j]
  {
    AddedNumbersLocate(h.lines, h.header.newStart);
  }

  /** In every parsed hunk each added number is the place of its line. */
  lemma AddedLinesLocated(patch: string, h: RawHunk, j: nat)
    requires h in Parse(SplitLines(patch)) && j < |h.added|
    ensures |h.added| == |AddedTexts(h.lines)|
    ensures h.header.newStart <= h.added[j] < h.header.newStart + |NewLines(h.lines)|
    ensures NewLines(h.lines)[h.added[j] - h.header.newStart] == AddedTexts(h.lines)[j]
  {
    SplitUnbroken(patch);
    ParseWellMade(SplitLines(patch));
    LocatedIn(h);
  }

  /** A patch of one hunk, from its text to its numbers. */
  lemma OneHunkParsed(line: string, h: Header, body: seq<string>)
    requires ParseHeader(line) == Some(h) && Strip(line) == line && forall i :: 0 <= i < |body| ==> !IsMarker(body[i])
    ensures Parse([line] + body) == [RawHunk(line, h, Kept(body), AddedNumbers(Kept(body), h.newStart))]
  {
    HeaderIsMarker(line);
    OpensAll(line, h, body);
    NoMarkersNoHunks(body);
    ParseFirst(line, body);
  }

  lemma ParseFirst(line: string, body: seq<string>)
    requires IsMarker(line)
    ensures Parse([line] + body) == OpenHunk(line, body) + Parse(body)
  {
    assert ([line] + body)[1..] == body;
  }
}
