/** Printing the parsed hunks and parsing them again gives the same hunks, for arbitrary patch text. */
module DiffRoundTrip {
  import opened Common
  import opened Text
  import opened DiffParser

  // ---------------------------------------------------------------- parsed hunks

  /** What every parsed hunk satisfies. */
  ghost predicate WellMade(h: RawHunk) {
    && Strip(h.text) == h.text && IsMarker(h.text) && ParseHeader(h.text) == Some(h.header)
    && (forall i :: 0 <= i < |h.lines| ==> IsBodyLine(h.lines[i]) && !IsMarker(h.lines[i]))
    && h.added == AddedNumbers(h.lines, h.header.newStart)
  }

  ghost predicate AllUnbroken(lines: seq<string>) {
    forall i :: 0 <= i < |lines| ==> Unbroken(lines[i])
  }

  lemma {:induction false} KeptFrom(lines: seq<string>)
    ensures forall i :: 0 <= i < |Kept(lines)| ==> IsBodyLine(Kept(lines)[i]) && Kept(lines)[i] in lines
  {
    if lines != [] {
      var n := |lines| - 1;
      KeptFrom(lines[..n]);
      assert lines == lines[..n] + [lines[n]];
    }
  }

  lemma OpenHunkWellMade(line: string, rest: seq<string>)
    requires IsMarker(line) && Unbroken(line) && AllUnbroken(rest)
    ensures forall i :: 0 <= i < |OpenHunk(line, rest)| ==>
      var h := OpenHunk(line, rest)[i];
      WellMade(h) && Unbroken(h.text) && AllUnbroken(h.lines)
  {
    var body := rest[..BodySpan(rest)];
    StripIdempotent(line);
    KeptFrom(body);
    forall i | 0 <= i < |Kept(body)| ensures !IsMarker(Kept(body)[i]) && Unbroken(Kept(body)[i]) {
      var k :| 0 <= k < |body| && body[k] == Kept(body)[i];
      assert rest[k] == body[k];
    }
  }

  lemma {:induction false} ParseWellMade(lines: seq<string>)
    requires AllUnbroken(lines)
    ensures forall i :: 0 <= i < |Parse(lines)| ==>
      var h := Parse(lines)[i];
      WellMade(h) && Unbroken(h.text) && AllUnbroken(h.lines)
  {
    if lines != [] {
      assert forall i :: 0 <= i < |lines[1..]| ==> lines[1..][i] == lines[i + 1];
      ParseWellMade(lines[1..]);
      if IsMarker(lines[0]) {
        OpenHunkWellMade(lines[0], lines[1..]);
      }
    }
  }

  // ---------------------------------------------------------------- printing lines

  /** Without body lines the newline after the header still opens a line. */
  function BodyLines(h: RawHunk): seq<string> {
    if h.lines == [] then [""] else h.lines
  }

  function HunkLines(h: RawHunk): seq<string> {
    [h.text] + BodyLines(h)
  }

  function PrintedLines(hs: seq<RawHunk>): seq<string> {
    if hs == [] then [] else HunkLines(hs[0]) + PrintedLines(hs[1..])
  }

  lemma {:induction false} KeptAll(lines: seq<string>)
    requires forall i :: 0 <= i < |lines| ==> IsBodyLine(lines[i])
    ensures Kept(lines) == lines
  {
    if lines != [] {
      KeptAll(lines[..|lines| - 1]);
    }
  }

  lemma EmptyIsNoMarker()
    ensures !IsMarker("") && Kept([""]) == []
  {
    assert Strip("") == "";
    assert [""][..0] == [];
  }

  /** The segment of a printed hunk ends where the next one starts. */
  lemma SegmentReadBack(h: RawHunk, rest: seq<string>)
    requires WellMade(h) && (rest != [] ==> IsMarker(rest[0]))
    ensures BodySpan(BodyLines(h) + rest) == |BodyLines(h)|
    ensures Parse(BodyLines(h) + rest) == Parse(rest)
  {
    var (body, tail) := (BodyLines(h), BodyLines(h) + rest);
    EmptyIsNoMarker();
    assert forall i :: 0 <= i < |body| ==> tail[i] == body[i];
    BodySpanIs(tail, |body|);
    ParseSkips(tail, |body|);
    assert tail[|body|..] == rest;
  }

  lemma OpenReadBack(h: RawHunk, rest: seq<string>)
    requires WellMade(h) && BodySpan(BodyLines(h) + rest) == |BodyLines(h)|
    ensures OpenHunk(h.text, BodyLines(h) + rest) == [h]
  {
    EmptyIsNoMarker();
    KeptAll(h.lines);
    assert (BodyLines(h) + rest)[..|BodyLines(h)|] == BodyLines(h);
  }

  lemma ParseHead(h: RawHunk, tail: seq<string>, rest: seq<string>)
    requires IsMarker(h.text) && OpenHunk(h.text, tail) == [h] && Parse(tail) == Parse(rest)
    ensures Parse([h.text] + tail) == [h] + Parse(rest)
  {
    assert ([h.text] + tail)[1..] == tail;
  }

  /** One printed hunk in front of other text is read back. */
  lemma HunkReadBack(h: RawHunk, rest: seq<string>)
    requires WellMade(h) && (rest != [] ==> IsMarker(rest[0]))
    ensures Parse([h.text] + (BodyLines(h) + rest)) == [h] + Parse(rest)
  {
    SegmentReadBack(h, rest);
    OpenReadBack(h, rest);
    ParseHead(h, BodyLines(h) + rest, rest);
  }

  lemma {:induction false} LinesReadBack(hs: seq<RawHunk>)
    requires forall i :: 0 <= i < |hs| ==> WellMade(hs[i])
    ensures Parse(PrintedLines(hs)) == hs
  {
    if hs != [] {
      LinesReadBack(hs[1..]);
      FirstReadBack(hs);
      assert hs == [hs[0]] + hs[1..];
    }
  }

  lemma FirstReadBack(hs: seq<RawHunk>)
    requires hs != [] && forall i :: 0 <= i < |hs| ==> WellMade(hs[i])
    ensures Parse(PrintedLines(hs)) == [hs[0]] + Parse(PrintedLines(hs[1..]))
  {
    PrintedStart(hs[1..]);
    HunkReadBack(hs[0], PrintedLines(hs[1..]));
    PrintedHead(hs);
  }

  lemma PrintedHead(hs: seq<RawHunk>)
    requires hs != []
    ensures PrintedLines(hs) == [hs[0].text] + (BodyLines(hs[0]) + PrintedLines(hs[1..]))
  {
  }

  /** Printed hunks begin with a marker. */
  lemma PrintedStart(hs: seq<RawHunk>)
    requires forall i :: 0 <= i < |hs| ==> WellMade(hs[i])
    ensures PrintedLines(hs) != [] ==> IsMarker(PrintedLines(hs)[0])
  {
    if hs != [] {
      PrintedHead(hs);
      assert WellMade(hs[0]) && PrintedLines(hs)[0] == hs[0].text;
    }
  }

  /** A blank line at the end changes nothing. */
  lemma {:induction false} ParseIgnoresLastBlank(lines: seq<string>)
    ensures Parse(lines + [""]) == Parse(lines)
  {
    EmptyIsNoMarker();
    if lines == [] {
      assert Parse([""][1..]) == [];
    } else {
      var rest := lines[1..];
      assert (lines + [""])[1..] == rest + [""];
      ParseIgnoresLastBlank(rest);
      BodyIgnoresLastBlank(rest);
    }
  }

  lemma BodyIgnoresLastBlank(rest: seq<string>)
    ensures Kept((rest + [""])[..BodySpan(rest + [""])]) == Kept(rest[..BodySpan(rest)])
  {
    EmptyIsNoMarker();
    var n := BodySpan(rest);
    if n < |rest| {
      BodySpanIs(rest + [""], n);
      assert (rest + [""])[..n] == rest[..n];
    } else {
      BodySpanIs(rest + [""], n + 1);
      assert (rest + [""])[..n + 1] == rest + [""] && rest[..n] == rest;
      KeptSnoc(rest, "", 0);
    }
  }

  // ---------------------------------------------------------------- printing text

  /** The text of a slice's patch when nothing is truncated. */
  function PrintHunk(h: Hunk): string {
    h.header + "\n" + h.body
  }

  function PrintEach(hs: seq<Hunk>): seq<string> {
    if hs == [] then [] else [PrintHunk(hs[0])] + PrintEach(hs[1..])
  }

  /** The hunks' texts, one after the other. */
  function Print(hs: seq<Hunk>): string {
    Join(PrintEach(hs))
  }

  lemma PrintHunkLines(h: RawHunk)
    ensures PrintHunk(Render(h)) == Join(HunkLines(h))
  {
    if h.lines != [] {
      JoinConcat([h.text], h.lines);
    }
  }

  lemma {:induction false} PrintIsJoin(hs: seq<RawHunk>)
    requires hs != []
    ensures Print(RenderAll(hs)) == Join(PrintedLines(hs))
  {
    PrintHunkLines(hs[0]);
    var rest := hs[1..];
    assert RenderAll(hs)[1..] == RenderAll(rest);
    assert PrintEach(RenderAll(hs)) == [PrintHunk(Render(hs[0]))] + PrintEach(RenderAll(rest));
    if rest == [] {
      assert PrintedLines(hs) == HunkLines(hs[0]);
    } else {
      PrintIsJoin(rest);
      JoinConcat([PrintHunk(Render(hs[0]))], PrintEach(RenderAll(rest)));
      JoinConcat(HunkLines(hs[0]), PrintedLines(rest));
    }
  }

  lemma {:induction false} PrintedUnbroken(hs: seq<RawHunk>)
    requires forall i :: 0 <= i < |hs| ==> Unbroken(hs[i].text) && AllUnbroken(hs[i].lines)
    ensures AllUnbroken(PrintedLines(hs))
  {
    if hs != [] {
      PrintedUnbroken(hs[1..]);
    }
  }

  lemma SplitUnbroken(patch: string)
    ensures AllUnbroken(SplitLines(patch))
  {
    PiecesUnbroken(patch);
  }

  lemma ParseText(lines: seq<string>)
    requires lines != [] && AllUnbroken(lines)
    ensures Parse(SplitLines(Join(lines))) == Parse(lines)
  {
    PiecesOfJoin(lines);
    var n := |lines| - 1;
    if lines[n] == "" {
      ParseIgnoresLastBlank(lines[..n]);
      assert lines == lines[..n] + [""];
    }
  }

  /**
    Re-parsing the printed hunks returns them: header text, ranges, added line numbers and bodies.
    The original may contain blank lines, malformed headers, stray text and no-newline markers.
   */
  lemma PrintThenParse(patch: string)
    ensures Hunks(Print(Hunks(patch))) == Hunks(patch)
  {
    var hs := Parse(SplitLines(patch));
    SplitUnbroken(patch);
    ParseWellMade(SplitLines(patch));
    if hs == [] {
      assert Print(RenderAll(hs)) == "" && Parse(SplitLines("")) == [];
    } else {
      PrintIsJoin(hs);
      PrintedUnbroken(hs);
      assert PrintedLines(hs) != [];
      ParseText(PrintedLines(hs));
      LinesReadBack(hs);
    }
  }

  lemma HunkTextReadBack(h: RawHunk)
    requires WellMade(h) && Unbroken(h.text) && AllUnbroken(h.lines)
    ensures Hunks(PrintHunk(Render(h))) == [Render(h)]
  {
    PrintHunkLines(h);
    ParseText(HunkLines(h));
    HunkReadBack(h, []);
    assert HunkLines(h) == [h.text] + (BodyLines(h) + []);
  }

  /** Each printed hunk of a patch reads back as that hunk on its own. */
  lemma PrintOneThenParse(patch: string, i: nat)
    requires i < |Hunks(patch)|
    ensures Hunks(PrintHunk(Hunks(patch)[i])) == [Hunks(patch)[i]]
  {
    SplitUnbroken(patch);
    ParseWellMade(SplitLines(patch));
    HunkTextReadBack(Parse(SplitLines(patch))[i]);
  }

  // ---------------------------------------------------------------- added line numbers

  function AddCount(lines: seq<string>): nat {
    if lines == [] then 0
    else
      var n := |lines| - 1;
      AddCount(lines[..n]) + (if Adds(lines[n]) then 1 else 0)
  }

  /** Added line numbers are strictly increasing, as many as the '+' lines, and inside the new-file lines. */
  lemma {:induction false} AddedNumbersFacts(lines: seq<string>, start: nat)
    ensures var added := AddedNumbers(lines, start);
            && |added| == AddCount(lines)
            && (forall i, j :: 0 <= i < j < |added| ==> added[i] < added[j])
            && (forall i :: 0 <= i < |added| ==> start <= added[i] < start + NewFileCount(lines))
  {
    if lines != [] {
      AddedNumbersFacts(lines[..|lines| - 1], start);
    }
  }

  /** The header announces at least as many new-file lines as the body has. */
  ghost predicate WellFormed(h: RawHunk) {
    NewFileCount(h.lines) <= h.header.newCount
  }

  /** In every parsed hunk whose header announces enough lines the added ones lie in the header's range. */
  lemma AddedInRange(patch: string, i: nat)
    requires i < |Parse(SplitLines(patch))| && WellFormed(Parse(SplitLines(patch))[i])
    ensures var h := Parse(SplitLines(patch))[i];
            && |h.added| == AddCount(h.lines)
            && (forall a, b :: 0 <= a < b < |h.added| ==> h.added[a] < h.added[b])
            && (forall a :: 0 <= a < |h.added| ==>
                h.header.newStart <= h.added[a] < h.header.newStart + h.header.newCount)
  {
    SplitUnbroken(patch);
    ParseWellMade(SplitLines(patch));
    var h := Parse(SplitLines(patch))[i];
    AddedNumbersFacts(h.lines, h.header.newStart);
  }
}
