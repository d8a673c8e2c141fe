/** From patch text to dispositions: when an earlier finding is carried forward, and when it is not. */
module IterationProperties {
  import opened Common
  import opened Text
  import opened Decimal
  import opened DiffParser
  import opened DiffHeader
  import opened DiffRoundTrip
  import opened Iteration

  // ---------------------------------------------------------------- windows

  /** Some line of `[a, b]` and some line of `[c, d]` are at most `gap` apart. */
  ghost predicate LinesNear(a: int, b: int, c: int, d: int, gap: int) {
    exists x, y :: NearPair(a, b, c, d, gap, x, y)
  }

  ghost predicate NearPair(a: int, b: int, c: int, d: int, gap: int, x: int, y: int) {
    a <= x <= b && c <= y <= d && -gap <= x - y <= gap
  }

  /** The window test compares end points only; for ordered ranges it decides nearness of lines. */
  lemma OverlapsIff(start: int, end: int, w: FileSlice, gap: int)
    requires w.newStart.Some? && w.newEnd.Some? && start <= end && w.newStart.value <= w.newEnd.value && 0 <= gap
    ensures Overlaps(start, end, w, gap) <==> LinesNear(start, end, w.newStart.value, w.newEnd.value, gap)
  {
    var (first, last) := (w.newStart.value, w.newEnd.value);
    if Overlaps(start, end, w, gap) {
      if end < first {
        assert NearPair(start, end, first, last, gap, end, first);
      } else if last < start {
        assert NearPair(start, end, first, last, gap, start, last);
      } else {
        var x := if start < first then first else start;
        assert NearPair(start, end, first, last, gap, x, x);
      }
    }
  }

  lemma {:induction false} SlicesForComplete(slices: seq<FileSlice>, i: nat)
    requires i < |slices|
    ensures slices[i] in SlicesFor(slices, slices[i].path)
  {
    var n := |slices| - 1;
    if i < n {
      SlicesForComplete(slices[..n], i);
    }
  }

  lemma {:induction false} SlicesForSound(slices: seq<FileSlice>, path: string)
    ensures forall w :: w in SlicesFor(slices, path) ==> w in slices && w.path == path
  {
    if slices != [] {
      SlicesForSound(slices[..|slices| - 1], path);
    }
  }

  /** The finding's lines come within `gap` of the numbered slice `w` of its file. */
  ghost predicate Touches(f: PriorFinding, w: FileSlice, gap: int)
    requires f.lineStart.Some?
  {
    && w.path == f.path && w.newStart.Some? && w.newEnd.Some?
    && LinesNear(f.lineStart.value, if f.lineEnd.Some? then f.lineEnd.value else f.lineStart.value,
                 w.newStart.value, w.newEnd.value, gap)
  }

  /** Windows as the slicer makes them. */
  ghost predicate Ordered(slices: seq<FileSlice>) {
    forall i :: 0 <= i < |slices| ==>
      (slices[i].newStart.Some? <==> slices[i].newEnd.Some?) &&
      (slices[i].newStart.Some? ==> slices[i].newStart.value <= slices[i].newEnd.value)
  }

  /**
    Which findings are carried forward, in terms of single lines: exactly when nothing near is known to
    have changed.
   */
  lemma KeptIff(f: PriorFinding, slices: seq<FileSlice>, gap: int)
    requires Ordered(slices) && 0 <= gap && (f.lineStart.Some? ==> f.lineStart.value <= LastLine(f))
    ensures Disposition(f, slices, gap) == Keep <==>
      && (forall i :: 0 <= i < |slices| && slices[i].path == f.path ==>
          f.lineStart.Some? && slices[i].kind != Removed && !Touches(f, slices[i], gap))
  {
    var windows := SlicesFor(slices, f.path);
    SlicesForSound(slices, f.path);
    if Disposition(f, slices, gap) == Keep {
      forall i | 0 <= i < |slices| && slices[i].path == f.path
        ensures f.lineStart.Some? && slices[i].kind != Removed && !Touches(f, slices[i], gap)
      {
        SlicesForComplete(slices, i);
        var k :| 0 <= k < |windows| && windows[k] == slices[i];
        if slices[i].newStart.Some? {
          OverlapsIff(f.lineStart.value, LastLine(f), slices[i], gap);
        }
      }
    } else if forall i :: 0 <= i < |slices| && slices[i].path == f.path ==>
        f.lineStart.Some? && slices[i].kind != Removed && !Touches(f, slices[i], gap)
    {
      assert windows[0] in slices && OverlapsAny(windows, f, gap);
      var i :| 0 <= i < |slices| && slices[i] == windows[0];
      var k :| 0 <= k < |windows| && Overlaps(f.lineStart.value, LastLine(f), windows[k], gap);
      assert windows[k] in slices;
      var j :| 0 <= j < |slices| && slices[j] == windows[k];
      OverlapsIff(f.lineStart.value, LastLine(f), slices[j], gap);
      assert false;
    }
  }

  /** A finding is resolved exactly by the removal of its file, and stale exactly if its file only changed, near it. */
  lemma ResolvedOrStaleIff(f: PriorFinding, slices: seq<FileSlice>, gap: int)
    requires Ordered(slices) && 0 <= gap && (f.lineStart.Some? ==> f.lineStart.value <= LastLine(f))
    ensures Disposition(f, slices, gap) == Resolved <==>
      exists i :: 0 <= i < |slices| && slices[i].path == f.path && slices[i].kind == Removed
    ensures Disposition(f, slices, gap) == Stale <==>
      && (forall i :: 0 <= i < |slices| && slices[i].path == f.path ==> slices[i].kind != Removed)
      && (exists i :: 0 <= i < |slices| && slices[i].path == f.path
            && (f.lineStart.None? || Touches(f, slices[i], gap)))
  {
    KeptIff(f, slices, gap);
  }

  lemma {:induction false} LowerKeeps(s: string)
    requires forall i :: 0 <= i < |s| ==> !('A' <= s[i] <= 'Z')
    ensures Lower(s) == s
  {
    if s != "" {
      LowerKeeps(s[1..]);
    }
  }

  lemma StripKeeps(s: string)
    requires s != "" && !IsSpace(s[0]) && !IsSpace(s[|s| - 1])
    ensures Strip(s) == s
  {}

  /** Statuses in lower case. */
  lemma KindOf(word: string)
    requires word != "" && forall i :: 0 <= i < |word| ==> 'a' <= word[i] <= 'z'
    ensures InferKind(Some(word)) ==
      if word == "added" then Added else if word == "modified" then Modified
      else if word == "removed" || word == "deleted" then Removed
      else if word == "renamed" || word == "copied" then Renamed else Unknown
  {
    LowerKeeps(word);
    StripKeeps(word);
  }

  lemma RemovedWords(status: Option<string>)
    requires status == Some("removed") || status == Some("deleted")
    ensures InferKind(status) == Removed
  {
    KindOf(status.value);
  }

  /** Removing a file resolves all its findings, if its patch is missing or has a hunk. */
  lemma RemovalResolves(files: seq<Change>, maxChars: int, gap: int, f: PriorFinding, k: nat)
    requires k < |files| && files[k].path == f.path
    requires files[k].status == Some("removed") || files[k].status == Some("deleted")
    requires files[k].patch.Some? && files[k].patch.value != "" ==> Hunks(files[k].patch.value) != []
    ensures Disposition(f, SlicesOf(files, maxChars), gap) == Resolved
  {
    var (file, slices) := (files[k], SlicesOf(files, maxChars));
    RemovedWords(file.status);
    var w := FileSlices(file.path, file.patch, file.status, maxChars, MAX_SLICES_PER_FILE)[0];
    FlattenComplete(SlicesOfEach(files, maxChars), k, w);
    var i :| 0 <= i < |slices| && slices[i] == w;
    assert slices[i].path == f.path && slices[i].kind == Removed;
  }

  // ---------------------------------------------------------------- from patch text

  lemma FileSlicesOrdered(path: string, patch: Option<string>, status: Option<string>, maxChars: int, maxSlices: int)
    ensures Ordered(FileSlices(path, patch, status, maxChars, maxSlices))
  {}

  lemma {:induction false} FlattenOrdered(parts: seq<seq<FileSlice>>)
    requires forall i :: 0 <= i < |parts| ==> Ordered(parts[i])
    ensures Ordered(Flatten(parts))
  {
    if parts != [] {
      FlattenOrdered(parts[..|parts| - 1]);
      assert Ordered(parts[|parts| - 1]);
    }
  }

  lemma SlicesOfOrdered(files: seq<Change>, maxChars: int)
    ensures Ordered(SlicesOf(files, maxChars))
  {
    forall i | 0 <= i < |files| ensures Ordered(SlicesOfEach(files, maxChars)[i]) {
      FileSlicesOrdered(files[i].path, files[i].patch, files[i].status, maxChars, MAX_SLICES_PER_FILE);
    }
    FlattenOrdered(SlicesOfEach(files, maxChars));
  }

  lemma {:induction false} FlattenComplete<T>(parts: seq<seq<T>>, k: nat, w: T)
    requires k < |parts| && w in parts[k]
    ensures w in Flatten(parts)
  {
    if k < |parts| - 1 {
      FlattenComplete(parts[..|parts| - 1], k, w);
    }
  }

  /**
    No false carry-forward: a finding whose lines include a line added by a hunk that was sliced is never
    kept, whatever else the commit changes, provided the hunk's header announces at least its new-file lines.
   */
  lemma NoFalseCarryForward(files: seq<Change>, maxChars: int, gap: int, f: PriorFinding, k: nat, h: nat, line: nat)
    requires k < |files| && files[k].path == f.path && files[k].patch.Some?
    requires h < |Parse(SplitLines(files[k].patch.value))| && h < MAX_SLICES_PER_FILE
    requires WellFormed(Parse(SplitLines(files[k].patch.value))[h])
    requires line in Parse(SplitLines(files[k].patch.value))[h].added
    requires f.lineStart.Some? ==> f.lineStart.value <= line <= LastLine(f)
    requires 0 <= gap
    ensures Disposition(f, SlicesOf(files, maxChars), gap) != Keep
  {
    var (file, slices) := (files[k], SlicesOf(files, maxChars));
    var patch := file.patch.value;
    var raw := Parse(SplitLines(patch));
    assert patch != "";
    AddedInRange(patch, h);
    var w := HunkSlice(file.path, Hunks(patch)[h], InferKind(file.status), maxChars);
    assert w == FileSlices(file.path, file.patch, file.status, maxChars, MAX_SLICES_PER_FILE)[h];
    FlattenComplete(SlicesOfEach(files, maxChars), k, w);
    SlicesOfOrdered(files, maxChars);
    KeptIff(f, slices, gap);
    var i :| 0 <= i < |slices| && slices[i] == w;
    if f.lineStart.Some? {
      assert NearPair(f.lineStart.value, LastLine(f), w.newStart.value, w.newEnd.value, gap, line, line);
    }
  }

  // ---------------------------------------------------------------- no hunk at all

  /** A line that opens a hunk. */
  predicate OpensHunk(line: string) {
    IsMarker(line) && ParseHeader(Strip(line)).Some?
  }

  lemma {:induction false} NoHunkIff(lines: seq<string>)
    ensures Parse(lines) == [] <==> forall i :: 0 <= i < |lines| ==> !OpensHunk(lines[i])
  {
    if lines != [] {
      var rest := lines[1..];
      NoHunkIff(rest);
      assert forall i :: 0 <= i < |rest| ==> rest[i] == lines[i + 1];
      assert Parse(lines) == [] <==> !OpensHunk(lines[0]) && Parse(rest) == [];
    }
  }

  /** A patch without a well-formed header has no slice, so its file's findings are kept even when it was removed. */
  lemma UnparsedPatchIsKept(f: PriorFinding, patch: string, status: Option<string>, maxChars: int, gap: int)
    requires patch != "" && forall i :: 0 <= i < |SplitLines(patch)| ==> !OpensHunk(SplitLines(patch)[i])
    ensures SlicesOf([Change(f.path, Some(patch), status)], maxChars) == []
    ensures Disposition(f, SlicesOf([Change(f.path, Some(patch), status)], maxChars), gap) == Keep
  {
    NoHunkIff(SplitLines(patch));
    OnlyFile(f.path, Some(patch), status, maxChars);
    assert Hunks(patch) == [];
  }

  // ---------------------------------------------------------------- past the slice limit

  /** Hunks as a parse yields them, with truthful headers. */
  ghost predicate Proper(h: RawHunk) {
    WellMade(h) && WellFormed(h) && Unbroken(h.text) && AllUnbroken(h.lines)
  }

  ghost predicate AllProper(raw: seq<RawHunk>) {
    raw != [] && forall i :: 0 <= i < |raw| ==> Proper(raw[i])
  }

  function PatchOf(raw: seq<RawHunk>): string {
    Print(RenderAll(raw))
  }

  lemma ReadBack(raw: seq<RawHunk>)
    requires AllProper(raw)
    ensures Parse(SplitLines(PatchOf(raw))) == raw
  {
    PrintIsJoin(raw);
    PrintedUnbroken(raw);
    ParseText(PrintedLines(raw));
    LinesReadBack(raw);
  }

  /** The last line of the window cut for a hunk. */
  function WindowEnd(h: RawHunk): int {
    if h.header.newCount != 0 then h.header.newStart + h.header.newCount - 1 else h.header.newStart
  }

  /** None of the first twelve windows comes near the finding. */
  ghost predicate FarFromSliced(f: PriorFinding, raw: seq<RawHunk>, gap: int)
    requires f.lineStart.Some?
  {
    forall i :: 0 <= i < |raw| && i < MAX_SLICES_PER_FILE ==>
      !LinesNear(f.lineStart.value, LastLine(f), raw[i].header.newStart, WindowEnd(raw[i]), gap)
  }

  lemma FileSliceAt(path: string, text: string, maxChars: int, i: nat)
    requires text != "" && i < |FileSlices(path, Some(text), None, maxChars, MAX_SLICES_PER_FILE)|
    ensures i < |Hunks(text)| && i < MAX_SLICES_PER_FILE
    ensures FileSlices(path, Some(text), None, maxChars, MAX_SLICES_PER_FILE)[i]
      == HunkSlice(path, Hunks(text)[i], Unknown, maxChars)
  {}

  lemma SliceWindow(path: string, h: RawHunk, maxChars: int)
    ensures
      var w := HunkSlice(path, Render(h), Unknown, maxChars);
      w.path == path && w.kind == Unknown && w.newStart == Some(h.header.newStart) && w.newEnd == Some(WindowEnd(h))
  {}

  /** No slice of the patch touches the finding. */
  lemma SlicesUntouched(text: string, raw: seq<RawHunk>, f: PriorFinding, maxChars: int, gap: int, i: nat)
    requires text != "" && Parse(SplitLines(text)) == raw
    requires f.lineStart.Some? && FarFromSliced(f, raw, gap)
    requires i < |FileSlices(f.path, Some(text), None, maxChars, MAX_SLICES_PER_FILE)|
    ensures
      var w := FileSlices(f.path, Some(text), None, maxChars, MAX_SLICES_PER_FILE)[i];
      w.kind == Unknown && !Touches(f, w, gap)
  {
    FileSliceAt(f.path, text, maxChars, i);
    assert Hunks(text)[i] == Render(raw[i]);
    SliceWindow(f.path, raw[i], maxChars);
  }

  /**
    Hunks past the twelfth never matter: a finding near none of the first twelve is carried forward,
    whatever the others add.
   */
  lemma PastTheLimit(raw: seq<RawHunk>, f: PriorFinding, maxChars: int, gap: int)
    requires AllProper(raw) && 0 <= gap
    requires f.lineStart.Some? && f.lineStart.value <= LastLine(f) && FarFromSliced(f, raw, gap)
    ensures Parse(SplitLines(PatchOf(raw))) == raw
    ensures Disposition(f, SlicesOf([Change(f.path, Some(PatchOf(raw)), None)], maxChars), gap) == Keep
  {
    var text := PatchOf(raw);
    ReadBack(raw);
    assert text != "" by {
      assert SplitLines("") == [];
    }
    OnlyFile(f.path, Some(text), None, maxChars);
    var slices := SlicesOf([Change(f.path, Some(text), None)], maxChars);
    forall i | 0 <= i < |slices| ensures slices[i].kind == Unknown && !Touches(f, slices[i], gap) {
      SlicesUntouched(text, raw, f, maxChars, gap, i);
    }
    SlicesOfOrdered([Change(f.path, Some(text), None)], maxChars);
    KeptIff(f, slices, gap);
  }

  lemma OnlyFile(path: string, patch: Option<string>, status: Option<string>, maxChars: int)
    ensures SlicesOf([Change(path, patch, status)], maxChars)
            == FileSlices(path, patch, status, maxChars, MAX_SLICES_PER_FILE)
  {
    var each := SlicesOfEach([Change(path, patch, status)], maxChars);
    assert each[..0] == [] && Flatten(each[..0]) == [] && Flatten(each) == each[0];
  }

  /** Thirteen truthful hunks, the last of which adds the finding's line; the finding is kept all the same. */
  ghost predicate Missed(raw: seq<RawHunk>, f: PriorFinding, maxChars: int) {
    && |raw| == MAX_SLICES_PER_FILE + 1 && AllProper(raw)
    && f.lineStart.Some? && f.lineEnd == f.lineStart
      && (exists k :: 0 <= k < |raw[12].added| && raw[12].added[k] == f.lineStart.value)
    && Parse(SplitLines(PatchOf(raw))) == raw
    && Disposition(f, SlicesOf([Change(f.path, Some(PatchOf(raw)), None)], maxChars), 0) == Keep
  }

  lemma TwoKindsProper(raw: seq<RawHunk>, a: RawHunk, b: RawHunk)
    requires Proper(a) && Proper(b) && raw != [] && forall i :: 0 <= i < |raw| ==> raw[i] == a || raw[i] == b
    ensures AllProper(raw)
  {
    forall i | 0 <= i < |raw| ensures Proper(raw[i]) {
      if raw[i] != a {
        assert raw[i] == b;
      }
    }
  }

  lemma MissedByThirteen(raw: seq<RawHunk>, a: RawHunk, f: PriorFinding, maxChars: int)
    requires |raw| == MAX_SLICES_PER_FILE + 1 && AllProper(raw)
    requires a.header.newStart == 1 && a.header.newCount == 1
    requires forall i :: 0 <= i < |raw| && i < MAX_SLICES_PER_FILE ==> raw[i] == a
    requires raw[12].added == [9] && f.lineStart == Some(9) && f.lineEnd == Some(9)
    ensures Missed(raw, f, maxChars)
  {
    assert raw[12].added[0] == 9;
    FarFromCopies(raw, a, f);
    PastTheLimit(raw, f, maxChars, 0);
  }

  lemma FarFromCopies(raw: seq<RawHunk>, a: RawHunk, f: PriorFinding)
    requires a.header.newStart == 1 && a.header.newCount == 1 && f.lineStart == Some(9) && f.lineEnd == Some(9)
    requires forall i :: 0 <= i < |raw| && i < MAX_SLICES_PER_FILE ==> raw[i] == a
    ensures FarFromSliced(f, raw, 0)
  {
    assert WindowEnd(a) == 1 && !LinesNear(9, 9, 1, 1, 0);
  }

  ghost predicate GoodHeader(text: string, header: Header) {
    Strip(text) == text && IsMarker(text) && Unbroken(text) && ParseHeader(text) == Some(header)
  }

  function HeaderText(d: char): string {
    "@@ -1 +" + [d] + " @@"
  }

  lemma OneDigit(d: char)
    requires IsDigit(d)
    ensures Digits([d]) && ToNat([d]) == d as int - '0' as int
  {
    assert [d][..0] == "" && ToNat("") == 0;
  }

  lemma HeaderTextIs(d: char)
    ensures HeaderText(d) == HeaderLine(RangeText(['1'], None), RangeText([d], None), "")
  {}

  lemma HeaderTextParses(d: char)
    requires IsDigit(d)
    ensures ParseHeader(HeaderText(d)) == Some(Header(1, 1, d as int - '0' as int, 1))
  {
    OneDigit('1');
    OneDigit(d);
    HeaderReads(['1'], None, [d], None, "");
    HeaderTextIs(d);
  }

  lemma HeaderTextIsMarker(d: char)
    requires IsDigit(d)
    ensures Strip(HeaderText(d)) == HeaderText(d) && IsMarker(HeaderText(d)) && Unbroken(HeaderText(d))
  {
    var line := HeaderText(d);
    assert StripLeft(line) == line && StripRight(line) == line;
    assert line[..2] == "@@";
  }

  lemma HeaderTextGood(d: char)
    requires IsDigit(d)
    ensures GoodHeader(HeaderText(d), Header(1, 1, d as int - '0' as int, 1))
  {
    HeaderTextParses(d);
    HeaderTextIsMarker(d);
  }

  lemma OneLineCount(line: string)
    requires InNewFile(line)
    ensures NewFileCount([line]) == 1
  {
    assert [line][..0] == [];
  }

  lemma OneLineAdds(start: nat, line: string)
    ensures AddedNumbers([line], start) == if Adds(line) then [start] else []
  {
    assert [line][..0] == [];
  }

  /** A line of the new file that opens no hunk. */
  ghost predicate PlainLine(line: string) {
    Unbroken(line) && InNewFile(line) && !IsMarker(line)
  }

  lemma WellMadeFrom(text: string, header: Header, line: string, added: seq<nat>)
    requires GoodHeader(text, header) && PlainLine(line) && added == AddedNumbers([line], header.newStart)
    ensures WellMade(RawHunk(text, header, [line], added)) && AllUnbroken([line])
  {}

  lemma OneLineProper(text: string, start: nat, line: string, added: seq<nat>)
    requires GoodHeader(text, Header(1, 1, start, 1)) && PlainLine(line)
    requires added == if Adds(line) then [start] else []
    ensures Proper(RawHunk(text, Header(1, 1, start, 1), [line], added))
  {
    OneLineCount(line);
    OneLineAdds(start, line);
    WellMadeFrom(text, Header(1, 1, start, 1), line, added);
  }

  lemma TextIsPlain(line: string)
    requires |line| == 2 && !IsSpace(line[1]) && (line[0] == '+' || line[0] == ' ')
    ensures PlainLine(line)
  {
    if IsSpace(line[0]) {
      assert line[1..] == [line[1]];
      assert StripLeft(line) == [line[1]];
      assert StripRight([line[1]]) == [line[1]];
    } else {
      assert Strip(line) == line;
    }
  }

  /** Twelve copies of `a`, then `b`. */
  function Thirteen(a: RawHunk, b: RawHunk): (raw: seq<RawHunk>)
    ensures |raw| == MAX_SLICES_PER_FILE + 1 && raw[12] == b
    ensures forall i :: 0 <= i < |raw| && i < MAX_SLICES_PER_FILE ==> raw[i] == a
  {
    seq(MAX_SLICES_PER_FILE, _ => a) + [b]
  }

  lemma MissedWith(a: RawHunk, b: RawHunk, f: PriorFinding, maxChars: int)
    requires Proper(a) && a.header.newStart == 1 && a.header.newCount == 1
    requires Proper(b) && b.added == [9] && f.lineStart == Some(9) && f.lineEnd == Some(9)
    ensures exists raw :: Missed(raw, f, maxChars)
  {
    TwoKindsProper(Thirteen(a, b), a, b);
    MissedByThirteen(Thirteen(a, b), a, f, maxChars);
  }

  lemma ContextExample(one: string)
    requires GoodHeader(one, Header(1, 1, 1, 1))
    ensures Proper(RawHunk(one, Header(1, 1, 1, 1), [" a"], []))
  {
    TextIsPlain(" a");
    OneLineProper(one, 1, " a", []);
  }

  lemma AddedExample(nine: string)
    requires GoodHeader(nine, Header(1, 1, 9, 1))
    ensures Proper(RawHunk(nine, Header(1, 1, 9, 1), ["+b"], [9]))
  {
    TextIsPlain("+b");
    OneLineProper(nine, 9, "+b", [9]);
  }

  lemma ExampleIsMissed(one: string, nine: string, f: PriorFinding, maxChars: int)
    requires GoodHeader(one, Header(1, 1, 1, 1)) && GoodHeader(nine, Header(1, 1, 9, 1))
    requires f.lineStart == Some(9) && f.lineEnd == Some(9)
    ensures exists raw :: Missed(raw, f, maxChars)
  {
    ContextExample(one);
    AddedExample(nine);
    MissedWith(RawHunk(one, Header(1, 1, 1, 1), [" a"], []), RawHunk(nine, Header(1, 1, 9, 1), ["+b"], [9]), f,
               maxChars);
  }

  /**
    The promise fails past the limit: twelve hunks at line 1 and one that adds line 9, and the finding
    on line 9 is kept.
   */
  lemma ThirteenthHunkIsMissed(f: PriorFinding, maxChars: int)
    requires f.lineStart == Some(9) && f.lineEnd == Some(9)
    ensures exists raw :: Missed(raw, f, maxChars)
  {
    HeaderTextGood('1');
    HeaderTextGood('9');
    ExampleIsMissed(HeaderText('1'), HeaderText('9'), f, maxChars);
  }

  // ---------------------------------------------------------------- the plan

  function Count(resolutions: seq<Resolution>, action: Action): nat {
    if resolutions == [] then 0
    else
      var n := |resolutions| - 1;
      Count(resolutions[..n], action) + (if resolutions[n].action == action then 1 else 0)
  }

  /** The three counts of a plan add up to its resolutions. */
  lemma {:induction false} CountsPartition(resolutions: seq<Resolution>)
    ensures Count(resolutions, Resolved) + Count(resolutions, Stale) + Count(resolutions, Keep) == |resolutions|
  {
    if resolutions != [] {
      CountsPartition(resolutions[..|resolutions| - 1]);
    }
  }

  /** The `i`-th agent owns category `c`, one of `categories`. */
  ghost predicate Owned(registry: Registry, agent: string, categories: set<string>, i: int, c: string) {
    && 0 <= i < |registry| && registry[i].0 == agent
    && c in categories && CategoryAllowed(c, registry[i].1)
  }

  /** An agent is targeted exactly when one of its categories owns a stale finding's category. */
  lemma {:induction false} AgentsForIff(categories: set<string>, registry: Registry, agent: string)
    ensures agent in AgentsFor(categories, registry) ==>
      exists i, c :: Owned(registry, agent, categories, i, c)
    ensures (exists i, c :: Owned(registry, agent, categories, i, c)) ==> agent in AgentsFor(categories, registry)
  {
    if registry != [] {
      var n := |registry| - 1;
      var front := registry[..n];
      AgentsForIff(categories, front, agent);
      if i, c :| Owned(front, agent, categories, i, c) {
        assert Owned(registry, agent, categories, i, c);
      }
      if i, c :| Owned(registry, agent, categories, i, c) {
        assert i < n ==> Owned(front, agent, categories, i, c);
      }
      if registry[n].0 == agent {
        if c :| c in categories && CategoryAllowed(c, registry[n].1) {
          assert Owned(registry, agent, categories, n, c);
        }
      }
    }
  }

  ghost predicate Owns(agent: string, registry: Registry, category: string) {
    exists i :: 0 <= i < |registry| && registry[i].0 == agent && CategoryAllowed(category, registry[i].1)
  }

  ghost predicate CallsFor(r: Resolution, agent: string, registry: Registry) {
    r.action == Stale && r.finding.category != "" && Owns(agent, registry, r.finding.category)
  }

  /** The agents run again are exactly those that own the category of some finding to re-evaluate. */
  lemma TargetedIff(findings: seq<PriorFinding>, slices: seq<FileSlice>, gap: int, registry: Registry, agent: string)
    ensures
      var plan := Plan(findings, slices, gap, registry);
      agent in plan.targetedAgents <==>
      exists k :: 0 <= k < |plan.resolutions| && CallsFor(plan.resolutions[k], agent, registry)
  {
    var plan := Plan(findings, slices, gap, registry);
    var stale := StaleCategories(plan.resolutions);
    AgentsForIff(stale, registry, agent);
    if agent in plan.targetedAgents {
      var i, c :| Owned(registry, agent, stale, i, c);
      assert Owns(agent, registry, c);
      var k :| 0 <= k < |plan.resolutions| && plan.resolutions[k].action == Stale
        && plan.resolutions[k].finding.category == c;
      assert CallsFor(plan.resolutions[k], agent, registry);
    }
    if k :| 0 <= k < |plan.resolutions| && CallsFor(plan.resolutions[k], agent, registry) {
      var c := plan.resolutions[k].finding.category;
      var i :| 0 <= i < |registry| && registry[i].0 == agent && CategoryAllowed(c, registry[i].1);
      assert c in stale && Owned(registry, agent, stale, i, c);
    }
  }

  /** Every finding with an id and a path is decided once, in input order, and no other one. */
  lemma {:induction false} ResolutionsCover(findings: seq<PriorFinding>, slices: seq<FileSlice>, gap: int)
    ensures
      var resolutions := Resolutions(findings, slices, gap);
      (forall f :: f in findings && f.id != "" && f.path != "" ==>
       Resolution(f, Disposition(f, slices, gap)) in resolutions) &&
      (forall r :: r in resolutions ==> r.finding in findings && r.action == Disposition(r.finding, slices, gap))
  {
    if findings != [] {
      var n := |findings| - 1;
      ResolutionsCover(findings[..n], slices, gap);
      assert findings == findings[..n] + [findings[n]];
    }
  }

  /** An agent's category, written with or without a final slash, owns itself and everything below it. */
  lemma OwnsIff(category: string, base: string)
    requires base == "" || base[|base| - 1] != '/'
    ensures CategoryAllowed(category, [base]) <==> category == base || exists rest :: category == base + ("/" + rest)
    ensures CategoryAllowed(category, [base + "/"]) <==> CategoryAllowed(category, [base])
  {
    var slashed := base + "/";
    assert slashed[..|slashed| - 1] == base;
    assert WithoutSlashes(base) == base && WithoutSlashes(slashed) == base;
    assert [base][0] == base && [slashed][0] == slashed;
    if base + "/" <= category {
      assert category == base + ("/" + category[|base| + 1..]);
    }
    if rest :| category == base + ("/" + rest) {
      assert base + "/" <= category;
    }
  }

  /**
    A change without patch text leaves findings with lines alone and makes the others stale, unless it
    removes the file.
   */
  lemma ChangeWithoutPatch(f: PriorFinding, patch: Option<string>, status: Option<string>, maxChars: int, gap: int)
    requires patch == None || patch == Some("")
    ensures
      Disposition(f, SlicesOf([Change(f.path, patch, status)], maxChars), gap) ==
      if InferKind(status) == Removed then Resolved else if f.lineStart.None? then Stale else Keep
  {
    var slice := PathOnlySlice(f.path, InferKind(status));
    var slices := SlicesOf([Change(f.path, patch, status)], maxChars);
    OnlyFile(f.path, patch, status, maxChars);
    assert slices == [slice];
    assert slices[..0] == [] && SlicesFor(slices, f.path) == [slice];
    assert slices[0].path == f.path && slices[0].kind == InferKind(status);
  }

  // ---------------------------------------------------------------- what an agent is shown

  /**
    The text of the i-th slice is the i-th hunk, header first, with at most `maxChars` characters of its body. If the
    body fits, the text is a patch of just that hunk, with the same ranges and added lines.
   */
  lemma SliceShowsHunk(path: string, patch: string, status: Option<string>, maxChars: nat, i: nat)
    requires patch != "" && i < |Hunks(patch)| && i < MAX_SLICES_PER_FILE
    ensures |FileSlices(path, Some(patch), status, maxChars, MAX_SLICES_PER_FILE)| > i
    ensures
      var (text, h) := (FileSlices(path, Some(patch), status, maxChars, MAX_SLICES_PER_FILE)[i].patch, Hunks(patch)[i]);
      && h.header + "\n" <= text && |text| <= |h.header| + 1 + maxChars
      && (|h.body| <= maxChars ==> Hunks(text) == [h])
  {
    var h := Hunks(patch)[i];
    var w := FileSlices(path, Some(patch), status, maxChars, MAX_SLICES_PER_FILE)[i];
    assert w == HunkSlice(path, h, InferKind(status), maxChars);
    if |h.body| <= maxChars {
      assert h.body[..SliceEnd(|h.body|, maxChars)] == h.body;
      PrintOneThenParse(patch, i);
    }
  }
}
