/** Python's `str.splitlines`, `"\n".join` and `str.strip`. */
module Text {

  /** The line boundaries of `str.splitlines`. */
  predicate IsBreak(c: char) {
    c == '\n' || c == '\r' || c == '\U{0B}' || c == '\U{0C}' || c == '\U{1C}' || c == '\U{1D}' || c == '\U{1E}'
    || c == '\U{85}' || c == '\U{2028}' || c == '\U{2029}'
  }

  /** The characters `str.strip` removes. */
  predicate IsSpace(c: char) {
    c == ' ' || '\t' <= c <= '\r' || '\U{1C}' <= c <= '\U{1F}' || c == '\U{85}' || c == '\U{A0}' || c == '\U{1680}'
    || '\U{2000}' <= c <= '\U{200A}' || c == '\U{2028}' || c == '\U{2029}' || c == '\U{202F}' || c == '\U{205F}'
    || c == '\U{3000}'
  }

  ghost predicate Unbroken(s: string) {
    forall i :: 0 <= i < |s| ==> !IsBreak(s[i])
  }

  // ---------------------------------------------------------------- lines

  /** The pieces between line boundaries, the last one included even when empty. */
  function Pieces(s: string): (r: seq<string>)
    ensures r != []
  {
    if s == "" then [""]
    else if IsBreak(s[0]) then
      [""] + Pieces(if s[0] == '\r' && |s| > 1 && s[1] == '\n' then s[2..] else s[1..])
    else
      var rest := Pieces(s[1..]);
      [[s[0]] + rest[0]] + rest[1..]
  }

  /** `str.splitlines`: a final line boundary does not open another line. */
  function SplitLines(s: string): seq<string> {
    var pieces := Pieces(s);
    if pieces[|pieces| - 1] == "" then pieces[..|pieces| - 1] else pieces
  }

  /** `"\n".join(lines)`. */
  function Join(lines: seq<string>): string {
    if lines == [] then "" else if |lines| == 1 then lines[0] else lines[0] + "\n" + Join(lines[1..])
  }

  lemma {:induction false} PiecesUnbroken(s: string)
    ensures forall i :: 0 <= i < |Pieces(s)| ==> Unbroken(Pieces(s)[i])
  {
    if s != "" {
      if IsBreak(s[0]) {
        PiecesUnbroken(if s[0] == '\r' && |s| > 1 && s[1] == '\n' then s[2..] else s[1..]);
      } else {
        PiecesUnbroken(s[1..]);
        assert Unbroken(Pieces(s[1..])[0]);
      }
    }
  }

  lemma {:induction false} PiecesOfLine(line: string)
    requires Unbroken(line)
    ensures Pieces(line) == [line]
  {
    if line != "" {
      assert forall i :: 0 <= i < |line[1..]| ==> line[1..][i] == line[i + 1];
      PiecesOfLine(line[1..]);
      assert [line[0]] + line[1..] == line;
      assert Pieces(line) == [[line[0]] + line[1..]] + [line[1..]][1..];
    }
  }

  /** A line ends at a boundary character, of which a carriage return takes a following newline with it. */
  lemma {:induction false} PiecesAfterBreak(line: string, end: string, rest: string)
    requires Unbroken(line)
    requires end == "\r\n" || end == "\n" || (end == "\r" && (rest == "" || rest[0] != '\n'))
    ensures Pieces(line + end + rest) == [line] + Pieces(rest)
  {
    var s := line + end + rest;
    if line == "" {
      assert s[|end|..] == rest;
    } else {
      assert forall i :: 0 <= i < |line[1..]| ==> line[1..][i] == line[i + 1];
      assert s[1..] == line[1..] + end + rest;
      PiecesAfterBreak(line[1..], end, rest);
      assert !IsBreak(s[0]) && s[0] == line[0];
      assert [line[0]] + line[1..] == line;
      assert ([line[1..]] + Pieces(rest))[1..] == Pieces(rest);
    }
  }

  /** Splitting undoes joining. */
  lemma {:induction false} PiecesOfJoin(lines: seq<string>)
    requires lines != [] && forall i :: 0 <= i < |lines| ==> Unbroken(lines[i])
    ensures Pieces(Join(lines)) == lines
  {
    if |lines| == 1 {
      PiecesOfLine(lines[0]);
    } else {
      PiecesOfJoin(lines[1..]);
      PiecesAfterBreak(lines[0], "\n", Join(lines[1..]));
    }
  }

  lemma {:induction false} JoinConcat(a: seq<string>, b: seq<string>)
    requires a != [] && b != []
    ensures Join(a + b) == Join(a) + "\n" + Join(b)
  {
    if |a| == 1 {
      assert (a + b)[1..] == b;
    } else {
      assert (a + b)[1..] == a[1..] + b;
      JoinConcat(a[1..], b);
      assert Join(a + b) == a[0] + "\n" + (Join(a[1..]) + "\n" + Join(b));
    }
  }

  // ---------------------------------------------------------------- strip

  function StripLeft(s: string): string {
    if s == "" || !IsSpace(s[0]) then s else StripLeft(s[1..])
  }

  function StripRight(s: string): string {
    if s == "" || !IsSpace(s[|s| - 1]) then s else StripRight(s[..|s| - 1])
  }

  /** `str.strip`. */
  function Strip(s: string): string {
    StripRight(StripLeft(s))
  }

  lemma {:induction false} StripRightPrefix(s: string)
    ensures StripRight(s) <= s
    ensures StripRight(s) != "" ==> !IsSpace(StripRight(s)[|StripRight(s)| - 1])
    ensures s != "" && !IsSpace(s[0]) ==> StripRight(s) != ""
  {
    if s != "" && IsSpace(s[|s| - 1]) {
      StripRightPrefix(s[..|s| - 1]);
    }
  }

  lemma {:induction false} StripLeftSuffix(s: string)
    ensures StripLeft(s) != "" ==> !IsSpace(StripLeft(s)[0])
    ensures Unbroken(s) ==> Unbroken(StripLeft(s))
  {
    if s != "" && IsSpace(s[0]) {
      assert forall i :: 0 <= i < |s[1..]| ==> s[1..][i] == s[i + 1];
      StripLeftSuffix(s[1..]);
    }
  }

  /** Stripping twice strips once, and introduces no line boundary. */
  lemma StripIdempotent(s: string)
    ensures Strip(Strip(s)) == Strip(s)
    ensures Unbroken(s) ==> Unbroken(Strip(s))
  {
    var t := StripLeft(s);
    StripLeftSuffix(s);
    StripRightPrefix(t);
    if Strip(s) != "" {
      assert Strip(s)[0] == t[0];
    }
  }

  ghost predicate Blank(s: string) {
    forall i :: 0 <= i < |s| ==> IsSpace(s[i])
  }

  lemma {:induction false} StripLeftCore(front: string, rest: string)
    requires Blank(front) && (rest == "" || !IsSpace(rest[0]))
    ensures StripLeft(front + rest) == rest
  {
    if front == "" {
      assert front + rest == rest;
    } else {
      assert (front + rest)[1..] == front[1..] + rest;
      StripLeftCore(front[1..], rest);
    }
  }

  lemma {:induction false} StripRightCore(rest: string, back: string)
    requires Blank(back) && (rest == "" || !IsSpace(rest[|rest| - 1]))
    ensures StripRight(rest + back) == rest
  {
    if back == "" {
      assert rest + back == rest;
    } else {
      var n := |back| - 1;
      assert (rest + back)[..|rest| + n] == rest + back[..n];
      StripRightCore(rest, back[..n]);
    }
  }

  /** Stripping removes the blanks on both sides and nothing else. */
  lemma StripCore(front: string, core: string, back: string)
    requires Blank(front) && Blank(back)
    requires core != "" && !IsSpace(core[0]) && !IsSpace(core[|core| - 1])
    ensures Strip(front + core + back) == core
  {
    assert front + core + back == front + (core + back);
    StripLeftCore(front, core + back);
    StripRightCore(core, back);
  }

  /** What stripping removes is blank. */
  lemma {:induction false} StripLeftRemoves(s: string) returns (front: string)
    ensures Blank(front) && s == front + StripLeft(s)
  {
    if s == "" || !IsSpace(s[0]) {
      front := "";
    } else {
      var rest := StripLeftRemoves(s[1..]);
      front := [s[0]] + rest;
    }
  }
}
