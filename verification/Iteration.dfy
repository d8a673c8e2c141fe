/**
  `iteration.py` and the slicing of `diff_utils.py`: which earlier findings a new commit resolves,
  makes stale or leaves alone.
 */
module Iteration {
  import opened Common
  import opened Text
  import opened DiffParser

  // ---------------------------------------------------------------- slices

  datatype ChangeKind = Added | Modified | Removed | Renamed | Unknown

  datatype FileSlice = FileSlice(path: string, patch: string, newStart: Option<int>, newEnd: Option<int>,
                                 kind: ChangeKind)

  function Lower(s: string): string {
    if s == "" then ""
    else [if 'A' <= s[0] <= 'Z' then (s[0] as int - 'A' as int + 'a' as int) as char else s[0]] + Lower(s[1..])
  }

  /** `_infer_kind`, for statuses in ASCII. */
  function InferKind(status: Option<string>): ChangeKind {
    if status.None? || status.value == "" then Unknown
    else
      var lowered := Lower(Strip(status.value));
      if lowered == "added" then Added
      else if lowered == "modified" then Modified
      else if lowered == "removed" || lowered == "deleted" then Removed
      else if lowered == "renamed" || lowered == "copied" then Renamed
      else Unknown
  }

  function KindText(kind: ChangeKind): string {
    match kind
    case Added => "added"
    case Modified => "modified"
    case Removed => "removed"
    case Renamed => "renamed"
    case Unknown => "unknown"
  }

  /** A slice that names the file and carries no line numbers. */
  function PathOnlySlice(path: string, kind: ChangeKind): FileSlice {
    FileSlice(path, "(no diff window supplied; file " + KindText(kind) + " in this PR)", None, None, kind)
  }

  function HunkSlice(path: string, h: Hunk, kind: ChangeKind, maxChars: int): FileSlice {
    var end := if h.range.newCount != 0 then h.range.newStart + h.range.newCount - 1 else h.range.newStart;
    FileSlice(path, h.header + "\n" + h.body[..SliceEnd(|h.body|, maxChars)], Some(h.range.newStart), Some(end), kind)
  }

  /** The slices of one changed file: one without a window when there is no patch text. */
  function FileSlices(path: string, patch: Option<string>, status: Option<string>, maxChars: int,
                      maxSlices: int): (r: seq<FileSlice>)
    ensures forall i :: 0 <= i < |r| ==> r[i].path == path
  {
    if patch.None? || patch.value == "" then [PathOnlySlice(path, InferKind(status))]
    else
      var hunks := Hunks(patch.value);
      seq(SliceEnd(|hunks|, maxSlices), i requires 0 <= i < |hunks| =>
          HunkSlice(path, hunks[i], InferKind(status), maxChars))
  }

  method ChangedFileSlices(path: string, patch: Option<string>, status: Option<string>, maxChars: int, maxSlices: int)
    returns (slices: seq<FileSlice>)
    ensures slices == FileSlices(path, patch, status, maxChars, maxSlices)
  {
    if patch.None? || patch.value == "" {
      return [PathOnlySlice(path, InferKind(status))];
    }
    var hunks := ParsePatch(patch.value);
    slices := [];
    for i := 0 to SliceEnd(|hunks|, maxSlices)
      invariant slices == FileSlices(path, patch, status, maxChars, maxSlices)[..i]
    {
      slices := slices + [HunkSlice(path, hunks[i], InferKind(status), maxChars)];
    }
  }

  /** A changed file: path, patch text and status. */
  datatype Change = Change(path: string, patch: Option<string>, status: Option<string>)

  const MAX_SLICES_PER_FILE := 12

  function Flatten<T>(parts: seq<seq<T>>): seq<T> {
    if parts == [] then [] else Flatten(parts[..|parts| - 1]) + parts[|parts| - 1]
  }

  function SlicesOfEach(files: seq<Change>, maxChars: int): (r: seq<seq<FileSlice>>)
    ensures |r| == |files|
    ensures forall i :: 0 <= i < |r| ==>
      r[i] == FileSlices(files[i].path, files[i].patch, files[i].status, maxChars, MAX_SLICES_PER_FILE)
  {
    seq(|files|, i requires 0 <= i < |files| =>
      FileSlices(files[i].path, files[i].patch, files[i].status, maxChars, MAX_SLICES_PER_FILE))
  }

  /** The slices of all files of a commit. */
  function SlicesOf(files: seq<Change>, maxChars: int): seq<FileSlice> {
    Flatten(SlicesOfEach(files, maxChars))
  }

  method FileSlicesFromPatches(files: seq<Change>, maxChars: int) returns (slices: seq<FileSlice>)
    ensures slices == SlicesOf(files, maxChars)
  {
    slices := [];
    ghost var each := SlicesOfEach(files, maxChars);
    for n := 0 to |files|
      invariant slices == Flatten(each[..n])
    {
      assert each[..n + 1][..n] == each[..n];
      var more := ChangedFileSlices(files[n].path, files[n].patch, files[n].status, maxChars, MAX_SLICES_PER_FILE);
      slices := slices + more;
    }
    assert each[..|files|] == each;
  }

  // ---------------------------------------------------------------- classification

  datatype Action = Resolved | Stale | Keep

  datatype PriorFinding = PriorFinding(id: string, path: string, category: string, lineStart: Option<int>,
                                       lineEnd: Option<int>)

  datatype Resolution = Resolution(finding: PriorFinding, action: Action)

  datatype IterationPlan = IterationPlan(
    resolutions: seq<Resolution>,
    targetedAgents: seq<string>,
    changedPaths: set<string>,
    removedPaths: set<string>)

  /** One window of `_overlaps_any_window`. */
  predicate Overlaps(start: int, end: int, window: FileSlice, gap: int) {
    window.newStart.Some? &&
    var (first, last) := (window.newStart.value, if window.newEnd.Some? then window.newEnd.value
                          else window.newStart.value);
    !(end + gap < first || last + gap < start)
  }

  function LastLine(f: PriorFinding): int
    requires f.lineStart.Some?
  {
    if f.lineEnd.Some? then f.lineEnd.value else f.lineStart.value
  }

  predicate OverlapsAny(windows: seq<FileSlice>, f: PriorFinding, gap: int) {
    f.lineStart.None? || exists i :: 0 <= i < |windows| && Overlaps(f.lineStart.value, LastLine(f), windows[i], gap)
  }

  function SlicesFor(slices: seq<FileSlice>, path: string): seq<FileSlice> {
    if slices == [] then []
    else
      var n := |slices| - 1;
      SlicesFor(slices[..n], path) + (if slices[n].path == path then [slices[n]] else [])
  }

  predicate IsRemoved(slices: seq<FileSlice>, path: string) {
    exists i :: 0 <= i < |slices| && slices[i].path == path && slices[i].kind == Removed
  }

  function Disposition(f: PriorFinding, slices: seq<FileSlice>, gap: int): Action {
    if IsRemoved(slices, f.path) then Resolved
    else if SlicesFor(slices, f.path) == [] then Keep
    else if OverlapsAny(SlicesFor(slices, f.path), f, gap) then Stale
    else Keep
  }

  function Resolutions(findings: seq<PriorFinding>, slices: seq<FileSlice>, gap: int): seq<Resolution> {
    if findings == [] then []
    else
      var n := |findings| - 1;
      var f := findings[n];
      Resolutions(findings[..n], slices, gap) +
        (if f.id == "" || f.path == "" then [] else [Resolution(f, Disposition(f, slices, gap))])
  }

  function StaleCategories(resolutions: seq<Resolution>): (r: set<string>)
    ensures forall c :: c in r <==>
      c != "" &&
      exists i :: 0 <= i < |resolutions| && resolutions[i].action == Stale && resolutions[i].finding.category == c
  {
    set i | 0 <= i < |resolutions| && resolutions[i].action == Stale && resolutions[i].finding.category != ""
      :: resolutions[i].finding.category
  }

  function WithoutSlashes(s: string): string {
    if s != "" && s[|s| - 1] == '/' then WithoutSlashes(s[..|s| - 1]) else s
  }

  /** The category is one of the agent's, or below one of them. */
  predicate CategoryAllowed(category: string, allowed: seq<string>) {
    exists i :: 0 <= i < |allowed| &&
      var base := WithoutSlashes(allowed[i]);
      category == base || base + "/" <= category
  }

  /** A prompt registry in declaration order. */
  type Registry = seq<(string, seq<string>)>

  function AgentsFor(categories: set<string>, registry: Registry): seq<string> {
    if registry == [] then []
    else
      var n := |registry| - 1;
      AgentsFor(categories, registry[..n]) +
        (if exists c :: c in categories && CategoryAllowed(c, registry[n].1) then [registry[n].0] else [])
  }

  function Plan(findings: seq<PriorFinding>, slices: seq<FileSlice>, gap: int, registry: Registry): IterationPlan {
    var resolutions := Resolutions(findings, slices, gap);
    IterationPlan(resolutions, AgentsFor(StaleCategories(resolutions), registry),
                  set i | 0 <= i < |slices| :: slices[i].path,
                  set i | 0 <= i < |slices| && slices[i].kind == Removed :: slices[i].path)
  }

  // ---------------------------------------------------------------- the loops

  /** The index has an entry for the path exactly if it has slices, and it holds them in order. */
  ghost predicate Indexed(byPath: map<string, seq<FileSlice>>, slices: seq<FileSlice>, path: string) {
    && (path in byPath <==> SlicesFor(slices, path) != [])
    && (path in byPath ==> byPath[path] == SlicesFor(slices, path))
  }

  ghost predicate Index(byPath: map<string, seq<FileSlice>>, slices: seq<FileSlice>) {
    forall path :: Indexed(byPath, slices, path)
  }

  function Filed(byPath: map<string, seq<FileSlice>>, slice: FileSlice): map<string, seq<FileSlice>> {
    byPath[slice.path := (if slice.path in byPath then byPath[slice.path] else []) + [slice]]
  }

  lemma IndexedNext(byPath: map<string, seq<FileSlice>>, slices: seq<FileSlice>, slice: FileSlice, path: string)
    requires Indexed(byPath, slices, path)
    ensures Indexed(Filed(byPath, slice), slices + [slice], path)
  {
    assert (slices + [slice])[..|slices|] == slices;
  }

  lemma IndexNext(byPath: map<string, seq<FileSlice>>, slices: seq<FileSlice>, slice: FileSlice)
    requires Index(byPath, slices)
    ensures Index(Filed(byPath, slice), slices + [slice])
  {
    var (filed, more) := (Filed(byPath, slice), slices + [slice]);
    forall path ensures Indexed(filed, more, path) {
      assert Indexed(byPath, slices, path);
      IndexedNext(byPath, slices, slice, path);
    }
  }

  /** The first loop: the slices of each path, and the removed paths. */
  method IndexSlices(slices: seq<FileSlice>) returns (byPath: map<string, seq<FileSlice>>, removed: set<string>)
    ensures Index(byPath, slices)
    ensures byPath.Keys == set i | 0 <= i < |slices| :: slices[i].path
    ensures removed == set i | 0 <= i < |slices| && slices[i].kind == Removed :: slices[i].path
  {
    byPath, removed := map[], {};
    for n := 0 to |slices|
      invariant Index(byPath, slices[..n])
      invariant byPath.Keys == set i | 0 <= i < n :: slices[i].path
      invariant removed == set i | 0 <= i < n && slices[i].kind == Removed :: slices[i].path
    {
      var slice := slices[n];
      assert slices[..n + 1] == slices[..n] + [slice];
      if slice.kind == Removed {
        removed := removed + {slice.path};
      }
      IndexNext(byPath, slices[..n], slice);
      byPath := Filed(byPath, slice);
    }
    assert slices[..|slices|] == slices;
  }

  method PlanReviewDelta(findings: seq<PriorFinding>, slices: seq<FileSlice>, gap: int, registry: Registry)
    returns (plan: IterationPlan)
    ensures plan == Plan(findings, slices, gap, registry)
  {
    var byPath, removed := IndexSlices(slices);
    var resolutions: seq<Resolution> := [];
    var staleCategories: set<string> := {};
    for n := 0 to |findings|
      invariant resolutions == Resolutions(findings[..n], slices, gap)
      invariant staleCategories == StaleCategories(resolutions)
    {
      var f := findings[n];
      assert findings[..n + 1][..n] == findings[..n];
      if f.id != "" && f.path != "" {
        assert f.path in removed <==> IsRemoved(slices, f.path);
        assert Indexed(byPath, slices, f.path);
        var action :=
          if f.path in removed then Resolved
          else if f.path !in byPath then Keep
          else if OverlapsAny(byPath[f.path], f, gap) then Stale
          else Keep;
        StaleCategoriesSnoc(resolutions, Resolution(f, action));
        resolutions := resolutions + [Resolution(f, action)];
        if action == Stale && f.category != "" {
          staleCategories := staleCategories + {f.category};
        }
      }
    }
    assert findings[..|findings|] == findings;
    var targeted := AgentsForCategories(staleCategories, registry);
    return IterationPlan(resolutions, targeted, byPath.Keys, removed);
  }

  lemma StaleCategoriesSnoc(resolutions: seq<Resolution>, r: Resolution)
    ensures StaleCategories(resolutions + [r]) == StaleCategories(resolutions) +
      if r.action == Stale && r.finding.category != "" then {r.finding.category} else {}
  {
    var more := resolutions + [r];
    forall c ensures c in StaleCategories(more) <==>
      c in StaleCategories(resolutions) || (r.action == Stale && c != "" && r.finding.category == c)
    {
      if c in StaleCategories(resolutions) {
        var i :| 0 <= i < |resolutions| && resolutions[i].action == Stale && resolutions[i].finding.category == c;
        assert more[i] == resolutions[i];
      }
      if r.action == Stale && r.finding.category == c {
        assert more[|resolutions|] == r;
      }
    }
  }

  method AgentsForCategories(categories: set<string>, registry: Registry) returns (wanted: seq<string>)
    ensures wanted == AgentsFor(categories, registry)
  {
    wanted := [];
    for n := 0 to |registry|
      invariant wanted == AgentsFor(categories, registry[..n])
    {
      assert registry[..n + 1][..n] == registry[..n];
      if exists c :: c in categories && CategoryAllowed(c, registry[n].1) {
        wanted := wanted + [registry[n].0];
      }
    }
    assert registry[..|registry|] == registry;
  }
}
