/** excerpt: windows of lines around the first matches of a file, merged when they touch or nearly touch. */
module EvidenceExcerpts {

  /** Lines start..end - 1. */
  datatype Range = Range(start: nat, end: nat)

  /** Line numbers from 1, and the numbered lines. */
  datatype Snippet = Snippet(first: nat, last: nat, body: seq<(nat, string)>)

  const MAX_EXCERPT_LINES := 22
  const MAX_MATCHES_PER_FILE := 5
  const RADIUS: nat := Max(3, MAX_EXCERPT_LINES / 2)

  function Max(a: int, b: int): int {
    if a < b then b else a
  }

  function Min(a: int, b: int): int {
    if a < b then a else b
  }

  // ---------- Windows and what they should cover ----------

  /** The window of a match, cut to the file. */
  function Window(index: nat, radius: nat, lines: nat): Range
    requires index < lines
  {
    Range(Max(0, index - radius), Min(lines, index + radius + 1))
  }

  predicate Matches(matching: seq<nat>, lines: nat) {
    && (forall i :: 0 <= i < |matching| ==> matching[i] < lines)
    && (forall i, j :: 0 <= i < j < |matching| ==> matching[i] < matching[j])
  }

  predicate Within(r: Range, line: int) {
    r.start <= line < r.end
  }

  /** A line of the file at most `radius` lines from the i-th match, or in a gap of at most two lines between those of
      the match before and those of this one. */
  predicate Shown(matching: seq<nat>, radius: nat, lines: nat, i: nat, line: int)
    requires Matches(matching, lines) && i < |matching|
  {
    || (0 <= line < lines && matching[i] - radius <= line <= matching[i] + radius)
    || (i > 0 && matching[i - 1] + radius < line < matching[i] - radius && matching[i] - matching[i - 1] <= 2 * radius + 3)
  }

  /** In bounds, non-empty, in order and more than two lines apart. */
  predicate Apart(ranges: seq<Range>, lines: nat) {
    && (forall k :: 0 <= k < |ranges| ==> ranges[k].start < ranges[k].end <= lines)
    && (forall k :: 0 < k < |ranges| ==> ranges[k].start > ranges[k - 1].end + 2)
  }

  predicate Covers(ranges: seq<Range>, line: int) {
    exists k :: 0 <= k < |ranges| && Within(ranges[k], line)
  }

  /** A window that comes no earlier than the last range either extends it or stands apart after it. */
  function Merge(ranges: seq<Range>, w: Range): seq<Range> {
    if ranges != [] && w.start <= ranges[|ranges| - 1].end + 2 then
      var last := ranges[|ranges| - 1];
      ranges[|ranges| - 1 := Range(last.start, Max(last.end, w.end))]
    else ranges + [w]
  }

  lemma MergeCovers(ranges: seq<Range>, w: Range, line: int)
    requires w.start < w.end
    requires ranges != [] ==>
               ranges[|ranges| - 1].start <= ranges[|ranges| - 1].end <= w.end && ranges[|ranges| - 1].start <= w.start
    ensures Covers(Merge(ranges, w), line) <==>
            Covers(ranges, line) || Within(w, line)
            || (ranges != [] && w.start <= ranges[|ranges| - 1].end + 2 && ranges[|ranges| - 1].end <= line < w.start)
  {
    var merged := Merge(ranges, w);
    if ranges != [] && w.start <= ranges[|ranges| - 1].end + 2 {
      var n := |ranges| - 1;
      assert forall k :: 0 <= k < n ==> merged[k] == ranges[k];
      if Covers(ranges, line) {
        var k :| 0 <= k < |ranges| && Within(ranges[k], line);
        assert Within(merged[k], line);
      }
      assert Within(merged[n], line) <==> Within(ranges[n], line) || (ranges[n].end <= line < w.end);
      if Covers(merged, line) {
        var k :| 0 <= k < |merged| && Within(merged[k], line);
        if k < n {
          assert Within(ranges[k], line);
        } else {
          assert Within(merged[n], line);
        }
      }
      assert Within(merged[n], line) ==> Covers(merged, line);
      assert Within(ranges[n], line) ==> Covers(ranges, line);
    } else {
      if Covers(ranges, line) {
        var k :| 0 <= k < |ranges| && Within(ranges[k], line);
        assert Within(merged[k], line);
      }
      assert merged[|ranges|] == w;
      if Covers(merged, line) {
        var k :| 0 <= k < |merged| && Within(merged[k], line);
        assert k < |ranges| ==> Within(ranges[k], line);
      }
    }
  }

  /** The ranges show exactly the windows of the first n matches and the small gaps between them. */
  ghost predicate ShowsFirst(ranges: seq<Range>, matching: seq<nat>, radius: nat, lines: nat, n: nat)
    requires Matches(matching, lines) && n <= |matching|
  {
    forall line: int :: Covers(ranges, line) <==> exists i :: 0 <= i < n && Shown(matching, radius, lines, i, line)
  }

  /** The last range ends with the window of the last match. */
  predicate EndsWith(ranges: seq<Range>, w: Range) {
    ranges != [] && ranges[|ranges| - 1].start <= w.start && ranges[|ranges| - 1].end == w.end
  }

  lemma MergeShowsOneMore(ranges: seq<Range>, matching: seq<nat>, radius: nat, lines: nat, n: nat)
    requires Matches(matching, lines) && n < |matching| && Apart(ranges, lines)
    requires ShowsFirst(ranges, matching, radius, lines, n)
    requires if n == 0 then ranges == [] else EndsWith(ranges, Window(matching[n - 1], radius, lines))
    ensures ShowsFirst(Merge(ranges, Window(matching[n], radius, lines)), matching, radius, lines, n + 1)
  {
    var w := Window(matching[n], radius, lines);
    var merged := Merge(ranges, w);
    assert n > 0 ==> matching[n - 1] < matching[n];
    forall line: int
      ensures Covers(merged, line) <==> exists i :: 0 <= i < n + 1 && Shown(matching, radius, lines, i, line)
    {
      MergeCovers(ranges, w, line);
      assert Covers(merged, line) <==> Covers(ranges, line) || Shown(matching, radius, lines, n, line);
      if i :| 0 <= i < n && Shown(matching, radius, lines, i, line) {
        assert 0 <= i < n + 1 && Shown(matching, radius, lines, i, line);
      }
    }
  }

  lemma MergeKeepsApart(ranges: seq<Range>, w: Range, lines: nat)
    requires Apart(ranges, lines) && w.start < w.end <= lines
    requires ranges != [] ==> ranges[|ranges| - 1].start <= w.start && ranges[|ranges| - 1].end <= w.end
    ensures Apart(Merge(ranges, w), lines) && EndsWith(Merge(ranges, w), w)
  {
  }

  /** What the merging loop has after the first n matches. */
  ghost predicate MergedUpTo(ranges: seq<Range>, matching: seq<nat>, radius: nat, lines: nat, n: nat)
    requires Matches(matching, lines) && n <= |matching|
  {
    && Apart(ranges, lines)
    && (if n == 0 then ranges == [] else EndsWith(ranges, Window(matching[n - 1], radius, lines)))
    && ShowsFirst(ranges, matching, radius, lines, n)
  }

  lemma MergeOneMore(ranges: seq<Range>, matching: seq<nat>, radius: nat, lines: nat, n: nat)
    requires Matches(matching, lines) && n < |matching| && MergedUpTo(ranges, matching, radius, lines, n)
    ensures MergedUpTo(Merge(ranges, Window(matching[n], radius, lines)), matching, radius, lines, n + 1)
  {
    assert n > 0 ==> matching[n - 1] < matching[n];
    MergeShowsOneMore(ranges, matching, radius, lines, n);
    MergeKeepsApart(ranges, Window(matching[n], radius, lines), lines);
  }

  /** The windows of the first n matches, merged one after another. */
  function Merged(matching: seq<nat>, radius: nat, lines: nat, n: nat): seq<Range>
    requires Matches(matching, lines) && n <= |matching|
  {
    if n == 0 then [] else Merge(Merged(matching, radius, lines, n - 1), Window(matching[n - 1], radius, lines))
  }

  lemma {:induction false} MergedShows(matching: seq<nat>, radius: nat, lines: nat, n: nat)
    requires Matches(matching, lines) && n <= |matching|
    ensures MergedUpTo(Merged(matching, radius, lines, n), matching, radius, lines, n)
  {
    if n > 0 {
      MergedShows(matching, radius, lines, n - 1);
      MergeOneMore(Merged(matching, radius, lines, n - 1), matching, radius, lines, n - 1);
    }
  }

  /** The merging loop. */
  method MergeWindows(matching: seq<nat>, radius: nat, lines: nat, cap: nat) returns (ranges: seq<Range>)
    requires Matches(matching, lines)
    ensures Apart(ranges, lines)
    ensures ShowsFirst(ranges, matching, radius, lines, Min(cap, |matching|))
  {
    ranges := [];
    for i := 0 to Min(cap, |matching|)
      invariant ranges == Merged(matching, radius, lines, i)
    {
      var index := matching[i];
      var start, end := Max(0, index - radius), Min(lines, index + radius + 1);
      if ranges != [] && start <= ranges[|ranges| - 1].end + 2 {
        ranges := ranges[|ranges| - 1 := Range(ranges[|ranges| - 1].start, Max(ranges[|ranges| - 1].end, end))];
      } else {
        ranges := ranges + [Range(start, end)];
      }
    }
    MergedShows(matching, radius, lines, Min(cap, |matching|));
  }

  // ---------- The whole function ----------

  function Numbered(lines: seq<string>, r: Range): seq<(nat, string)>
    requires r.start <= r.end <= |lines|
  {
    seq(r.end - r.start, k requires 0 <= k < r.end - r.start => (r.start + k + 1, lines[r.start + k]))
  }

  /** The lines a snippet shows. */
  function Lines(s: Snippet): Range {
    Range(if s.first == 0 then 0 else s.first - 1, s.last)
  }

  function AllLines(snippets: seq<Snippet>): seq<Range> {
    seq(|snippets|, k requires 0 <= k < |snippets| => Lines(snippets[k]))
  }

  /** Numbered from 1, each with its text. */
  predicate Rendered(s: Snippet, lines: seq<string>) {
    && 1 <= s.first <= s.last <= |lines|
    && |s.body| == s.last - s.first + 1
    && forall k :: 0 <= k < |s.body| ==> s.body[k] == (s.first + k, lines[s.first + k - 1])
  }

  /** The indices of the matching lines among the first n. */
  function MatchingUpTo(lines: seq<string>, matches: string -> bool, n: nat): seq<nat>
    requires n <= |lines|
  {
    if n == 0 then []
    else MatchingUpTo(lines, matches, n - 1) + if matches(lines[n - 1]) then [n - 1] else []
  }

  lemma {:induction false} MatchingAreMatches(lines: seq<string>, matches: string -> bool, n: nat)
    requires n <= |lines|
    ensures Matches(MatchingUpTo(lines, matches, n), n)
    ensures forall i :: 0 <= i < n ==> (i in MatchingUpTo(lines, matches, n) <==> matches(lines[i]))
  {
    if n > 0 {
      MatchingAreMatches(lines, matches, n - 1);
    }
  }

  /** Exactly the indices of the matching lines, in order. */
  method MatchingLines(lines: seq<string>, matches: string -> bool) returns (matching: seq<nat>)
    ensures matching == MatchingUpTo(lines, matches, |lines|)
    ensures Matches(matching, |lines|)
    ensures forall i :: 0 <= i < |lines| ==> (i in matching <==> matches(lines[i]))
  {
    matching := [];
    for i := 0 to |lines|
      invariant matching == MatchingUpTo(lines, matches, i)
    {
      if matches(lines[i]) {
        matching := matching + [i];
      }
    }
    MatchingAreMatches(lines, matches, |lines|);
  }

  /** Apart, and exactly the windows around the matches that are used with the gaps of at most two lines between
      them. */
  ghost predicate ShowsMatches(ranges: seq<Range>, matching: seq<nat>, lines: nat) {
    && Matches(matching, lines)
    && Apart(ranges, lines)
    && ShowsFirst(ranges, matching, RADIUS, lines, Min(MAX_MATCHES_PER_FILE, |matching|))
  }

  /** Every line of the file within 11 lines of one of the first five matching lines is shown, and a line that is
      shown is within 13 of one. */
  lemma NearMatchesAreShown(ranges: seq<Range>, matching: seq<nat>, lines: nat, line: nat)
    requires ShowsMatches(ranges, matching, lines) && line < lines
    ensures (exists i :: 0 <= i < |matching| && i < 5 && matching[i] - 11 <= line <= matching[i] + 11) ==> Covers(ranges, line)
    ensures Covers(ranges, line) ==> exists i :: 0 <= i < |matching| && i < 5 && matching[i] - 13 <= line <= matching[i] + 13
  {
    if i :| 0 <= i < |matching| && i < 5 && matching[i] - 11 <= line <= matching[i] + 11 {
      assert Shown(matching, RADIUS, lines, i, line);
    }
    if Covers(ranges, line) {
      var i :| 0 <= i < Min(MAX_MATCHES_PER_FILE, |matching|) && Shown(matching, RADIUS, lines, i, line);
      assert matching[i] - 13 <= line <= matching[i] + 13;
    }
  }

  lemma NothingToShow(lines: nat)
    ensures ShowsMatches(AllLines([]), [], lines)
  {
    assert AllLines([]) == [];
  }

  predicate AllRendered(snippets: seq<Snippet>, lines: seq<string>) {
    forall k :: 0 <= k < |snippets| ==> Rendered(snippets[k], lines)
  }

  /** The rendering loop. */
  method Render(lines: seq<string>, ranges: seq<Range>) returns (snippets: seq<Snippet>)
    requires Apart(ranges, |lines|)
    ensures AllLines(snippets) == ranges
    ensures AllRendered(snippets, lines)
  {
    snippets := [];
    for k := 0 to |ranges|
      invariant |snippets| == k
      invariant forall j :: 0 <= j < k ==> Lines(snippets[j]) == ranges[j] && Rendered(snippets[j], lines)
    {
      snippets := snippets + [Snippet(ranges[k].start + 1, ranges[k].end, Numbered(lines, ranges[k]))];
    }
  }

  /** excerpt, with the pattern as a predicate on lines: every line of every used window is shown with its number,
      and nothing else but the lines of gaps of at most two. */
  method Excerpt(lines: seq<string>, matches: string -> bool) returns (snippets: seq<Snippet>)
    ensures AllRendered(snippets, lines)
    ensures ShowsMatches(AllLines(snippets), MatchingUpTo(lines, matches, |lines|), |lines|)
  {
    var matching := MatchingLines(lines, matches);
    if matching == [] {
      NothingToShow(|lines|);
      return [];
    }
    var radius := Max(3, MAX_EXCERPT_LINES / 2);
    var ranges := MergeWindows(matching, radius, |lines|, MAX_MATCHES_PER_FILE);
    assert ShowsMatches(ranges, matching, |lines|);
    snippets := Render(lines, ranges);
  }

  /** Apart ranges are in order, so no line is shown twice. */
  lemma {:induction false} NoLineTwice(ranges: seq<Range>, lines: nat, j: nat, k: nat, line: int)
    requires Apart(ranges, lines) && j < k < |ranges|
    ensures ranges[j].end + 2 < ranges[k].start
    ensures !(Within(ranges[j], line) && Within(ranges[k], line))
  {
    if j + 1 < k {
      NoLineTwice(ranges, lines, j, k - 1, line);
    }
  }
}
