/**
 What an accepted diff looks like: its hunks have the announced lengths, and the block ranges are
 disjoint, in order and cover every changed line (internal/planning/grouping_input.go:94-194).
 */
module DiffRanges {
  import opened DiffLines
  import opened DiffBlocks

  /** A removed or added line inside a hunk. */
  predicate Changed(shapes: seq<Shape>, i: int)
  {
    0 <= i < |shapes| && (shapes[i].Removed? || shapes[i].Added?) && InHunk(shapes, i)
  }

  predicate Spans(r: Range, i: int) { r.start - 1 <= i < r.end }

  /** A run of changed lines; a marker only directly after one of them. */
  ghost predicate Run(shapes: seq<Shape>, r: Range)
  {
    && Inner(shapes, r) && Changed(shapes, r.start - 1)
    && forall i {:trigger Spans(r, i)} :: Spans(r, i) ==> Changed(shapes, i) || (shapes[i].Marker? && i >= r.start && Changed(shapes, i - 1))
  }

  ghost predicate Runs(shapes: seq<Shape>, ranges: seq<Range>)
  {
    && (forall k :: 0 <= k < |ranges| ==> Run(shapes, ranges[k]))
    && forall j, k :: 0 <= j < k < |ranges| ==> ranges[j].end < ranges[k].start
  }

  ghost predicate Tiled(ranges: seq<Range>, i: int) { exists k :: 0 <= k < |ranges| && Spans(ranges[k], i) }

  /** Every changed line among the first n is in a range or in the open one. */
  ghost predicate Covers(shapes: seq<Shape>, n: nat, ranges: seq<Range>, start: nat)
  {
    forall i {:trigger Changed(shapes, i)} :: i < n && Changed(shapes, i) ==> Tiled(ranges, i) || 0 < start <= i + 1
  }

  ghost predicate Tiling(shapes: seq<Shape>, n: nat, s: Scan)
  {
    && Runs(shapes, s.ranges) && Covers(shapes, n, s.ranges, s.start)
    && (forall k :: 0 <= k < |s.ranges| ==> s.ranges[k].end < if s.start > 0 then s.start else n + 1)
    && (s.start > 0 ==> s.end == n && Run(shapes, Range(s.start, s.end)))
    && (s.inHunk ==> n > 0 && (s.last == Minus || s.last == Plus ==> s.start > 0 && Changed(shapes, n - 1)))
    && (s.last == Space || s.last == Unset || !s.inHunk ==> s.start == 0)
  }

  /** All changed lines among the first n are in ranges that end there. */
  ghost predicate Settled(shapes: seq<Shape>, n: nat, ranges: seq<Range>)
  {
    && Runs(shapes, ranges) && Covers(shapes, n, ranges, 0) && forall k :: 0 <= k < |ranges| ==> ranges[k].end < n + 1
  }

  lemma TiledByMore(ranges: seq<Range>, r: Range, i: int)
    requires Tiled(ranges, i) || Spans(r, i)
    ensures Tiled(ranges + [r], i)
  {
    var more := ranges + [r];
    if Tiled(ranges, i) {
      var k :| 0 <= k < |ranges| && Spans(ranges[k], i);
      assert Spans(more[k], i);
    } else {
      assert Spans(more[|ranges|], i);
    }
  }

  lemma RunAdded(shapes: seq<Shape>, ranges: seq<Range>, r: Range)
    requires Runs(shapes, ranges) && Run(shapes, r) && forall k :: 0 <= k < |ranges| ==> ranges[k].end < r.start
    ensures Runs(shapes, ranges + [r])
  {
    var more := ranges + [r];
    assert forall k :: 0 <= k < |more| ==> more[k] == if k < |ranges| then ranges[k] else r;
  }

  lemma CloseTiling(shapes: seq<Shape>, n: nat, s: Scan)
    requires n <= |shapes| && Tiling(shapes, n, s)
    ensures Settled(shapes, n, Closed(s).ranges) && Closed(s).start == 0
  {
    if s.start > 0 {
      var r := Range(s.start, s.end);
      RunAdded(shapes, s.ranges, r);
      forall i | i < n && Changed(shapes, i) ensures Tiled(s.ranges + [r], i) {
        TiledByMore(s.ranges, r, i);
      }
    }
  }

  lemma StaysSettled(shapes: seq<Shape>, n: nat, ranges: seq<Range>)
    requires n < |shapes| && Settled(shapes, n, ranges) && !Changed(shapes, n)
    ensures Settled(shapes, n + 1, ranges)
  {
  }

  lemma SettledTiles(shapes: seq<Shape>, n: nat, s: Scan)
    requires Settled(shapes, n, s.ranges) && s.start == 0 && (s.inHunk ==> n > 0 && s.last != Minus && s.last != Plus)
    ensures Tiling(shapes, n, s)
  {
  }

  lemma BreakCloses(s: Scan, shape: Shape, n: nat)
    requires ScanLine(s, shape, n).Ok? && (shape.Git? || shape.Hunk? || shape.Context? || !s.inHunk) && (!s.inHunk ==> s.start == 0)
    ensures var t := ScanLine(s, shape, n).value;
            t.ranges == Closed(s).ranges && t.start == 0 && (t.inHunk ==> t.last != Minus && t.last != Plus)
  {
  }

  ghost predicate StepTiles(shapes: seq<Shape>, n: nat, s: Scan)
    requires n < |shapes|
  {
    ScanLine(s, shapes[n], n).Ok? ==> Tiling(shapes, n + 1, ScanLine(s, shapes[n], n).value)
  }

  /** The line n is not a changed one, and the open range is closed before it. */
  lemma BreakTiles(shapes: seq<Shape>, n: nat, s: Scan)
    requires n < |shapes| && Tiling(shapes, n, s) && s.inHunk == InHunk(shapes, n)
    requires shapes[n].Git? || shapes[n].Hunk? || shapes[n].Context? || !s.inHunk
    ensures StepTiles(shapes, n, s)
  {
    CloseTiling(shapes, n, s);
    StaysSettled(shapes, n, Closed(s).ranges);
    if ScanLine(s, shapes[n], n).Ok? {
      BreakCloses(s, shapes[n], n);
      SettledTiles(shapes, n + 1, ScanLine(s, shapes[n], n).value);
    }
  }

  lemma RunGrows(shapes: seq<Shape>, start: nat, n: nat)
    requires n < |shapes| && (start > 0 ==> Run(shapes, Range(start, n)))
    requires Changed(shapes, n) || (start > 0 && shapes[n].Marker? && Changed(shapes, n - 1))
    ensures Run(shapes, Range(if start > 0 then start else n + 1, n + 1))
  {
    var r := Range(if start > 0 then start else n + 1, n + 1);
    forall i | Spans(r, i) ensures Changed(shapes, i) || (shapes[i].Marker? && i >= r.start && Changed(shapes, i - 1)) {
      assert i < n ==> Spans(Range(start, n), i);
    }
  }

  lemma MarkerTiles(shapes: seq<Shape>, n: nat, s: Scan)
    requires n < |shapes| && Tiling(shapes, n, s) && s.inHunk && shapes[n].Marker?
    ensures StepTiles(shapes, n, s)
  {
    if s.last == Minus || s.last == Plus {
      RunGrows(shapes, s.start, n);
    }
  }

  lemma CoversGrow(shapes: seq<Shape>, n: nat, ranges: seq<Range>, start: nat)
    requires Covers(shapes, n, ranges, start) && start <= n
    ensures Covers(shapes, n + 1, ranges, if start > 0 then start else n + 1)
  {
  }

  /** A range open up to line n, behind all closed ones. */
  lemma OpenTiles(shapes: seq<Shape>, n: nat, s: Scan)
    requires Runs(shapes, s.ranges) && Covers(shapes, n, s.ranges, s.start) && s.start > 0 && s.end == n > 0
    requires Run(shapes, Range(s.start, n)) && Changed(shapes, n - 1) && s.inHunk && (s.last == Minus || s.last == Plus)
    requires forall k :: 0 <= k < |s.ranges| ==> s.ranges[k].end < s.start
    ensures Tiling(shapes, n, s)
  {
  }

  /** An edited line extends the open range, or opens one. */
  lemma EditRun(shapes: seq<Shape>, n: nat, s: Scan)
    requires n < |shapes| && Tiling(shapes, n, s) && (shapes[n].Removed? || shapes[n].Added?) && InHunk(shapes, n)
    ensures var start := if s.start > 0 then s.start else n + 1;
            && Changed(shapes, n) && Run(shapes, Range(start, n + 1)) && Covers(shapes, n + 1, s.ranges, start)
            && forall k :: 0 <= k < |s.ranges| ==> s.ranges[k].end < start
  {
    assert s.start <= n && Changed(shapes, n);
    RunGrows(shapes, s.start, n);
    CoversGrow(shapes, n, s.ranges, s.start);
  }

  lemma EditTiles(shapes: seq<Shape>, n: nat, s: Scan)
    requires n < |shapes| && Tiling(shapes, n, s) && s.inHunk == InHunk(shapes, n) && s.inHunk
    requires shapes[n].Removed? || shapes[n].Added?
    ensures StepTiles(shapes, n, s)
  {
    if ScanLine(s, shapes[n], n).Ok? {
      EditRun(shapes, n, s);
      EditOpens(s, shapes[n], n);
      OpenTiles(shapes, n + 1, ScanLine(s, shapes[n], n).value);
    }
  }

  lemma EditOpens(s: Scan, shape: Shape, n: nat)
    requires s.inHunk && (shape.Removed? || shape.Added?) && ScanLine(s, shape, n).Ok?
    ensures var t := ScanLine(s, shape, n).value;
            && t.ranges == s.ranges && t.start == (if s.start > 0 then s.start else n + 1) && t.end == n + 1
            && t.inHunk && (t.last == Minus || t.last == Plus)
  {
  }

  lemma TileStep(shapes: seq<Shape>, n: nat, s: Scan)
    requires n < |shapes| && Tiling(shapes, n, s) && s.inHunk == InHunk(shapes, n)
    ensures StepTiles(shapes, n, s)
  {
    if shapes[n].Git? || shapes[n].Hunk? || shapes[n].Context? || !s.inHunk {
      BreakTiles(shapes, n, s);
    } else if shapes[n].Marker? {
      MarkerTiles(shapes, n, s);
    } else if shapes[n].Removed? || shapes[n].Added? {
      EditTiles(shapes, n, s);
    }
  }

  lemma {:induction false} ScanTiles(shapes: seq<Shape>, n: nat)
    requires n <= |shapes| && ScanTo(shapes, n).Ok?
    ensures Tiling(shapes, n, ScanTo(shapes, n).value)
  {
    if n > 0 {
      ScanTiles(shapes, n - 1);
      ScanKnowsHunk(shapes, n - 1);
      TileStep(shapes, n - 1, ScanTo(shapes, n - 1).value);
    }
  }

  /** The ranges are disjoint and in order, hold changed lines and their markers only, and miss no changed line. */
  lemma RangesTile(shapes: seq<Shape>)
    requires Ranges(shapes).Ok?
    ensures Runs(shapes, Ranges(shapes).value)
    ensures forall i {:trigger Changed(shapes, i)} :: Changed(shapes, i) ==> Tiled(Ranges(shapes).value, i)
  {
    ScanTiles(shapes, |shapes|);
    CloseTiling(shapes, |shapes|, ScanTo(shapes, |shapes|).value);
  }

  // ---------------------------------------------------------------- hunk lengths

  function Stated(c: Count): nat { match c case Implicit => 1 case Stated(n) => n }

  /** Lines of the old file, and of the new file, with an index from a to b. */
  function OldLines(shapes: seq<Shape>, a: nat, b: nat): nat
    requires a <= b <= |shapes|
  {
    if a == b then 0 else OldLines(shapes, a, b - 1) + if shapes[b - 1].Context? || shapes[b - 1].Removed? then 1 else 0
  }

  function NewLines(shapes: seq<Shape>, a: nat, b: nat): nat
    requires a <= b <= |shapes|
  {
    if a == b then 0 else NewLines(shapes, a, b - 1) + if shapes[b - 1].Context? || shapes[b - 1].Added? then 1 else 0
  }

  /** The first line from n on that ends a hunk. */
  function HunkEnd(shapes: seq<Shape>, n: nat): (e: nat)
    requires n <= |shapes|
    ensures n <= e <= |shapes|
    decreases |shapes| - n
  {
    if n == |shapes| || shapes[n].Git? || shapes[n].Hunk? then n else HunkEnd(shapes, n + 1)
  }

  ghost predicate LengthsMatch(shapes: seq<Shape>, h: nat, e: nat)
  {
    && h < e <= |shapes| && shapes[h].Hunk?
    && OldLines(shapes, h + 1, e) == Stated(shapes[h].before) && NewLines(shapes, h + 1, e) == Stated(shapes[h].after)
  }

  ghost predicate Counting(shapes: seq<Shape>, h: nat, n: nat, s: Scan)
  {
    && h < n <= |shapes| && shapes[h].Hunk? && HunkEnd(shapes, h + 1) >= n && s.inHunk
    && s.oldLeft == Stated(shapes[h].before) - OldLines(shapes, h + 1, n) && s.newLeft == Stated(shapes[h].after) - NewLines(shapes, h + 1, n)
  }

  /** Nothing between n and the end of the hunk is a header. */
  lemma {:induction false} EndReached(shapes: seq<Shape>, m: nat, n: nat)
    requires m <= n <= |shapes| && HunkEnd(shapes, m) >= n
    ensures HunkEnd(shapes, m) == HunkEnd(shapes, n)
    decreases n - m
  {
    if m < n {
      EndReached(shapes, m + 1, n);
    }
  }

  lemma CountStep(shapes: seq<Shape>, h: nat, n: nat, s: Scan)
    requires Counting(shapes, h, n, s) && n < |shapes| && !shapes[n].Git? && !shapes[n].Hunk? && HunkEnd(shapes, h + 1) >= n + 1
    requires ScanLine(s, shapes[n], n).Ok?
    ensures Counting(shapes, h, n + 1, ScanLine(s, shapes[n], n).value)
  {
  }

  /** From a moment inside a hunk on, the scan ends it with the announced lengths. */
  lemma {:induction false} HunkCounted(shapes: seq<Shape>, h: nat, n: nat)
    requires Ranges(shapes).Ok? && h < n <= |shapes| && n <= HunkEnd(shapes, h + 1)
    requires ScanTo(shapes, n).Ok? && Counting(shapes, h, n, ScanTo(shapes, n).value)
    ensures LengthsMatch(shapes, h, HunkEnd(shapes, h + 1))
    decreases |shapes| - n
  {
    EndReached(shapes, h + 1, n);
    var s := ScanTo(shapes, n).value;
    if n < |shapes| {
      ScansBefore(shapes, n + 1);
      if n < HunkEnd(shapes, h + 1) {
        CountStep(shapes, h, n, s);
        HunkCounted(shapes, h, n + 1);
      } else {
        assert !Open(s.inHunk, s.oldLeft, s.newLeft);
      }
    }
  }

  /** A scan that succeeds succeeds on every prefix. */
  lemma {:induction false} ScansBefore(shapes: seq<Shape>, n: nat)
    requires n <= |shapes| && ScanTo(shapes, |shapes|).Ok?
    ensures ScanTo(shapes, n).Ok?
    decreases |shapes| - n
  {
    if n < |shapes| {
      ScansBefore(shapes, n + 1);
    }
  }

  /** Every hunk of an accepted diff has exactly as many old and new lines as its header says. */
  lemma HunkLengths(shapes: seq<Shape>, h: nat)
    requires Ranges(shapes).Ok? && h < |shapes| && shapes[h].Hunk?
    ensures LengthsMatch(shapes, h, HunkEnd(shapes, h + 1))
  {
    ScansBefore(shapes, h + 1);
    HunkCounted(shapes, h, h + 1);
  }
}
