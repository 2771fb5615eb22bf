/**
 Two readers of the same unified diff: one collects the edited lines of every block for attribution
 (internal/historyattribution/model.go:176-265), the other their line ranges for grouping
 (internal/planning/grouping_input.go:94-194). The caller refuses the run when they disagree.
 */
module DiffBlocks {
  import opened DiffLines

  datatype Direction = Unset | Space | Minus | Plus | Backslash

  /** An edited line, or the missing final newline of the side it names. */
  datatype Edit = Removal(text: string) | Addition(text: string) | NoNewline(side: Direction)

  datatype Reason = IncompleteHunk | UnsupportedDiff | InvalidEof | MalformedLine | CountMismatch | InvalidCount | MissingHunk

  datatype Parse<S> = Ok(value: S) | Err(reason: Reason)

  const MAX_INT := 0x7fff_ffff_ffff_ffff

  /** strconv.Atoi saturates when it reports a range error. */
  function Saturated(c: Count): int
  {
    match c
    case Implicit => 1
    case Stated(n) => if n > MAX_INT then MAX_INT else n
  }

  predicate TooLarge(c: Count) { c.Stated? && c.value > MAX_INT }

  predicate Overflows(shape: Shape) { shape.Hunk? && (TooLarge(shape.before) || TooLarge(shape.after)) }

  function OutsideKind(shape: Shape): Outside
  {
    match shape
    case Removed(_, o) => o
    case Added(_, o) => o
    case Other(o) => o
    case _ => Refused
  }

  // ---------------------------------------------------------------- the edited lines

  datatype Reading = Reading(blocks: seq<seq<Edit>>, active: seq<Edit>, oldLeft: int, newLeft: int, inHunk: bool, last: Direction)

  const START := Reading([], [], 0, 0, false, Unset)

  function Flushed(r: Reading): Reading { if |r.active| == 0 then r else r.(blocks := r.blocks + [r.active], active := []) }

  predicate Open(inHunk: bool, oldLeft: int, newLeft: int) { inHunk && (oldLeft != 0 || newLeft != 0) }

  function Counted(r: Reading): Parse<Reading> { if r.oldLeft < 0 || r.newLeft < 0 then Err(CountMismatch) else Ok(r) }

  function Inside(r: Reading, shape: Shape): Parse<Reading>
  {
    match shape
    case Marker =>
      if r.last == Unset then Err(InvalidEof) else Ok(if r.last == Space then r else r.(active := r.active + [NoNewline(r.last)]))
    case Context => Counted(Flushed(r).(oldLeft := r.oldLeft - 1, newLeft := r.newLeft - 1, last := Space))
    case Removed(text, _) => Counted(r.(active := r.active + [Removal(text)], oldLeft := r.oldLeft - 1, last := Minus))
    case Added(text, _) => Counted(r.(active := r.active + [Addition(text)], newLeft := r.newLeft - 1, last := Plus))
    case _ => Err(MalformedLine)
  }

  function Read(r: Reading, shape: Shape): Parse<Reading>
  {
    match shape
    case Git => if Open(r.inHunk, r.oldLeft, r.newLeft) then Err(IncompleteHunk) else Ok(if r.inHunk then Flushed(r).(inHunk := false) else r)
    case Hunk(before, after) =>
      if Open(r.inHunk, r.oldLeft, r.newLeft) then Err(IncompleteHunk)
      else Ok(Flushed(r).(inHunk := true, oldLeft := Saturated(before), newLeft := Saturated(after), last := Unset))
    case _ =>
      if r.inHunk then Inside(r, shape)
      else if shape.Blank? || OutsideKind(shape) != Refused then Ok(r)
      else Err(UnsupportedDiff)
  }

  function ReadTo(shapes: seq<Shape>, n: nat): Parse<Reading>
    requires n <= |shapes|
  {
    if n == 0 then Ok(START)
    else match ReadTo(shapes, n - 1)
      case Err(reason) => Err(reason)
      case Ok(r) => Read(r, shapes[n - 1])
  }

  function Blocks(shapes: seq<Shape>): Parse<seq<seq<Edit>>>
  {
    match ReadTo(shapes, |shapes|)
    case Err(reason) => Err(reason)
    case Ok(r) => if !r.inHunk || Open(r.inHunk, r.oldLeft, r.newLeft) then Err(IncompleteHunk) else Ok(Flushed(r).blocks)
  }

  // ---------------------------------------------------------------- the line ranges

  /** One-based and inclusive. */
  datatype Range = Range(start: nat, end: nat)

  datatype Scan = Scan(ranges: seq<Range>, start: nat, end: nat, oldLeft: int, newLeft: int,
                       inHunk: bool, sawHunk: bool, metadata: bool, last: Direction)

  const BEGIN := Scan([], 0, 0, 0, 0, false, false, false, Unset)

  function Closed(s: Scan): Scan { if s.start == 0 then s else s.(ranges := s.ranges + [Range(s.start, s.end)], start := 0, end := 0) }

  function Extended(s: Scan, n: nat): Scan { s.(start := if s.start == 0 then n + 1 else s.start, end := n + 1) }

  function Tallied(s: Scan): Parse<Scan> { if s.oldLeft < 0 || s.newLeft < 0 then Err(CountMismatch) else Ok(s) }

  function Within(s: Scan, shape: Shape, n: nat): Parse<Scan>
  {
    match shape
    case Marker =>
      if s.last == Unset || s.last == Backslash then Err(InvalidEof)
      else Ok(s.(end := if s.start > 0 && s.last != Space then n + 1 else s.end, last := Backslash))
    case Context => Tallied(Closed(s).(oldLeft := s.oldLeft - 1, newLeft := s.newLeft - 1, last := Space))
    case Removed(_, _) => Tallied(Extended(s, n).(oldLeft := s.oldLeft - 1, last := Minus))
    case Added(_, _) => Tallied(Extended(s, n).(newLeft := s.newLeft - 1, last := Plus))
    case _ => Err(MalformedLine)
  }

  /** The line with index n. */
  function ScanLine(s: Scan, shape: Shape, n: nat): Parse<Scan>
  {
    match shape
    case Git => if Open(s.inHunk, s.oldLeft, s.newLeft) then Err(IncompleteHunk) else Ok(if s.inHunk then Closed(s).(inHunk := false) else s)
    case Hunk(before, after) =>
      if Open(s.inHunk, s.oldLeft, s.newLeft) then Err(IncompleteHunk)
      else if TooLarge(before) || TooLarge(after) then Err(InvalidCount)
      else Ok(Closed(s).(inHunk := true, sawHunk := true, oldLeft := Saturated(before), newLeft := Saturated(after), last := Unset))
    case _ =>
      if s.inHunk then Within(s, shape, n)
      else match OutsideKind(shape)
        case Mode => Ok(s.(metadata := true))
        case Header => Ok(s)
        case Refused => Err(UnsupportedDiff)
  }

  function ScanTo(shapes: seq<Shape>, n: nat): Parse<Scan>
    requires n <= |shapes|
  {
    if n == 0 then Ok(BEGIN)
    else match ScanTo(shapes, n - 1)
      case Err(reason) => Err(reason)
      case Ok(s) => ScanLine(s, shapes[n - 1], n - 1)
  }

  function Ranges(shapes: seq<Shape>): Parse<seq<Range>>
  {
    match ScanTo(shapes, |shapes|)
    case Err(reason) => Err(reason)
    case Ok(s) =>
      if Open(s.inHunk, s.oldLeft, s.newLeft) then Err(IncompleteHunk)
      else if !s.sawHunk && !s.metadata then Err(MissingHunk)
      else Ok(Closed(s).ranges)
  }

  // ---------------------------------------------------------------- what a range stands for

  function DirectionOf(shape: Shape): Direction
  {
    match shape
    case Removed(_, _) => Minus
    case Added(_, _) => Plus
    case Context => Space
    case _ => Unset
  }

  function EditAt(shapes: seq<Shape>, i: nat): Edit
    requires i < |shapes|
  {
    match shapes[i]
    case Removed(text, _) => Removal(text)
    case Added(text, _) => Addition(text)
    case _ => NoNewline(if i == 0 then Unset else DirectionOf(shapes[i - 1]))
  }

  /** The edited lines, removed, added and without newline, with an index from a to b. */
  function Edits(shapes: seq<Shape>, a: nat, b: nat): (r: seq<Edit>)
    requires a <= b <= |shapes|
    ensures |r| == b - a
  {
    if a == b then [] else Edits(shapes, a, b - 1) + [EditAt(shapes, b - 1)]
  }

  ghost predicate Inner(shapes: seq<Shape>, r: Range) { 1 <= r.start <= r.end <= |shapes| }

  ghost predicate SameBlocks(shapes: seq<Shape>, blocks: seq<seq<Edit>>, ranges: seq<Range>)
  {
    && |blocks| == |ranges|
    && forall k {:trigger blocks[k]} {:trigger ranges[k]} :: 0 <= k < |ranges| ==>
         Inner(shapes, ranges[k]) && blocks[k] == Edits(shapes, ranges[k].start - 1, ranges[k].end)
  }

  /** Both readers have read n lines and agree. */
  ghost predicate Together(shapes: seq<Shape>, n: nat, r: Reading, s: Scan)
    requires n <= |shapes|
  {
    && SameBlocks(shapes, r.blocks, s.ranges)
    && (if s.start == 0 then |r.active| == 0 else s.start <= s.end == n && r.active == Edits(shapes, s.start - 1, n))
    && r.oldLeft == s.oldLeft && r.newLeft == s.newLeft && r.inHunk == s.inHunk && (s.inHunk ==> s.sawHunk)
    && (s.inHunk ==> n > 0 && LastAgrees(shapes[n - 1], r.last, s.last) && (s.start > 0 <==> r.last == Minus || r.last == Plus))
    && (!s.inHunk ==> s.start == 0)
  }

  predicate LastAgrees(shape: Shape, r: Direction, s: Direction)
  {
    r != Backslash && if shape.Marker? then s == Backslash && r != Unset else s == r == DirectionOf(shape)
  }

  lemma SameBlocksStep(shapes: seq<Shape>, blocks: seq<seq<Edit>>, ranges: seq<Range>, r: Range)
    requires SameBlocks(shapes, blocks, ranges) && Inner(shapes, r)
    ensures SameBlocks(shapes, blocks + [Edits(shapes, r.start - 1, r.end)], ranges + [r])
  {
  }

  lemma FlushTogether(shapes: seq<Shape>, n: nat, r: Reading, s: Scan)
    requires n <= |shapes| && Together(shapes, n, r, s)
    ensures SameBlocks(shapes, Flushed(r).blocks, Closed(s).ranges) && |Flushed(r).active| == 0 && Closed(s).start == 0
  {
    if s.start > 0 {
      SameBlocksStep(shapes, r.blocks, s.ranges, Range(s.start, s.end));
    }
  }

  /** Neither a blank line nor the second of two markers of a missing newline. */
  predicate Tidy(shapes: seq<Shape>, i: nat)
    requires i < |shapes|
  {
    !shapes[i].Blank? && !(i > 0 && shapes[i].Marker? && shapes[i - 1].Marker?)
  }

  /** What both readers take alike: the first one also passes over untidy lines and, for the moment, huge counts. */
  predicate Regular(shapes: seq<Shape>, i: nat)
    requires i < |shapes|
  {
    Tidy(shapes, i) && !Overflows(shapes[i])
  }

  ghost predicate StepsTogether(shapes: seq<Shape>, n: nat, r: Reading, s: Scan)
    requires n < |shapes|
  {
    var p, q := Read(r, shapes[n]), ScanLine(s, shapes[n], n);
    (q.Ok? <==> p.Ok? && Regular(shapes, n)) && (q.Ok? ==> Together(shapes, n + 1, p.value, q.value))
  }

  lemma HeaderTogether(shapes: seq<Shape>, n: nat, r: Reading, s: Scan)
    requires n < |shapes| && Together(shapes, n, r, s) && (shapes[n].Git? || shapes[n].Hunk?)
    ensures StepsTogether(shapes, n, r, s)
  {
    FlushTogether(shapes, n, r, s);
  }

  lemma OutsideTogether(shapes: seq<Shape>, n: nat, r: Reading, s: Scan)
    requires n < |shapes| && Together(shapes, n, r, s) && !r.inHunk && !(shapes[n].Git? || shapes[n].Hunk?)
    ensures StepsTogether(shapes, n, r, s)
  {
  }

  lemma MarkerTogether(shapes: seq<Shape>, n: nat, r: Reading, s: Scan)
    requires n < |shapes| && Together(shapes, n, r, s) && r.inHunk && shapes[n].Marker?
    ensures StepsTogether(shapes, n, r, s)
  {
    if s.start > 0 && !shapes[n - 1].Marker? {
      assert Edits(shapes, s.start - 1, n + 1) == Edits(shapes, s.start - 1, n) + [EditAt(shapes, n)];
    }
  }

  lemma ContextTogether(shapes: seq<Shape>, n: nat, r: Reading, s: Scan)
    requires n < |shapes| && Together(shapes, n, r, s) && r.inHunk && shapes[n].Context?
    ensures StepsTogether(shapes, n, r, s)
  {
    FlushTogether(shapes, n, r, s);
  }

  lemma EditTogether(shapes: seq<Shape>, n: nat, r: Reading, s: Scan)
    requires n < |shapes| && Together(shapes, n, r, s) && r.inHunk && (shapes[n].Removed? || shapes[n].Added?)
    ensures StepsTogether(shapes, n, r, s)
  {
    if s.start > 0 {
      assert Edits(shapes, s.start - 1, n + 1) == Edits(shapes, s.start - 1, n) + [EditAt(shapes, n)];
    } else {
      assert Edits(shapes, n, n + 1) == Edits(shapes, n, n) + [EditAt(shapes, n)];
      assert r.active + [EditAt(shapes, n)] == [EditAt(shapes, n)];
    }
  }

  /** The second reader accepts a line exactly when the first one does and the line is regular. */
  lemma StepTogether(shapes: seq<Shape>, n: nat, r: Reading, s: Scan)
    requires n < |shapes| && Together(shapes, n, r, s)
    ensures StepsTogether(shapes, n, r, s)
  {
    if shapes[n].Git? || shapes[n].Hunk? {
      HeaderTogether(shapes, n, r, s);
    } else if !r.inHunk {
      OutsideTogether(shapes, n, r, s);
    } else if shapes[n].Marker? {
      MarkerTogether(shapes, n, r, s);
    } else if shapes[n].Context? {
      ContextTogether(shapes, n, r, s);
    } else if shapes[n].Removed? || shapes[n].Added? {
      EditTogether(shapes, n, r, s);
    }
  }

  predicate AllRegular(shapes: seq<Shape>, n: nat)
    requires n <= |shapes|
  {
    forall i :: 0 <= i < n ==> Regular(shapes, i)
  }

  lemma {:induction false} PrefixesTogether(shapes: seq<Shape>, n: nat)
    requires n <= |shapes|
    ensures ScanTo(shapes, n).Ok? <==> ReadTo(shapes, n).Ok? && AllRegular(shapes, n)
    ensures ScanTo(shapes, n).Ok? ==> Together(shapes, n, ReadTo(shapes, n).value, ScanTo(shapes, n).value)
  {
    if n > 0 {
      PrefixesTogether(shapes, n - 1);
      if ScanTo(shapes, n - 1).Ok? {
        StepTogether(shapes, n - 1, ReadTo(shapes, n - 1).value, ScanTo(shapes, n - 1).value);
      }
    }
  }

  /** Whether the lines before n end inside a hunk: a hunk header has come since the last file header. */
  predicate InHunk(shapes: seq<Shape>, n: nat)
    requires n <= |shapes|
  {
    n > 0 && (shapes[n - 1].Hunk? || (!shapes[n - 1].Git? && InHunk(shapes, n - 1)))
  }

  lemma {:induction false} ScanKnowsHunk(shapes: seq<Shape>, n: nat)
    requires n <= |shapes| && ScanTo(shapes, n).Ok?
    ensures ScanTo(shapes, n).value.inHunk == InHunk(shapes, n)
  {
    if n > 0 {
      ScanKnowsHunk(shapes, n - 1);
    }
  }

  /**
   When both readers accept, the second one's ranges are exactly the lines of the first one's blocks,
   one range for each block, in order.
   */
  lemma ReadersAgree(shapes: seq<Shape>)
    requires Blocks(shapes).Ok? && Ranges(shapes).Ok?
    ensures SameBlocks(shapes, Blocks(shapes).value, Ranges(shapes).value)
  {
    PrefixesTogether(shapes, |shapes|);
    FlushTogether(shapes, |shapes|, ReadTo(shapes, |shapes|).value, ScanTo(shapes, |shapes|).value);
  }

  /** A diff accepted for grouping is accepted for attribution exactly when its last file section has a hunk. */
  lemma GroupingImpliesAttribution(shapes: seq<Shape>)
    requires Ranges(shapes).Ok?
    ensures Blocks(shapes).Ok? <==> InHunk(shapes, |shapes|)
  {
    PrefixesTogether(shapes, |shapes|);
    ScanKnowsHunk(shapes, |shapes|);
  }

  /** After a header with a huge count the hunk is still open: no text has that many lines. */
  lemma {:induction false} StaysOpen(shapes: seq<Shape>, i: nat, n: nat)
    requires i < n <= |shapes| <= MAX_INT && Overflows(shapes[i]) && ReadTo(shapes, n).Ok?
    ensures var r := ReadTo(shapes, n).value; var left := MAX_INT - (n - i - 1); r.inHunk && (r.oldLeft >= left || r.newLeft >= left)
  {
    if n > i + 1 {
      StaysOpen(shapes, i, n - 1);
      var r := ReadTo(shapes, n - 1).value;
      if r.oldLeft >= r.newLeft {
        OneLess(r, shapes[n - 1], r.oldLeft);
      } else {
        OneLess(r, shapes[n - 1], r.newLeft);
      }
    }
  }

  /** A line takes at most one off what is left. */
  lemma OneLess(r: Reading, shape: Shape, left: int)
    requires r.inHunk && left > 0 && (r.oldLeft >= left || r.newLeft >= left) && Read(r, shape).Ok?
    ensures var s := Read(r, shape).value; s.inHunk && (s.oldLeft >= left - 1 || s.newLeft >= left - 1)
  {
  }

  lemma NoOverflow(shapes: seq<Shape>)
    requires |shapes| <= MAX_INT && Blocks(shapes).Ok?
    ensures forall i :: 0 <= i < |shapes| ==> !Overflows(shapes[i])
  {
    forall i | 0 <= i < |shapes| ensures !Overflows(shapes[i]) {
      if Overflows(shapes[i]) {
        StaysOpen(shapes, i, |shapes|);
      }
    }
  }

  /**
   A diff accepted for attribution is accepted for grouping exactly when it has no blank line and no
   doubled marker of a missing newline. No text has more lines than the largest integer.
   */
  lemma AttributionImpliesGrouping(shapes: seq<Shape>)
    requires Blocks(shapes).Ok? && |shapes| <= MAX_INT
    ensures Ranges(shapes).Ok? <==> AllTidy(shapes)
  {
    PrefixesTogether(shapes, |shapes|);
    NoOverflow(shapes);
    TidyIsRegular(shapes);
    if Ranges(shapes).Err? && ScanTo(shapes, |shapes|).Ok? {
      ScanKnowsHunk(shapes, |shapes|);
    }
  }

  predicate AllTidy(shapes: seq<Shape>) { forall i :: 0 <= i < |shapes| ==> Tidy(shapes, i) }

  lemma TidyIsRegular(shapes: seq<Shape>)
    requires forall i :: 0 <= i < |shapes| ==> !Overflows(shapes[i])
    ensures AllTidy(shapes) <==> AllRegular(shapes, |shapes|)
  {
    assert forall i :: 0 <= i < |shapes| ==> (Tidy(shapes, i) <==> Regular(shapes, i));
  }
}
