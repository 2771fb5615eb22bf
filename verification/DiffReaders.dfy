/**
 The two diff readers as loops (internal/historyattribution/model.go:176-265,
 internal/planning/grouping_input.go:94-194).
 */
module DiffReaders {
  import opened DiffLines
  import opened DiffBlocks

  lemma {:induction false} ReadFails(shapes: seq<Shape>, n: nat)
    requires n <= |shapes| && ReadTo(shapes, n).Err?
    ensures ReadTo(shapes, |shapes|) == ReadTo(shapes, n)
    decreases |shapes| - n
  {
    if n < |shapes| {
      ReadFails(shapes, n + 1);
    }
  }

  lemma {:induction false} ScanFails(shapes: seq<Shape>, n: nat)
    requires n <= |shapes| && ScanTo(shapes, n).Err?
    ensures ScanTo(shapes, |shapes|) == ScanTo(shapes, n)
    decreases |shapes| - n
  {
    if n < |shapes| {
      ScanFails(shapes, n + 1);
    }
  }

  /** A line inside a hunk, which is neither a file header nor a hunk header. */
  method ReadInside(r: Reading, shape: Shape) returns (result: Parse<Reading>)
    ensures result == Inside(r, shape)
  {
    var blocks, active, oldLeft, newLeft, last := r.blocks, r.active, r.oldLeft, r.newLeft, r.last;
    match shape {
      case Marker =>
        if last == Unset {
          return Err(InvalidEof);
        }
        if last != Space {
          active := active + [NoNewline(last)];
        }
        return Ok(r.(active := active));
      case Context =>
        if |active| > 0 {
          blocks, active := blocks + [active], [];
        }
        oldLeft, newLeft, last := oldLeft - 1, newLeft - 1, Space;
      case Removed(text, _) =>
        active, oldLeft, last := active + [Removal(text)], oldLeft - 1, Minus;
      case Added(text, _) =>
        active, newLeft, last := active + [Addition(text)], newLeft - 1, Plus;
      case _ =>
        return Err(MalformedLine);
    }
    if oldLeft < 0 || newLeft < 0 {
      return Err(CountMismatch);
    }
    result := Ok(Reading(blocks, active, oldLeft, newLeft, r.inHunk, last));
  }

  /** The reader for attribution. */
  method ParseBlocks(diff: string) returns (result: Parse<seq<seq<Edit>>>)
    ensures result == Blocks(Shapes(Lines(diff)))
  {
    result := ReadLines(Shapes(Lines(diff)));
  }

  method ReadLine(r: Reading, shape: Shape) returns (result: Parse<Reading>)
    ensures result == Read(r, shape)
  {
    if shape.Git? && r.inHunk {
      if r.oldLeft != 0 || r.newLeft != 0 {
        return Err(IncompleteHunk);
      }
      return Ok(Flushed(r).(inHunk := false));
    }
    if shape.Hunk? {
      if r.inHunk && (r.oldLeft != 0 || r.newLeft != 0) {
        return Err(IncompleteHunk);
      }
      return Ok(Flushed(r).(inHunk := true, oldLeft := Saturated(shape.before), newLeft := Saturated(shape.after), last := Unset));
    }
    if !r.inHunk {
      if !shape.Git? && !shape.Blank? && OutsideKind(shape) == Refused {
        return Err(UnsupportedDiff);
      }
      return Ok(r);
    }
    result := ReadInside(r, shape);
  }

  method ReadLines(shapes: seq<Shape>) returns (result: Parse<seq<seq<Edit>>>)
    ensures result == Blocks(shapes)
  {
    var r := START;
    for n := 0 to |shapes|
      invariant ReadTo(shapes, n) == Ok(r)
    {
      var next := ReadLine(r, shapes[n]);
      if next.Err? {
        ReadFails(shapes, n + 1);
        return Err(next.reason);
      }
      r := next.value;
    }
    if !r.inHunk || r.oldLeft != 0 || r.newLeft != 0 {
      return Err(IncompleteHunk);
    }
    result := Ok(Flushed(r).blocks);
  }

  method ScanInside(s: Scan, shape: Shape, n: nat) returns (result: Parse<Scan>)
    ensures result == Within(s, shape, n)
  {
    var ranges, start, end, oldLeft, newLeft, last := s.ranges, s.start, s.end, s.oldLeft, s.newLeft, s.last;
    match shape {
      case Marker =>
        if last == Unset || last == Backslash {
          return Err(InvalidEof);
        }
        if start > 0 && last != Space {
          end := n + 1;
        }
        return Ok(s.(end := end, last := Backslash));
      case Context =>
        if start > 0 {
          ranges, start, end := ranges + [Range(start, end)], 0, 0;
        }
        oldLeft, newLeft, last := oldLeft - 1, newLeft - 1, Space;
      case Removed(_, _) =>
        if start == 0 {
          start := n + 1;
        }
        end, oldLeft, last := n + 1, oldLeft - 1, Minus;
      case Added(_, _) =>
        if start == 0 {
          start := n + 1;
        }
        end, newLeft, last := n + 1, newLeft - 1, Plus;
      case _ =>
        return Err(MalformedLine);
    }
    if oldLeft < 0 || newLeft < 0 {
      return Err(CountMismatch);
    }
    result := Ok(Scan(ranges, start, end, oldLeft, newLeft, s.inHunk, s.sawHunk, s.metadata, last));
  }

  /** The reader for grouping. */
  method ParseGroupingBlocks(diff: string) returns (result: Parse<seq<Range>>)
    ensures result == Ranges(Shapes(Lines(diff)))
  {
    result := ScanLines(Shapes(Lines(diff)));
  }

  method ScanOne(s: Scan, shape: Shape, n: nat) returns (result: Parse<Scan>)
    ensures result == ScanLine(s, shape, n)
  {
    if shape.Git? && s.inHunk {
      if s.oldLeft != 0 || s.newLeft != 0 {
        return Err(IncompleteHunk);
      }
      return Ok(Closed(s).(inHunk := false));
    }
    if shape.Hunk? {
      if s.inHunk && (s.oldLeft != 0 || s.newLeft != 0) {
        return Err(IncompleteHunk);
      }
      if TooLarge(shape.before) || TooLarge(shape.after) {
        return Err(InvalidCount);
      }
      return Ok(Closed(s).(inHunk := true, sawHunk := true, oldLeft := Saturated(shape.before), newLeft := Saturated(shape.after), last := Unset));
    }
    if !s.inHunk {
      if shape.Git? {
        return Ok(s);
      }
      match OutsideKind(shape) {
        case Mode => return Ok(s.(metadata := true));
        case Header => return Ok(s);
        case Refused => return Err(UnsupportedDiff);
      }
    }
    result := ScanInside(s, shape, n);
  }

  method ScanLines(shapes: seq<Shape>) returns (result: Parse<seq<Range>>)
    ensures result == Ranges(shapes)
  {
    var s := BEGIN;
    for n := 0 to |shapes|
      invariant ScanTo(shapes, n) == Ok(s)
    {
      var next := ScanOne(s, shapes[n], n);
      if next.Err? {
        ScanFails(shapes, n + 1);
        return Err(next.reason);
      }
      s := next.value;
    }
    if s.inHunk && (s.oldLeft != 0 || s.newLeft != 0) {
      return Err(IncompleteHunk);
    }
    if !s.sawHunk && !s.metadata {
      return Err(MissingHunk);
    }
    result := Ok(Closed(s).ranges);
  }
}
