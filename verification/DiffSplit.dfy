/**
 Splitting a diff into the deleted and added code of every block
 (tools/benchmark184/structured_diff.py:7-61), which is meant for diffs without context lines.
 */
module DiffSplit {
  import opened DiffLines
  import opened DiffBlocks
  import opened DiffRanges

  datatype Refusal = UnexpectedMarker | ContextRefused | UnsupportedContent | InvalidRange | NotChanged | EmptyBlock | LinesLost

  datatype Outcome<T> = Done(value: T) | Refuse(refusal: Refusal)

  /** The first pass: changed lines, and those whose newline is missing. */
  datatype Marks = Marks(changed: set<int>, noNewline: set<int>, inHunk: bool)

  function Mark(m: Marks, view: View, i: int): Outcome<Marks>
  {
    match view
    case At => Done(m.(inHunk := true))
    case Section => Done(m.(inHunk := false))
    case _ =>
      if !m.inHunk then Done(m)
      else match view
        case Notice => if i - 1 in m.changed then Done(m.(noNewline := m.noNewline + {i - 1})) else Refuse(UnexpectedMarker)
        case Change => Done(m.(changed := m.changed + {i}))
        case Plain => Refuse(ContextRefused)
        case _ => Refuse(UnsupportedContent)
  }

  function MarkTo(views: seq<View>, n: nat): Outcome<Marks>
    requires n <= |views|
  {
    if n == 0 then Done(Marks({}, {}, false))
    else match MarkTo(views, n - 1)
      case Refuse(refusal) => Refuse(refusal)
      case Done(m) => Mark(m, views[n - 1], n - 1)
  }

  /** A line as it stands in the diff: its text, and whether a line feed follows. */
  datatype Row = Row(text: string, fed: bool)

  /** The second pass: the lines used so far and the code of the current block. */
  datatype Taken = Taken(used: set<int>, deleted: string, added: string)

  function Code(row: Row, bare: bool): string
    requires |row.text| > 0
  {
    row.text[1..] + if row.fed && !bare then "\n" else ""
  }

  function TakeRow(m: Marks, row: Row, view: View, i: int, t: Taken): Outcome<Taken>
  {
    if view == Notice then Done(t)
    else if i !in m.changed || i in t.used || |row.text| == 0 then Refuse(NotChanged)
    else if row.text[0] == '+' then Done(t.(used := t.used + {i}, added := t.added + Code(row, i in m.noNewline)))
    else Done(t.(used := t.used + {i}, deleted := t.deleted + Code(row, i in m.noNewline)))
  }

  function TakeRows(m: Marks, rows: seq<Row>, views: seq<View>, a: nat, b: nat, used: set<int>): Outcome<Taken>
    requires a <= b <= |rows| && |views| == |rows|
  {
    if a == b then Done(Taken(used, "", ""))
    else match TakeRows(m, rows, views, a, b - 1, used)
      case Refuse(refusal) => Refuse(refusal)
      case Done(t) => TakeRow(m, rows[b - 1], views[b - 1], b - 1, t)
  }

  datatype Piece = Piece(deleted: string, added: string)

  datatype Projection = Projection(used: set<int>, pieces: seq<Piece>)

  function TakeBlock(m: Marks, rows: seq<Row>, views: seq<View>, r: Range, p: Projection): Outcome<Projection>
    requires |views| == |rows|
  {
    if !(1 <= r.start <= r.end <= |rows|) then Refuse(InvalidRange)
    else match TakeRows(m, rows, views, r.start - 1, r.end, p.used)
      case Refuse(refusal) => Refuse(refusal)
      case Done(t) =>
        if t.used == p.used then Refuse(EmptyBlock)
        else Done(Projection(t.used, p.pieces + [Piece(t.deleted, t.added)]))
  }

  function TakeBlocks(m: Marks, rows: seq<Row>, views: seq<View>, ranges: seq<Range>, n: nat): Outcome<Projection>
    requires |views| == |rows| && n <= |ranges|
  {
    if n == 0 then Done(Projection({}, []))
    else match TakeBlocks(m, rows, views, ranges, n - 1)
      case Refuse(refusal) => Refuse(refusal)
      case Done(p) => TakeBlock(m, rows, views, ranges[n - 1], p)
  }

  function Split(rows: seq<Row>, views: seq<View>, ranges: seq<Range>): Outcome<seq<Piece>>
    requires |views| == |rows|
  {
    match MarkTo(views, |views|)
    case Refuse(refusal) => Refuse(refusal)
    case Done(m) =>
      match TakeBlocks(m, rows, views, ranges, |ranges|)
      case Refuse(refusal) => Refuse(refusal)
      case Done(p) => if p.used != m.changed then Refuse(LinesLost) else Done(p.pieces)
  }

  // ---------------------------------------------------------------- the first pass

  /** The view of a line whose shape is known; other lines count as long as they do not look like headers. */
  ghost predicate Seen(shape: Shape, view: View)
  {
    if shape.Other? then OutsideKind(shape) != Refused ==> view != At && view != Section else view == Expected(shape)
  }

  ghost predicate AllSeen(shapes: seq<Shape>, views: seq<View>)
  {
    |views| == |shapes| && forall i :: 0 <= i < |shapes| ==> Seen(shapes[i], views[i])
  }

  ghost predicate Marked(shapes: seq<Shape>, n: nat, m: Marks)
    requires n <= |shapes|
  {
    && (forall i {:trigger i in m.changed} {:trigger Changed(shapes, i)} :: i in m.changed <==> i < n && Changed(shapes, i))
    && (forall i :: i in m.noNewline <==> 0 <= i < n - 1 && shapes[i + 1].Marker?)
    && m.inHunk == InHunk(shapes, n)
  }

  predicate ContextFree(shapes: seq<Shape>, n: nat)
    requires n <= |shapes|
  {
    forall i :: 0 <= i < n ==> !shapes[i].Context?
  }

  /** In a diff without context a marker follows a changed line. */
  lemma MarkerFollowsChange(shapes: seq<Shape>, n: nat)
    requires n < |shapes| && ScanTo(shapes, n + 1).Ok? && shapes[n].Marker? && ContextFree(shapes, n)
    ensures n > 0 && Changed(shapes, n - 1) && InHunk(shapes, n)
  {
    ScanTiles(shapes, n);
    ScanKnowsHunk(shapes, n);
    NoSpace(shapes, n);
  }

  lemma {:induction false} NoSpace(shapes: seq<Shape>, n: nat)
    requires n <= |shapes| && ScanTo(shapes, n).Ok? && ContextFree(shapes, n)
    ensures ScanTo(shapes, n).value.last != Space
  {
    if n > 0 {
      NoSpace(shapes, n - 1);
    }
  }

  lemma MarkedGrows(shapes: seq<Shape>, n: nat, m: Marks, t: Marks)
    requires n < |shapes| && Marked(shapes, n, m) && t.inHunk == InHunk(shapes, n + 1)
    requires t.changed == m.changed + if Changed(shapes, n) then {n as int} else {}
    requires t.noNewline == m.noNewline + if n > 0 && shapes[n].Marker? then {n - 1} else {}
    ensures Marked(shapes, n + 1, t)
  {
    forall i ensures i in t.changed <==> i < n + 1 && Changed(shapes, i) {
      assert i in m.changed <==> i < n && Changed(shapes, i);
    }
    forall i ensures i in t.noNewline <==> 0 <= i < n && shapes[i + 1].Marker? {
      assert i in m.noNewline <==> 0 <= i < n - 1 && shapes[i + 1].Marker?;
    }
  }

  /** What the first pass does with a line whose shape was accepted. */
  lemma MarkEffect(shapes: seq<Shape>, n: nat, view: View, m: Marks, s: Scan)
    requires n < |shapes| && Seen(shapes[n], view) && m.inHunk == s.inHunk == InHunk(shapes, n) && ScanLine(s, shapes[n], n).Ok?
    requires shapes[n].Marker? ==> n > 0 && n - 1 in m.changed && m.inHunk
    ensures shapes[n].Context? <==> Mark(m, view, n).Refuse?
    ensures Mark(m, view, n).Done? ==>
              var t := Mark(m, view, n).value;
              && t.inHunk == InHunk(shapes, n + 1) && t.changed == m.changed + (if Changed(shapes, n) then {n as int} else {})
              && t.noNewline == m.noNewline + if n > 0 && shapes[n].Marker? then {n - 1} else {}
  {
  }

  lemma MarkStep(shapes: seq<Shape>, views: seq<View>, n: nat, m: Marks)
    requires n < |shapes| && AllSeen(shapes, views) && Marked(shapes, n, m)
    requires ScanTo(shapes, n + 1).Ok? && ContextFree(shapes, n)
    ensures shapes[n].Context? <==> Mark(m, views[n], n).Refuse?
    ensures Mark(m, views[n], n).Done? ==> Marked(shapes, n + 1, Mark(m, views[n], n).value)
  {
    assert Seen(shapes[n], views[n]);
    ScanKnowsHunk(shapes, n);
    if shapes[n].Marker? {
      MarkerFollowsChange(shapes, n);
      assert n - 1 in m.changed;
    }
    MarkEffect(shapes, n, views[n], m, ScanTo(shapes, n).value);
    if Mark(m, views[n], n).Done? {
      MarkedGrows(shapes, n, m, Mark(m, views[n], n).value);
    }
  }

  lemma {:induction false} Marking(shapes: seq<Shape>, views: seq<View>, n: nat)
    requires n <= |shapes| && AllSeen(shapes, views) && ScanTo(shapes, n).Ok?
    ensures MarkTo(views, n).Done? <==> ContextFree(shapes, n)
    ensures ContextFree(shapes, n) ==> Marked(shapes, n, MarkTo(views, n).value)
  {
    if n > 0 {
      Marking(shapes, views, n - 1);
      if ContextFree(shapes, n - 1) {
        MarkStep(shapes, views, n - 1, MarkTo(views, n - 1).value);
      }
    }
  }

  // ---------------------------------------------------------------- the second pass

  ghost predicate RowsMatch(shapes: seq<Shape>, rows: seq<Row>)
  {
    |rows| == |shapes| && forall i {:trigger rows[i]} :: 0 <= i < |rows| ==> RowMatches(shapes[i], rows[i].text)
  }

  predicate RowMatches(shape: Shape, text: string)
  {
    match shape
    case Removed(t, _) => |text| > 0 && text[0] == '-' && text[1..] == t
    case Added(t, _) => |text| > 0 && text[0] == '+' && text[1..] == t
    case _ => true
  }

  /** The code on one side of the lines with an index from a to b, without newline where a marker follows. */
  function SideCode(shapes: seq<Shape>, rows: seq<Row>, a: nat, b: nat, side: Direction): string
    requires a <= b <= |shapes| == |rows|
  {
    if a == b then ""
    else
      SideCode(shapes, rows, a, b - 1, side)
      + if DirectionOf(shapes[b - 1]) != side then "" else
          EditText(shapes[b - 1]) + if rows[b - 1].fed && !(b < |shapes| && shapes[b].Marker?) then "\n" else ""
  }

  function EditText(shape: Shape): string
  {
    match shape case Removed(t, _) => t case Added(t, _) => t case _ => ""
  }

  ghost predicate TakenTo(shapes: seq<Shape>, rows: seq<Row>, a: nat, b: nat, used: set<int>, t: Taken)
    requires a <= b <= |shapes| == |rows|
  {
    && t.deleted == SideCode(shapes, rows, a, b, Minus) && t.added == SideCode(shapes, rows, a, b, Plus)
    && forall i :: i in t.used <==> i in used || (a <= i < b && Changed(shapes, i))
  }

  lemma RowTaken(shapes: seq<Shape>, rows: seq<Row>, views: seq<View>, m: Marks, a: nat, b: nat, used: set<int>, t: Taken)
    requires a <= b < |shapes| && AllSeen(shapes, views) && RowsMatch(shapes, rows) && Marked(shapes, |shapes|, m)
    requires (forall i :: i in used ==> i < a) && TakenTo(shapes, rows, a, b, used, t)
    requires Changed(shapes, b) || shapes[b].Marker?
    ensures var next := TakeRow(m, rows[b], views[b], b, t);
            next.Done? && TakenTo(shapes, rows, a, b + 1, used, next.value)
  {
    assert Seen(shapes[b], views[b]) && RowMatches(shapes[b], rows[b].text);
  }

  lemma {:induction false} RowsTaken(shapes: seq<Shape>, rows: seq<Row>, views: seq<View>, m: Marks, r: Range, b: nat, used: set<int>)
    requires AllSeen(shapes, views) && RowsMatch(shapes, rows) && Marked(shapes, |shapes|, m)
    requires Run(shapes, r) && r.start - 1 <= b <= r.end && forall i :: i in used ==> i < r.start - 1
    ensures var taken := TakeRows(m, rows, views, r.start - 1, b, used);
            taken.Done? && TakenTo(shapes, rows, r.start - 1, b, used, taken.value)
  {
    if b > r.start - 1 {
      RowsTaken(shapes, rows, views, m, r, b - 1, used);
      assert Spans(r, b - 1);
      RowTaken(shapes, rows, views, m, r.start - 1, b - 1, used, TakeRows(m, rows, views, r.start - 1, b - 1, used).value);
    }
  }

  function PieceOf(shapes: seq<Shape>, rows: seq<Row>, r: Range): Piece
    requires 1 <= r.start <= r.end <= |shapes| == |rows|
  {
    Piece(SideCode(shapes, rows, r.start - 1, r.end, Minus), SideCode(shapes, rows, r.start - 1, r.end, Plus))
  }

  ghost predicate Projected(shapes: seq<Shape>, rows: seq<Row>, ranges: seq<Range>, n: nat, p: Projection)
    requires n <= |ranges| && |rows| == |shapes| && Runs(shapes, ranges)
  {
    && |p.pieces| == n && (forall k :: 0 <= k < n ==> p.pieces[k] == PieceOf(shapes, rows, ranges[k]))
    && forall i {:trigger i in p.used} {:trigger Tiled(ranges[..n], i)} :: i in p.used <==> Changed(shapes, i) && Tiled(ranges[..n], i)
  }

  lemma TiledStep(ranges: seq<Range>, n: nat, i: int)
    requires n < |ranges|
    ensures Tiled(ranges[..n + 1], i) <==> Tiled(ranges[..n], i) || Spans(ranges[n], i)
  {
    var few, more := ranges[..n], ranges[..n + 1];
    assert more == few + [ranges[n]];
    if Tiled(few, i) {
      var k :| 0 <= k < |few| && Spans(few[k], i);
      assert Spans(more[k], i);
    }
    if Spans(ranges[n], i) {
      assert Spans(more[n], i);
    }
    if Tiled(more, i) && !Spans(ranges[n], i) {
      var k :| 0 <= k < |more| && Spans(more[k], i);
      assert Spans(few[k], i);
    }
  }

  lemma UsedBefore(shapes: seq<Shape>, rows: seq<Row>, ranges: seq<Range>, n: nat, p: Projection, i: int)
    requires |rows| == |shapes| && Runs(shapes, ranges) && n < |ranges| && Projected(shapes, rows, ranges, n, p) && i in p.used
    ensures i < ranges[n].start - 1
  {
    assert Tiled(ranges[..n], i);
    var k :| 0 <= k < n && Spans(ranges[..n][k], i);
    assert ranges[k].end < ranges[n].start;
  }

  lemma ProjectedGrows(shapes: seq<Shape>, rows: seq<Row>, ranges: seq<Range>, n: nat, p: Projection, q: Projection)
    requires |rows| == |shapes| && Runs(shapes, ranges) && n < |ranges| && Projected(shapes, rows, ranges, n, p)
    requires q.pieces == p.pieces + [PieceOf(shapes, rows, ranges[n])]
    requires forall i :: i in q.used <==> i in p.used || (Spans(ranges[n], i) && Changed(shapes, i))
    ensures Projected(shapes, rows, ranges, n + 1, q)
  {
    forall i ensures i in q.used <==> Changed(shapes, i) && Tiled(ranges[..n + 1], i) {
      TiledStep(ranges, n, i);
      assert i in p.used <==> Changed(shapes, i) && Tiled(ranges[..n], i);
    }
  }

  lemma BlockTaken(shapes: seq<Shape>, rows: seq<Row>, views: seq<View>, m: Marks, ranges: seq<Range>, n: nat, p: Projection)
    requires AllSeen(shapes, views) && RowsMatch(shapes, rows) && Marked(shapes, |shapes|, m) && Runs(shapes, ranges)
    requires n < |ranges| && Projected(shapes, rows, ranges, n, p)
    ensures var next := TakeBlock(m, rows, views, ranges[n], p);
            next.Done? && Projected(shapes, rows, ranges, n + 1, next.value)
  {
    var r := ranges[n];
    assert Run(shapes, r);
    forall i | i in p.used ensures i < r.start - 1 {
      UsedBefore(shapes, rows, ranges, n, p, i);
    }
    RowsTaken(shapes, rows, views, m, r, r.end, p.used);
    var t := TakeRows(m, rows, views, r.start - 1, r.end, p.used).value;
    assert r.start - 1 in t.used && r.start - 1 !in p.used;
    ProjectedGrows(shapes, rows, ranges, n, p, Projection(t.used, p.pieces + [Piece(t.deleted, t.added)]));
  }

  lemma {:induction false} BlocksTaken(shapes: seq<Shape>, rows: seq<Row>, views: seq<View>, m: Marks, ranges: seq<Range>, n: nat)
    requires AllSeen(shapes, views) && RowsMatch(shapes, rows) && Marked(shapes, |shapes|, m) && Runs(shapes, ranges)
    requires n <= |ranges|
    ensures TakeBlocks(m, rows, views, ranges, n).Done? && Projected(shapes, rows, ranges, n, TakeBlocks(m, rows, views, ranges, n).value)
  {
    if n > 0 {
      BlocksTaken(shapes, rows, views, m, ranges, n - 1);
      BlockTaken(shapes, rows, views, m, ranges, n - 1, TakeBlocks(m, rows, views, ranges, n - 1).value);
    }
  }

  ghost predicate Pieces(shapes: seq<Shape>, rows: seq<Row>, ranges: seq<Range>, pieces: seq<Piece>)
    requires |rows| == |shapes|
  {
    && |pieces| == |ranges|
    && forall k :: 0 <= k < |ranges| ==> Inner(shapes, ranges[k]) && pieces[k] == PieceOf(shapes, rows, ranges[k])
  }

  /**
   With the ranges of an accepted diff the split succeeds exactly when the diff has no context line, and
   then each block gives the removed and the added texts of its range, in order.
   */
  lemma SplitSucceeds(shapes: seq<Shape>, rows: seq<Row>, views: seq<View>)
    requires Ranges(shapes).Ok? && AllSeen(shapes, views) && RowsMatch(shapes, rows)
    ensures Split(rows, views, Ranges(shapes).value).Done? <==> ContextFree(shapes, |shapes|)
    ensures Split(rows, views, Ranges(shapes).value).Done? ==>
              Pieces(shapes, rows, Ranges(shapes).value, Split(rows, views, Ranges(shapes).value).value)
  {
    var ranges := Ranges(shapes).value;
    Marking(shapes, views, |shapes|);
    if ContextFree(shapes, |shapes|) {
      var m := MarkTo(views, |shapes|).value;
      RangesTile(shapes);
      BlocksTaken(shapes, rows, views, m, ranges, |ranges|);
      assert ranges[..|ranges|] == ranges;
      var p := TakeBlocks(m, rows, views, ranges, |ranges|).value;
      forall i ensures i in p.used <==> i in m.changed {
        assert i in m.changed <==> Changed(shapes, i);
        assert i in p.used <==> Changed(shapes, i) && Tiled(ranges, i);
      }
      assert p.used == m.changed;
    }
  }

  // ---------------------------------------------------------------- the text and the loops

  /** The lines of a text that ends in a line feed, or whose last line is unterminated. */
  function Rows(diff: string): seq<Row>
  {
    var lines := Lines(diff);
    if |diff| == 0 then [] else seq(|lines|, i requires 0 <= i < |lines| => Row(lines[i], i + 1 < |lines| || Terminated(diff)))
  }

  function Views(rows: seq<Row>): seq<View> { seq(|rows|, i requires 0 <= i < |rows| => ViewOf(rows[i].text)) }

  lemma TextMatches(diff: string)
    requires |diff| > 0
    ensures AllSeen(Shapes(Lines(diff)), Views(Rows(diff))) && RowsMatch(Shapes(Lines(diff)), Rows(diff))
  {
    var lines := Lines(diff);
    forall i | 0 <= i < |lines|
      ensures Seen(ShapeOf(lines[i]), ViewOf(lines[i])) && RowMatches(ShapeOf(lines[i]), lines[i])
    {
      OneLineMatches(lines[i]);
    }
  }

  lemma OneLineMatches(s: string)
    ensures Seen(ShapeOf(s), ViewOf(s)) && RowMatches(ShapeOf(s), s)
  {
    if !ShapeOf(s).Other? {
      ViewsAgree(s);
    } else if OutsideOf(s) != Refused {
      SkippedLines(s);
    }
  }

  /**
   A diff accepted for grouping can be split exactly when it has no context line, whatever its text is;
   the pieces are then the removed and added texts of its blocks.
   */
  lemma SplitOfText(diff: string)
    requires |diff| > 0 && Ranges(Shapes(Lines(diff))).Ok?
    ensures var shapes, rows, ranges := Shapes(Lines(diff)), Rows(diff), Ranges(Shapes(Lines(diff))).value;
            var split := Split(rows, Views(rows), ranges);
            (split.Done? <==> ContextFree(shapes, |shapes|)) && (split.Done? ==> Pieces(shapes, rows, ranges, split.value))
  {
    TextMatches(diff);
    SplitSucceeds(Shapes(Lines(diff)), Rows(diff), Views(Rows(diff)));
  }

  method MarkLines(views: seq<View>) returns (result: Outcome<Marks>)
    ensures result == MarkTo(views, |views|)
  {
    var changed: set<int>, noNewline: set<int>, inHunk := {}, {}, false;
    for index := 0 to |views|
      invariant MarkTo(views, index) == Done(Marks(changed, noNewline, inHunk))
    {
      var view := views[index];
      if view == At {
        inHunk := true;
        continue;
      }
      if view == Section {
        inHunk := false;
      }
      if !inHunk {
        continue;
      }
      match view {
        case Notice =>
          if index == 0 || index - 1 !in changed {
            MarkingStops(views, index + 1);
            return Refuse(UnexpectedMarker);
          }
          noNewline := noNewline + {index - 1};
        case Change =>
          changed := changed + {index};
        case Plain =>
          MarkingStops(views, index + 1);
          return Refuse(ContextRefused);
        case Unsupported =>
          MarkingStops(views, index + 1);
          return Refuse(UnsupportedContent);
      }
    }
    result := Done(Marks(changed, noNewline, inHunk));
  }

  lemma {:induction false} MarkingStops(views: seq<View>, n: nat)
    requires n <= |views| && MarkTo(views, n).Refuse?
    ensures MarkTo(views, |views|) == MarkTo(views, n)
    decreases |views| - n
  {
    if n < |views| {
      MarkingStops(views, n + 1);
    }
  }

  lemma {:induction false} TakingStops(m: Marks, rows: seq<Row>, views: seq<View>, a: nat, b: nat, end: nat, used: set<int>)
    requires a <= b <= end <= |rows| == |views| && TakeRows(m, rows, views, a, b, used).Refuse?
    ensures TakeRows(m, rows, views, a, end, used) == TakeRows(m, rows, views, a, b, used)
    decreases end - b
  {
    if b < end {
      TakingStops(m, rows, views, a, b + 1, end, used);
    }
  }

  lemma {:induction false} ProjectionStops(m: Marks, rows: seq<Row>, views: seq<View>, ranges: seq<Range>, n: nat)
    requires |views| == |rows| && n <= |ranges| && TakeBlocks(m, rows, views, ranges, n).Refuse?
    ensures TakeBlocks(m, rows, views, ranges, |ranges|) == TakeBlocks(m, rows, views, ranges, n)
    decreases |ranges| - n
  {
    if n < |ranges| {
      ProjectionStops(m, rows, views, ranges, n + 1);
    }
  }

  method SplitBlock(m: Marks, rows: seq<Row>, views: seq<View>, r: Range, p: Projection) returns (result: Outcome<Projection>)
    requires |views| == |rows|
    ensures result == TakeBlock(m, rows, views, r, p)
  {
    var start := r.start - 1;
    if !(0 <= start < r.end <= |rows|) {
      return Refuse(InvalidRange);
    }
    var coverage, deleted, added := p.used, "", "";
    for index := start to r.end
      invariant TakeRows(m, rows, views, start, index, p.used) == Done(Taken(coverage, deleted, added))
    {
      if views[index] == Notice {
        continue;
      }
      if index !in m.changed || index in coverage || |rows[index].text| == 0 {
        TakingStops(m, rows, views, start, index + 1, r.end, p.used);
        return Refuse(NotChanged);
      }
      coverage := coverage + {index};
      var code := rows[index].text[1..] + if rows[index].fed && index !in m.noNewline then "\n" else "";
      if rows[index].text[0] == '+' {
        added := added + code;
      } else {
        deleted := deleted + code;
      }
    }
    if coverage == p.used {
      return Refuse(EmptyBlock);
    }
    result := Done(Projection(coverage, p.pieces + [Piece(deleted, added)]));
  }

  method SplitCode(diff: string, ranges: seq<Range>) returns (result: Outcome<seq<Piece>>)
    ensures result == Split(Rows(diff), Views(Rows(diff)), ranges)
  {
    var rows := Rows(diff);
    var views := Views(rows);
    var marked := MarkLines(views);
    if marked.Refuse? {
      return Refuse(marked.refusal);
    }
    var p := Projection({}, []);
    for n := 0 to |ranges|
      invariant TakeBlocks(marked.value, rows, views, ranges, n) == Done(p)
    {
      var next := SplitBlock(marked.value, rows, views, ranges[n], p);
      if next.Refuse? {
        ProjectionStops(marked.value, rows, views, ranges, n + 1);
        return Refuse(next.refusal);
      }
      p := next.value;
    }
    if p.used != marked.value.changed {
      return Refuse(LinesLost);
    }
    result := Done(p.pieces);
  }
}
