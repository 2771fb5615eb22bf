/**
 Reading back a printed diff: the readers of DiffBlocks find exactly the blocks that were printed, for every
 diff in the format of git (internal/historyattribution/model.go:176-265; internal/planning/grouping_input.go:94-194).
 */
module DiffPrinting {
  import opened Wrappers
  import NaturalOrder
  import Strings
  import opened DiffLines
  import opened DiffBlocks

  // ---------------------------------------------------------------- diffs as they are meant

  /** An unchanged line; bare when the file ends with it, without a newline. */
  datatype Kept = Kept(text: string, bare: bool)

  /** A block of edits and the unchanged lines after it. */
  datatype Part = Part(block: seq<Edit>, after: seq<Kept>)

  datatype HunkOf = HunkOf(oldStart: nat, newStart: nat, context: string, lead: seq<Kept>, parts: seq<Part>)

  /** A file: its first line, more header lines, and its hunks. */
  datatype Section = Section(git: string, headers: seq<string>, hunks: seq<HunkOf>)

  /** A missing newline is noted after the edit it belongs to. */
  predicate Noted(block: seq<Edit>, i: nat)
    requires i < |block|
  {
    block[i].NoNewline? ==> i > 0 && ((block[i - 1].Removal? && block[i].side == Minus) || (block[i - 1].Addition? && block[i].side == Plus))
  }

  predicate IsBlock(block: seq<Edit>) { |block| > 0 && forall i :: 0 <= i < |block| ==> Noted(block, i) }

  /** Unchanged lines separate the blocks of a hunk. */
  predicate Separated(parts: seq<Part>)
  {
    (forall k :: 0 <= k < |parts| ==> IsBlock(parts[k].block)) && forall k :: 0 <= k < |parts| - 1 ==> |parts[k].after| > 0
  }

  function BlocksOfParts(parts: seq<Part>): seq<seq<Edit>> { seq(|parts|, k requires 0 <= k < |parts| => parts[k].block) }

  // ---------------------------------------------------------------- printing

  function PrintKept(lines: seq<Kept>): seq<string>
  {
    if lines == [] then [] else [" " + lines[0].text] + (if lines[0].bare then [MARKER] else []) + PrintKept(lines[1..])
  }

  function PrintEdit(e: Edit): string
  {
    match e
    case Removal(text) => "-" + text
    case Addition(text) => "+" + text
    case NoNewline(_) => MARKER
  }

  function PrintBlock(block: seq<Edit>): seq<string> { seq(|block|, i requires 0 <= i < |block| => PrintEdit(block[i])) }

  function PrintParts(parts: seq<Part>): seq<string>
  {
    if parts == [] then [] else PrintBlock(parts[0].block) + PrintKept(parts[0].after) + PrintParts(parts[1..])
  }

  function Cuts(block: seq<Edit>): nat { if block == [] then 0 else Cuts(block[..|block| - 1]) + if block[|block| - 1].Removal? then 1 else 0 }

  function Puts(block: seq<Edit>): nat { if block == [] then 0 else Puts(block[..|block| - 1]) + if block[|block| - 1].Addition? then 1 else 0 }

  function OldCount(parts: seq<Part>): nat { if parts == [] then 0 else Cuts(parts[0].block) + |parts[0].after| + OldCount(parts[1..]) }

  function NewCount(parts: seq<Part>): nat { if parts == [] then 0 else Puts(parts[0].block) + |parts[0].after| + NewCount(parts[1..]) }

  /** A start and a count, which is left out when it is one. */
  function PrintSpan(start: nat, count: nat): string
  {
    NaturalOrder.Decimal(start) + if count == 1 then "" else "," + NaturalOrder.Decimal(count)
  }

  function HeaderText(oldStart: nat, before: nat, newStart: nat, after: nat, context: string): string
  {
    "@@ -" + (PrintSpan(oldStart, before) + (" +" + (PrintSpan(newStart, after) + (" @@" + context))))
  }

  function OldTotal(h: HunkOf): nat { |h.lead| + OldCount(h.parts) }

  function NewTotal(h: HunkOf): nat { |h.lead| + NewCount(h.parts) }

  function PrintHunk(h: HunkOf): seq<string>
  {
    [HeaderText(h.oldStart, OldTotal(h), h.newStart, NewTotal(h), h.context)] + PrintKept(h.lead) + PrintParts(h.parts)
  }

  // ---------------------------------------------------------------- the shapes of printed lines

  lemma RunOfDigits(d: string, rest: string)
    requires NaturalOrder.AllDigits(d) && (rest == "" || !NaturalOrder.IsDigit(rest[0]))
    ensures NaturalOrder.RunLength(d + rest) == |d|
    decreases d
  {
    if d == "" {
      assert d + rest == rest;
    } else {
      var s := d + rest;
      assert s[0] == d[0] && s[1..] == d[1..] + rest;
      RunOfDigits(d[1..], rest);
    }
  }

  function CountOf(count: nat): Count { if count == 1 then Implicit else Stated(count) }

  lemma SpanRead(start: nat, count: nat, rest: string)
    requires rest != "" && !NaturalOrder.IsDigit(rest[0]) && rest[0] != ','
    ensures TakeCount(PrintSpan(start, count) + rest) == Some((CountOf(count), rest))
  {
    var d, e := NaturalOrder.Decimal(start), NaturalOrder.Decimal(count);
    var s := PrintSpan(start, count) + rest;
    if count == 1 {
      assert s == d + rest;
      RunOfDigits(d, rest);
      assert s[|d|..] == rest;
    } else {
      var tail := "," + (e + rest);
      assert s == d + tail;
      RunOfDigits(d, tail);
      assert s[|d|..] == tail && tail[0] == ',' && tail[1..] == e + rest;
      RunOfDigits(e, rest);
      NaturalOrder.DecimalValue(count);
      assert tail[1..][..|e|] == e && tail[1..][|e|..] == rest;
    }
  }

  lemma Prefixed(prefix: string, s: string)
    ensures prefix <= prefix + s && (prefix + s)[|prefix|..] == s
  {
  }

  lemma HeaderRead(s: string, first: string, second: string, third: string, end: string, before: Count, after: Count)
    requires "@@ -" <= s && s[4..] == first && TakeCount(first) == Some((before, second))
    requires " +" <= second && second[2..] == third && TakeCount(third) == Some((after, end)) && " @@" <= end
    ensures HunkHeader(s) == Some((before, after))
  {
  }

  lemma HeaderOf(oldStart: nat, before: nat, newStart: nat, after: nat, context: string)
    ensures HunkHeader(HeaderText(oldStart, before, newStart, after, context)) == Some((CountOf(before), CountOf(after)))
  {
    var end := " @@" + context;
    var third := PrintSpan(newStart, after) + end;
    var second := " +" + third;
    var first := PrintSpan(oldStart, before) + second;
    SpanRead(newStart, after, end);
    SpanRead(oldStart, before, second);
    Prefixed("@@ -", first);
    Prefixed(" +", third);
    Prefixed(" @@", context);
    HeaderRead("@@ -" + first, first, second, third, end, CountOf(before), CountOf(after));
  }

  lemma HeaderShape(s: string, oldStart: nat, before: nat, newStart: nat, after: nat, context: string)
    requires s == HeaderText(oldStart, before, newStart, after, context)
    ensures ShapeOf(s) == Hunk(CountOf(before), CountOf(after))
  {
    HeaderOf(oldStart, before, newStart, after, context);
    HunkShape(s, CountOf(before), CountOf(after));
  }

  lemma HunkShape(s: string, before: Count, after: Count)
    requires HunkHeader(s) == Some((before, after))
    ensures ShapeOf(s) == Hunk(before, after)
  {
  }

  lemma NoHunk(s: string)
    requires s == "" || s[0] != '@'
    ensures HunkHeader(s) == None
  {
    assert "@@ -"[0] == '@';
  }

  lemma KeptShape(text: string)
    ensures ShapeOf(" " + text) == Context
  {
    NoHunk(" " + text);
    assert GIT[0] == 'd' && MARKER[0] == '\\';
  }

  lemma EditShape(e: Edit)
    ensures var shape := ShapeOf(PrintEdit(e));
            match e
            case Removal(text) => shape.Removed? && shape.text == text
            case Addition(text) => shape.Added? && shape.text == text
            case NoNewline(_) => shape.Marker?
  {
    assert GIT[0] == 'd' && MARKER[0] == '\\';
    NoHunk(PrintEdit(e));
    if !e.NoNewline? {
      assert PrintEdit(e)[1..] == e.text;
    }
  }

  // ---------------------------------------------------------------- reading in pieces

  /** The reading after more lines. */
  function ReadOn(r: Reading, shapes: seq<Shape>): Parse<Reading>
    decreases shapes
  {
    if shapes == [] then Ok(r)
    else match Read(r, shapes[0])
      case Err(reason) => Err(reason)
      case Ok(s) => ReadOn(s, shapes[1..])
  }

  lemma {:induction false} ReadOnAppend(r: Reading, a: seq<Shape>, b: seq<Shape>)
    ensures ReadOn(r, a + b) == if ReadOn(r, a).Ok? then ReadOn(ReadOn(r, a).value, b) else ReadOn(r, a)
    decreases a
  {
    if a == [] {
      assert a + b == b;
    } else {
      assert (a + b)[1..] == a[1..] + b;
      if Read(r, a[0]).Ok? {
        ReadOnAppend(Read(r, a[0]).value, a[1..], b);
      }
    }
  }

  lemma ReadOnOne(r: Reading, shape: Shape)
    ensures ReadOn(r, [shape]) == Read(r, shape)
  {
    if Read(r, shape).Ok? {
      assert [shape][1..] == [];
    }
  }

  lemma {:induction false} ReadToIsReadOn(shapes: seq<Shape>, n: nat)
    requires n <= |shapes|
    ensures ReadTo(shapes, n) == ReadOn(START, shapes[..n])
  {
    if n > 0 {
      ReadToIsReadOn(shapes, n - 1);
      assert shapes[..n] == shapes[..n - 1] + [shapes[n - 1]];
      ReadOnAppend(START, shapes[..n - 1], [shapes[n - 1]]);
      if ReadTo(shapes, n - 1).Ok? {
        ReadOnOne(ReadTo(shapes, n - 1).value, shapes[n - 1]);
      }
    }
  }

  lemma ShapesAppend(a: seq<string>, b: seq<string>)
    ensures Shapes(a + b) == Shapes(a) + Shapes(b)
  {
    var both, lines := Shapes(a + b), a + b;
    forall i | 0 <= i < |lines| ensures both[i] == (Shapes(a) + Shapes(b))[i] {
      assert lines[i] == if i < |a| then a[i] else b[i - |a|];
    }
  }

  /** Reading the lines turns one reading into the other. */
  predicate Turns(r: Reading, lines: seq<string>, s: Reading) { ReadOn(r, Shapes(lines)) == Ok(s) }

  lemma TurnsAppend(r: Reading, a: seq<string>, s: Reading, b: seq<string>, t: Reading)
    requires Turns(r, a, s) && Turns(s, b, t)
    ensures Turns(r, a + b, t)
  {
    ShapesAppend(a, b);
    ReadOnAppend(r, Shapes(a), Shapes(b));
  }

  lemma TurnsOne(r: Reading, line: string)
    requires Read(r, ShapeOf(line)).Ok?
    ensures Turns(r, [line], Read(r, ShapeOf(line)).value)
  {
    assert Shapes([line]) == [ShapeOf(line)];
    ReadOnOne(r, ShapeOf(line));
  }

  // ---------------------------------------------------------------- reading a hunk

  /** Inside a hunk with this much left, after these blocks and with an open one. */
  predicate Stands(r: Reading, blocks: seq<seq<Edit>>, active: seq<Edit>, oldLeft: int, newLeft: int)
  {
    r.inHunk && r.blocks == blocks && r.active == active && r.oldLeft == oldLeft && r.newLeft == newLeft
  }

  function Appended(blocks: seq<seq<Edit>>, active: seq<Edit>): seq<seq<Edit>> { if active == [] then blocks else blocks + [active] }

  lemma KeptRead(r: Reading, line: Kept) returns (s: Reading)
    requires r.inHunk && r.oldLeft > 0 && r.newLeft > 0
    ensures Turns(r, PrintKept([line]), s) && s.last == Space
    ensures Stands(s, Appended(r.blocks, r.active), [], r.oldLeft - 1, r.newLeft - 1)
  {
    KeptShape(line.text);
    TurnsOne(r, " " + line.text);
    s := Read(r, ShapeOf(" " + line.text)).value;
    assert PrintKept([line]) == [" " + line.text] + if line.bare then [MARKER] else [];
    if line.bare {
      EditShape(NoNewline(Space));
      TurnsOne(s, MARKER);
      TurnsAppend(r, [" " + line.text], s, [MARKER], s);
    }
  }

  lemma {:induction false} KeptsRead(r: Reading, lines: seq<Kept>) returns (s: Reading)
    requires r.inHunk && r.oldLeft >= |lines| && r.newLeft >= |lines|
    ensures Turns(r, PrintKept(lines), s) && (lines == [] ==> s == r)
    ensures lines != [] ==> Stands(s, Appended(r.blocks, r.active), [], r.oldLeft - |lines|, r.newLeft - |lines|)
    decreases lines
  {
    if lines == [] {
      s := r;
    } else {
      var t := KeptRead(r, lines[0]);
      s := KeptsRead(t, lines[1..]);
      FirstKept(lines);
      TurnsAppend(r, PrintKept([lines[0]]), t, PrintKept(lines[1..]), s);
    }
  }

  lemma FirstKept(lines: seq<Kept>)
    requires lines != []
    ensures PrintKept(lines) == PrintKept([lines[0]]) + PrintKept(lines[1..])
  {
    assert [lines[0]][1..] == [];
    assert PrintKept([]) == [];
  }

  lemma BlockStep(block: seq<Edit>, n: nat)
    requires n < |block|
    ensures PrintBlock(block[..n + 1]) == PrintBlock(block[..n]) + [PrintEdit(block[n])]
    ensures Cuts(block[..n + 1]) == Cuts(block[..n]) + if block[n].Removal? then 1 else 0
    ensures Puts(block[..n + 1]) == Puts(block[..n]) + if block[n].Addition? then 1 else 0
  {
    assert block[..n + 1][..n] == block[..n] && block[..n + 1][n] == block[n];
  }

  lemma {:induction false} FewerBefore(block: seq<Edit>, n: nat)
    requires n <= |block|
    ensures Cuts(block[..n]) <= Cuts(block) && Puts(block[..n]) <= Puts(block)
    decreases |block| - n
  {
    if n < |block| {
      FewerBefore(block, n + 1);
      BlockStep(block, n);
    } else {
      assert block[..n] == block;
    }
  }

  /** The direction of the last edit. */
  predicate LastOf(block: seq<Edit>, n: nat, last: Direction)
    requires n <= |block|
  {
    n > 0 ==> (block[n - 1].Removal? ==> last == Minus) && (block[n - 1].Addition? ==> last == Plus)
  }

  lemma EditRead(r: Reading, block: seq<Edit>, n: nat) returns (s: Reading)
    requires n < |block| && Noted(block, n) && LastOf(block, n, r.last) && r.inHunk
    requires block[n].Removal? ==> r.oldLeft > 0
    requires block[n].Addition? ==> r.newLeft > 0
    requires r.oldLeft >= 0 && r.newLeft >= 0
    ensures Turns(r, [PrintEdit(block[n])], s) && LastOf(block, n + 1, s.last)
    ensures Stands(s, r.blocks, r.active + [block[n]], r.oldLeft - (if block[n].Removal? then 1 else 0),
                   r.newLeft - if block[n].Addition? then 1 else 0)
  {
    EditShape(block[n]);
    TurnsOne(r, PrintEdit(block[n]));
    s := Read(r, ShapeOf(PrintEdit(block[n]))).value;
  }

  lemma BlockRead(r: Reading, block: seq<Edit>) returns (s: Reading)
    requires r.inHunk && r.active == [] && IsBlock(block) && r.oldLeft >= Cuts(block) && r.newLeft >= Puts(block)
    ensures Turns(r, PrintBlock(block), s)
    ensures Stands(s, r.blocks, block, r.oldLeft - Cuts(block), r.newLeft - Puts(block))
  {
    s := r;
    assert PrintBlock(block[..0]) == [];
    for n := 0 to |block|
      invariant Turns(r, PrintBlock(block[..n]), s) && LastOf(block, n, s.last)
      invariant Stands(s, r.blocks, block[..n], r.oldLeft - Cuts(block[..n]), r.newLeft - Puts(block[..n]))
    {
      FewerBefore(block, n + 1);
      BlockStep(block, n);
      var t := EditRead(s, block, n);
      TurnsAppend(r, PrintBlock(block[..n]), s, [PrintEdit(block[n])], t);
      assert block[..n + 1] == block[..n] + [block[n]];
      s := t;
    }
    assert block[..|block|] == block;
  }

  /** At the end of a hunk, or between hunks, after these blocks. */
  predicate Rests(r: Reading, blocks: seq<seq<Edit>>)
  {
    && (r.inHunk ==> r.oldLeft == 0 && r.newLeft == 0) && (!r.inHunk ==> r.active == [])
    && Appended(r.blocks, r.active) == blocks
  }

  lemma FirstPart(parts: seq<Part>)
    requires parts != []
    ensures PrintParts(parts) == PrintBlock(parts[0].block) + PrintKept(parts[0].after) + PrintParts(parts[1..])
    ensures BlocksOfParts(parts) == [parts[0].block] + BlocksOfParts(parts[1..])
    ensures Separated(parts) ==> Separated(parts[1..])
    ensures OldCount(parts) == Cuts(parts[0].block) + |parts[0].after| + OldCount(parts[1..])
    ensures NewCount(parts) == Puts(parts[0].block) + |parts[0].after| + NewCount(parts[1..])
  {
    assert forall k :: 0 <= k < |parts| - 1 ==> parts[1..][k] == parts[k + 1];
  }

  lemma PartRead(r: Reading, part: Part) returns (s: Reading)
    requires r.inHunk && r.active == [] && IsBlock(part.block)
    requires r.oldLeft >= Cuts(part.block) + |part.after| && r.newLeft >= Puts(part.block) + |part.after|
    ensures Turns(r, PrintBlock(part.block) + PrintKept(part.after), s) && s.inHunk
    ensures s.oldLeft == r.oldLeft - Cuts(part.block) - |part.after| && s.newLeft == r.newLeft - Puts(part.block) - |part.after|
    ensures Appended(s.blocks, s.active) == r.blocks + [part.block]
    ensures part.after != [] ==> s.active == []
  {
    var t := BlockRead(r, part.block);
    s := KeptsRead(t, part.after);
    TurnsAppend(r, PrintBlock(part.block), t, PrintKept(part.after), s);
  }

  lemma {:induction false} PartsRead(r: Reading, parts: seq<Part>) returns (s: Reading)
    requires r.inHunk && r.active == [] && Separated(parts) && r.oldLeft == OldCount(parts) && r.newLeft == NewCount(parts)
    ensures Turns(r, PrintParts(parts), s) && s.inHunk && Rests(s, r.blocks + BlocksOfParts(parts))
    decreases parts
  {
    if parts == [] {
      s := r;
    } else {
      FirstPart(parts);
      var t := PartRead(r, parts[0]);
      if |parts| == 1 {
        s := t;
        assert parts[1..] == [];
        assert PrintParts(parts) == PrintBlock(parts[0].block) + PrintKept(parts[0].after);
      } else {
        s := PartsRead(t, parts[1..]);
        TurnsAppend(r, PrintBlock(parts[0].block) + PrintKept(parts[0].after), t, PrintParts(parts[1..]), s);
      }
    }
  }

  /** Blocks are separated, and the counts are those of a text. */
  predicate IsHunk(h: HunkOf)
  {
    Separated(h.parts) && OldTotal(h) <= MAX_INT && NewTotal(h) <= MAX_INT
  }

  lemma HeaderTurns(r: Reading, line: string, before: nat, after: nat, blocks: seq<seq<Edit>>) returns (s: Reading)
    requires ShapeOf(line) == Hunk(CountOf(before), CountOf(after)) && before <= MAX_INT && after <= MAX_INT && Rests(r, blocks)
    ensures Turns(r, [line], s) && Stands(s, blocks, [], before, after)
  {
    TurnsOne(r, line);
    s := Read(r, ShapeOf(line)).value;
  }

  lemma HunkRead(r: Reading, h: HunkOf, blocks: seq<seq<Edit>>) returns (s: Reading)
    requires IsHunk(h) && Rests(r, blocks)
    ensures Turns(r, PrintHunk(h), s) && s.inHunk && Rests(s, blocks + BlocksOfParts(h.parts))
  {
    var line := HeaderText(h.oldStart, OldTotal(h), h.newStart, NewTotal(h), h.context);
    HeaderShape(line, h.oldStart, OldTotal(h), h.newStart, NewTotal(h), h.context);
    s := BodyRead(r, line, h, blocks);
  }

  lemma BodyRead(r: Reading, line: string, h: HunkOf, blocks: seq<seq<Edit>>) returns (s: Reading)
    requires IsHunk(h) && Rests(r, blocks) && ShapeOf(line) == Hunk(CountOf(OldTotal(h)), CountOf(NewTotal(h)))
    ensures Turns(r, [line] + PrintKept(h.lead) + PrintParts(h.parts), s) && s.inHunk && Rests(s, blocks + BlocksOfParts(h.parts))
  {
    var t := HeaderTurns(r, line, OldTotal(h), NewTotal(h), blocks);
    var u := KeptsRead(t, h.lead);
    s := PartsRead(u, h.parts);
    TurnsAppend(r, [line], t, PrintKept(h.lead), u);
    TurnsAppend(r, [line] + PrintKept(h.lead), u, PrintParts(h.parts), s);
  }

  // ---------------------------------------------------------------- reading a diff

  function PrintHunks(hunks: seq<HunkOf>): seq<string>
  {
    if hunks == [] then [] else PrintHunks(hunks[..|hunks| - 1]) + PrintHunk(hunks[|hunks| - 1])
  }

  function BlocksOfHunks(hunks: seq<HunkOf>): seq<seq<Edit>>
  {
    if hunks == [] then [] else BlocksOfHunks(hunks[..|hunks| - 1]) + BlocksOfParts(hunks[|hunks| - 1].parts)
  }

  function PrintSection(s: Section): seq<string> { [s.git] + s.headers + PrintHunks(s.hunks) }

  function PrintDiff(sections: seq<Section>): seq<string>
  {
    if sections == [] then [] else PrintDiff(sections[..|sections| - 1]) + PrintSection(sections[|sections| - 1])
  }

  /** All blocks that are printed, in order. */
  function BlocksOf(sections: seq<Section>): seq<seq<Edit>>
  {
    if sections == [] then [] else BlocksOf(sections[..|sections| - 1]) + BlocksOfHunks(sections[|sections| - 1].hunks)
  }

  predicate IsSection(s: Section)
  {
    && GIT <= s.git && (forall i :: 0 <= i < |s.headers| ==> OutsideOf(s.headers[i]) != Refused)
    && forall i :: 0 <= i < |s.hunks| ==> IsHunk(s.hunks[i])
  }

  lemma GitShape(s: string)
    requires GIT <= s
    ensures ShapeOf(s) == Git
  {
    assert GIT[0] == 'd' && s[0] == 'd';
    NoHunk(s);
  }

  /** Neither a hunk, a marker, a blank nor an unchanged line. */
  predicate Lettered(s: string) { s != "" && s[0] != '@' && s[0] != ' ' && s[0] != '\\' }

  lemma SkippedLetter(s: string)
    requires OutsideOf(s) != Refused
    ensures Lettered(s)
  {
  }

  lemma LetteredShape(s: string)
    requires Lettered(s) && !(GIT <= s)
    ensures OutsideKind(ShapeOf(s)) == OutsideOf(s) && !ShapeOf(s).Hunk? && !ShapeOf(s).Git?
  {
    NoHunk(s);
    assert MARKER[0] == '\\';
  }

  lemma SkippedShape(s: string)
    requires OutsideOf(s) != Refused
    ensures OutsideKind(ShapeOf(s)) != Refused && !ShapeOf(s).Hunk? && !ShapeOf(s).Git?
  {
    SkippedLetter(s);
    NotGit(s);
    LetteredShape(s);
  }

  lemma GitLetters(s: string)
    ensures GIT <= s ==> |s| > 1 && s[0] == 'd' && s[1] == 'i'
  {
  }

  lemma SkippedLetters(s: string)
    requires OutsideOf(s) != Refused
    ensures |s| > 1 && (s[0] == 'd' ==> s[1] == 'e')
  {
  }

  lemma NotGit(s: string)
    requires OutsideOf(s) != Refused
    ensures !(GIT <= s)
  {
    GitLetters(s);
    SkippedLetters(s);
  }

  lemma SkipRead(r: Reading, line: string)
    requires !r.inHunk && OutsideKind(ShapeOf(line)) != Refused && !ShapeOf(line).Hunk? && !ShapeOf(line).Git?
    ensures Turns(r, [line], r)
  {
    TurnsOne(r, line);
  }

  lemma HeaderLineRead(r: Reading, before: seq<string>, line: string)
    requires !r.inHunk && OutsideOf(line) != Refused && Turns(r, before, r)
    ensures Turns(r, before + [line], r)
  {
    SkippedShape(line);
    SkipRead(r, line);
    TurnsAppend(r, before, r, [line], r);
  }

  lemma HeadersRead(r: Reading, headers: seq<string>)
    requires !r.inHunk && forall i :: 0 <= i < |headers| ==> OutsideOf(headers[i]) != Refused
    ensures Turns(r, headers, r)
  {
    assert headers[..0] == [];
    for n := 0 to |headers|
      invariant Turns(r, headers[..n], r)
    {
      HeaderLineRead(r, headers[..n], headers[n]);
      assert headers[..n + 1] == headers[..n] + [headers[n]];
    }
    assert headers[..|headers|] == headers;
  }

  lemma NextHunkRead(r: Reading, lines: seq<string>, t: Reading, h: HunkOf, blocks: seq<seq<Edit>>) returns (s: Reading)
    requires Turns(r, lines, t) && Rests(t, blocks) && IsHunk(h)
    ensures Turns(r, lines + PrintHunk(h), s) && Rests(s, blocks + BlocksOfParts(h.parts)) && s.inHunk
  {
    s := HunkRead(t, h, blocks);
    TurnsAppend(r, lines, t, PrintHunk(h), s);
  }

  lemma HunksMore(hunks: seq<HunkOf>, n: nat, blocks: seq<seq<Edit>>)
    requires n < |hunks|
    ensures PrintHunks(hunks[..n + 1]) == PrintHunks(hunks[..n]) + PrintHunk(hunks[n])
    ensures blocks + BlocksOfHunks(hunks[..n + 1]) == blocks + BlocksOfHunks(hunks[..n]) + BlocksOfParts(hunks[n].parts)
  {
    var more := hunks[..n + 1];
    assert more[..n] == hunks[..n] && more[n] == hunks[n];
  }

  lemma HunksRead(r: Reading, hunks: seq<HunkOf>, blocks: seq<seq<Edit>>) returns (s: Reading)
    requires Rests(r, blocks) && forall i :: 0 <= i < |hunks| ==> IsHunk(hunks[i])
    ensures Turns(r, PrintHunks(hunks), s) && Rests(s, blocks + BlocksOfHunks(hunks)) && (hunks != [] ==> s.inHunk)
  {
    s := r;
    for n := 0 to |hunks|
      invariant Turns(r, PrintHunks(hunks[..n]), s) && Rests(s, blocks + BlocksOfHunks(hunks[..n])) && (n > 0 ==> s.inHunk)
    {
      HunksMore(hunks, n, blocks);
      s := NextHunkRead(r, PrintHunks(hunks[..n]), s, hunks[n], blocks + BlocksOfHunks(hunks[..n]));
    }
    assert hunks[..|hunks|] == hunks;
  }

  lemma SectionRead(r: Reading, x: Section, blocks: seq<seq<Edit>>) returns (s: Reading)
    requires IsSection(x) && Rests(r, blocks)
    ensures Turns(r, PrintSection(x), s) && Rests(s, blocks + BlocksOfHunks(x.hunks)) && (x.hunks != [] ==> s.inHunk)
  {
    GitShape(x.git);
    TurnsOne(r, x.git);
    var t := Read(r, ShapeOf(x.git)).value;
    HeadersRead(t, x.headers);
    TurnsAppend(r, [x.git], t, x.headers, t);
    s := HunksRead(t, x.hunks, blocks);
    TurnsAppend(r, [x.git] + x.headers, t, PrintHunks(x.hunks), s);
  }

  lemma {:induction false} SectionsRead(sections: seq<Section>) returns (s: Reading)
    requires forall i :: 0 <= i < |sections| ==> IsSection(sections[i])
    ensures Turns(START, PrintDiff(sections), s) && Rests(s, BlocksOf(sections))
    ensures sections != [] && sections[|sections| - 1].hunks != [] ==> s.inHunk
  {
    if sections == [] {
      s := START;
    } else {
      var n := |sections| - 1;
      var t := SectionsRead(sections[..n]);
      s := SectionRead(t, sections[n], BlocksOf(sections[..n]));
      TurnsAppend(START, PrintDiff(sections[..n]), t, PrintSection(sections[n]), s);
    }
  }

  /** A diff of files, of which the last one has a hunk. */
  predicate IsDiff(sections: seq<Section>)
  {
    && sections != [] && (forall i :: 0 <= i < |sections| ==> IsSection(sections[i])) && sections[|sections| - 1].hunks != []
  }

  /** Whatever edits are printed, reading finds exactly these blocks. */
  lemma PrintedIsRead(sections: seq<Section>)
    requires IsDiff(sections)
    ensures Blocks(Shapes(PrintDiff(sections))) == Ok(BlocksOf(sections))
  {
    var s := SectionsRead(sections);
    var shapes := Shapes(PrintDiff(sections));
    ReadToIsReadOn(shapes, |shapes|);
    assert shapes[..|shapes|] == shapes;
  }

  // ---------------------------------------------------------------- the other reader

  /** Every line is tidy, and the first one is no marker. */
  predicate NeatShapes(shapes: seq<Shape>) { AllTidy(shapes) && (shapes != [] ==> !shapes[0].Marker?) }

  predicate Neat(lines: seq<string>) { NeatShapes(Shapes(lines)) }

  lemma NeatShapesAppend(a: seq<Shape>, b: seq<Shape>)
    requires NeatShapes(a) && NeatShapes(b)
    ensures NeatShapes(a + b)
  {
    var both := a + b;
    forall i | 0 <= i < |both| ensures Tidy(both, i) {
      if i < |a| {
        assert Tidy(a, i);
      } else {
        assert Tidy(b, i - |a|);
      }
    }
    assert a == [] ==> both == b;
  }

  lemma NeatAppend(a: seq<string>, b: seq<string>)
    requires Neat(a) && Neat(b)
    ensures Neat(a + b)
  {
    ShapesAppend(a, b);
    NeatShapesAppend(Shapes(a), Shapes(b));
  }

  lemma NeatOne(line: string)
    requires !ShapeOf(line).Blank? && !ShapeOf(line).Marker?
    ensures Neat([line])
  {
    assert Shapes([line]) == [ShapeOf(line)];
  }

  lemma NeatMarked(line: string, marker: string)
    requires !ShapeOf(line).Blank? && !ShapeOf(line).Marker? && ShapeOf(marker).Marker?
    ensures Neat([line] + [marker])
  {
    assert Shapes([line] + [marker]) == [ShapeOf(line), ShapeOf(marker)];
  }

  lemma NeatKept(line: Kept)
    ensures Neat([" " + line.text] + if line.bare then [MARKER] else [])
  {
    KeptShape(line.text);
    EditShape(NoNewline(Space));
    NeatOne(" " + line.text);
    NeatMarked(" " + line.text, MARKER);
    assert [" " + line.text] + [] == [" " + line.text];
  }

  lemma {:induction false} NeatKepts(lines: seq<Kept>)
    ensures Neat(PrintKept(lines))
  {
    if lines != [] {
      NeatKept(lines[0]);
      NeatKepts(lines[1..]);
      NeatAppend([" " + lines[0].text] + (if lines[0].bare then [MARKER] else []), PrintKept(lines[1..]));
    }
  }

  lemma NeatBlock(block: seq<Edit>)
    requires IsBlock(block)
    ensures Neat(PrintBlock(block))
  {
    var shapes := Shapes(PrintBlock(block));
    forall i | 0 <= i < |block| ensures !shapes[i].Blank? && (shapes[i].Marker? <==> block[i].NoNewline?) {
      EditShape(block[i]);
      assert PrintBlock(block)[i] == PrintEdit(block[i]);
    }
    NeatEdits(block, shapes);
  }

  lemma NeatEdits(block: seq<Edit>, shapes: seq<Shape>)
    requires IsBlock(block) && |shapes| == |block|
    requires forall i :: 0 <= i < |block| ==> !shapes[i].Blank? && (shapes[i].Marker? <==> block[i].NoNewline?)
    ensures NeatShapes(shapes)
  {
    forall i | 0 <= i < |shapes| ensures Tidy(shapes, i) {
      assert Noted(block, i);
    }
    assert Noted(block, 0);
  }

  lemma {:induction false} NeatParts(parts: seq<Part>)
    requires Separated(parts)
    ensures Neat(PrintParts(parts))
  {
    if parts != [] {
      FirstPart(parts);
      NeatBlock(parts[0].block);
      NeatKepts(parts[0].after);
      NeatParts(parts[1..]);
      NeatAppend(PrintBlock(parts[0].block), PrintKept(parts[0].after));
      NeatAppend(PrintBlock(parts[0].block) + PrintKept(parts[0].after), PrintParts(parts[1..]));
    }
  }

  lemma NeatBody(line: string, h: HunkOf)
    requires ShapeOf(line).Hunk? && IsHunk(h)
    ensures Neat([line] + PrintKept(h.lead) + PrintParts(h.parts))
  {
    NeatOne(line);
    NeatKepts(h.lead);
    NeatParts(h.parts);
    NeatAppend([line], PrintKept(h.lead));
    NeatAppend([line] + PrintKept(h.lead), PrintParts(h.parts));
  }

  lemma NeatHunk(h: HunkOf)
    requires IsHunk(h)
    ensures Neat(PrintHunk(h))
  {
    var line := HeaderText(h.oldStart, OldTotal(h), h.newStart, NewTotal(h), h.context);
    HeaderShape(line, h.oldStart, OldTotal(h), h.newStart, NewTotal(h), h.context);
    NeatBody(line, h);
  }

  lemma {:induction false} NeatHunks(hunks: seq<HunkOf>)
    requires forall i :: 0 <= i < |hunks| ==> IsHunk(hunks[i])
    ensures Neat(PrintHunks(hunks))
  {
    if hunks != [] {
      var n := |hunks| - 1;
      NeatHunks(hunks[..n]);
      NeatHunk(hunks[n]);
      NeatAppend(PrintHunks(hunks[..n]), PrintHunk(hunks[n]));
    }
  }

  lemma NeatHeaders(headers: seq<string>)
    requires forall i :: 0 <= i < |headers| ==> OutsideOf(headers[i]) != Refused
    ensures Neat(headers)
  {
    assert headers[..0] == [];
    for n := 0 to |headers|
      invariant Neat(headers[..n])
    {
      SkippedShape(headers[n]);
      NeatOne(headers[n]);
      NeatAppend(headers[..n], [headers[n]]);
      assert headers[..n + 1] == headers[..n] + [headers[n]];
    }
    assert headers[..|headers|] == headers;
  }

  lemma NeatSection(x: Section)
    requires IsSection(x)
    ensures Neat(PrintSection(x))
  {
    GitShape(x.git);
    NeatOne(x.git);
    NeatHeaders(x.headers);
    NeatHunks(x.hunks);
    NeatAppend([x.git], x.headers);
    NeatAppend([x.git] + x.headers, PrintHunks(x.hunks));
  }

  lemma {:induction false} NeatDiff(sections: seq<Section>)
    requires forall i :: 0 <= i < |sections| ==> IsSection(sections[i])
    ensures Neat(PrintDiff(sections))
  {
    if sections != [] {
      var n := |sections| - 1;
      NeatDiff(sections[..n]);
      NeatSection(sections[n]);
      NeatAppend(PrintDiff(sections[..n]), PrintSection(sections[n]));
    }
  }

  /** The reader for grouping accepts the printed diff too, with the lines of these blocks as its ranges. */
  lemma PrintedIsGrouped(sections: seq<Section>)
    requires IsDiff(sections) && |PrintDiff(sections)| <= MAX_INT
    ensures var shapes := Shapes(PrintDiff(sections));
            Ranges(shapes).Ok? && SameBlocks(shapes, BlocksOf(sections), Ranges(shapes).value)
  {
    PrintedIsRead(sections);
    NeatDiff(sections);
    AttributionImpliesGrouping(Shapes(PrintDiff(sections)));
    ReadersAgree(Shapes(PrintDiff(sections)));
  }

  // ---------------------------------------------------------------- the text

  /** The lines with a line feed after each. */
  function TextOf(lines: seq<string>): string { Strings.Join(lines, "\n") + "\n" }

  predicate OneLine(s: string) { '\n' !in s }

  lemma {:induction false} PiecesOfLine(line: string, rest: string)
    requires OneLine(line)
    ensures DiffLines.Pieces(line) == [line]
    ensures DiffLines.Pieces(line + "\n" + rest) == [line] + DiffLines.Pieces(rest)
    decreases |line|
  {
    var s := line + "\n" + rest;
    if line == "" {
      assert s[0] == '\n' && s[1..] == rest;
    } else {
      PiecesOfLine(line[1..], rest);
      assert s[0] == line[0] && s[1..] == line[1..] + "\n" + rest;
      assert line == [line[0]] + line[1..];
    }
  }

  lemma {:induction false} PiecesOfJoin(lines: seq<string>)
    requires lines != [] && forall i :: 0 <= i < |lines| ==> OneLine(lines[i])
    ensures DiffLines.Pieces(Strings.Join(lines, "\n")) == lines
    decreases |lines|
  {
    if |lines| == 1 {
      PiecesOfLine(lines[0], "");
    } else {
      PiecesOfJoin(lines[1..]);
      PiecesOfLine(lines[0], Strings.Join(lines[1..], "\n"));
      assert lines == [lines[0]] + lines[1..];
    }
  }

  lemma LinesOfText(lines: seq<string>)
    requires lines != [] && forall i :: 0 <= i < |lines| ==> OneLine(lines[i])
    ensures Lines(TextOf(lines)) == lines
  {
    var text, joined := TextOf(lines), Strings.Join(lines, "\n");
    assert text[|text| - 1] == '\n' && text[..|text| - 1] == joined;
    PiecesOfJoin(lines);
  }

  /** The whole way: from blocks to the text of a diff and back. */
  lemma PrintedTextIsRead(sections: seq<Section>)
    requires IsDiff(sections) && forall i :: 0 <= i < |PrintDiff(sections)| ==> OneLine(PrintDiff(sections)[i])
    ensures Blocks(Shapes(Lines(TextOf(PrintDiff(sections))))) == Ok(BlocksOf(sections))
  {
    PrintedIsRead(sections);
    LinesOfText(PrintDiff(sections));
  }
}
