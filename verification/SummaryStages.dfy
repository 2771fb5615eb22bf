/**
 The stages of diff compression (internal/contextinput/summarizer.go:53-93, internal/contextinput/chunk.go:67-216)
 and the check that every stage keeps lines of the original diff only (internal/contextinput/input.go:203-223).
 */
module SummaryStages {
  import opened SummaryRanking
  import opened Sequences
  import DiffLines

  // ---------------------------------------------------------------- lines of a text

  predicate HunkStart(text: string) { "@@" <= text }

  predicate RedundantHeader(text: string) { "diff --git " <= text || "index " <= text || "--- " <= text || "+++ " <= text }

  predicate IsContext(text: string) { |text| > 0 && text[0] == ' ' }

  /** How many hunks have started in the first n texts. */
  function HunkNumber(texts: seq<string>, n: nat): nat
    requires n <= |texts|
  {
    if n == 0 then 0 else HunkNumber(texts, n - 1) + if HunkStart(texts[n - 1]) then 1 else 0
  }

  function Numbered(texts: seq<string>): seq<Line>
  {
    seq(|texts|, i requires 0 <= i < |texts| => Line(i + 1, HunkNumber(texts, i + 1), texts[i]))
  }

  function Indexed(source: string): seq<Line> { Numbered(DiffLines.Lines(source)) }

  method IndexSummaryLines(source: string) returns (lines: seq<Line>)
    ensures lines == Indexed(source)
  {
    var input := DiffLines.Lines(source);
    lines := [];
    var hunk := 0;
    for index := 0 to |input|
      invariant hunk == HunkNumber(input, index) && lines == Numbered(input)[..index]
    {
      if HunkStart(input[index]) {
        hunk := hunk + 1;
      }
      lines := lines + [Line(index + 1, hunk, input[index])];
    }
  }

  // ---------------------------------------------------------------- the stages

  /** Still before the first hunk after n lines. */
  predicate InHeader(lines: seq<Line>, n: nat)
    requires n <= |lines|
  {
    forall i :: 0 <= i < n ==> !HunkStart(lines[i].text)
  }

  /** File stage: headers that say nothing new go. */
  function FileKept(lines: seq<Line>, n: nat): seq<Line>
    requires n <= |lines|
  {
    if n == 0 then []
    else FileKept(lines, n - 1) + if InHeader(lines, n) && RedundantHeader(lines[n - 1].text) then [] else [lines[n - 1]]
  }

  /** Hunk stage: context goes. */
  function HunkKept(lines: seq<Line>, n: nat): seq<Line>
    requires n <= |lines|
  {
    if n == 0 then [] else HunkKept(lines, n - 1) + if IsContext(lines[n - 1].text) then [] else [lines[n - 1]]
  }

  /** A line is named by its chunk and its number in the diff. */
  type LineId = (int, int)

  /** Chunk stage: the selected lines stay. */
  function Selected(lines: seq<Line>, selected: set<LineId>, size: nat, n: nat): seq<Line>
    requires n <= |lines| && size > 0
  {
    if n == 0 then []
    else Selected(lines, selected, size, n - 1) + if ((n - 1) / size + 1, lines[n - 1].index) in selected then [lines[n - 1]] else []
  }

  method SummarizeFileLines(lines: seq<Line>) returns (kept: seq<Line>)
    ensures kept == FileKept(lines, |lines|)
  {
    kept := [];
    var inHeader := true;
    for n := 0 to |lines|
      invariant kept == FileKept(lines, n) && inHeader == InHeader(lines, n)
    {
      if HunkStart(lines[n].text) {
        inHeader := false;
      }
      if inHeader && RedundantHeader(lines[n].text) {
        continue;
      }
      kept := kept + [lines[n]];
    }
  }

  method SummarizeHunkLines(lines: seq<Line>) returns (kept: seq<Line>)
    ensures kept == HunkKept(lines, |lines|)
  {
    kept := [];
    for n := 0 to |lines|
      invariant kept == HunkKept(lines, n)
    {
      if !IsContext(lines[n].text) {
        kept := kept + [lines[n]];
      }
    }
  }

  method SelectedSummaryLines(lines: seq<Line>, selected: set<LineId>, size: nat) returns (kept: seq<Line>)
    requires size > 0
    ensures kept == Selected(lines, selected, size, |lines|)
  {
    kept := [];
    for n := 0 to |lines|
      invariant kept == Selected(lines, selected, size, n)
    {
      if (n / size + 1, lines[n].index) in selected {
        kept := kept + [lines[n]];
      }
    }
  }

  // ---------------------------------------------------------------- the provenance check

  predicate IsOriginal(original: seq<Line>, line: Line) { 1 <= line.index <= |original| && line == original[line.index - 1] }

  /** Lines of the original diff, with its text and hunk, in increasing order. */
  ghost predicate Provenance(original: seq<Line>, retained: seq<Line>)
  {
    && (forall k {:trigger IsOriginal(original, retained[k])} :: 0 <= k < |retained| ==> IsOriginal(original, retained[k]))
    && forall j, k :: 0 <= j < k < |retained| ==> retained[j].index < retained[k].index
  }

  method ValidateSummaryLines(rawDiff: string, retained: seq<Line>) returns (ok: bool)
    ensures ok <==> retained == [] || (|rawDiff| > 0 && Provenance(Indexed(rawDiff), retained))
  {
    if |retained| == 0 {
      return true;
    }
    if |rawDiff| == 0 {
      return false;
    }
    var original := IndexSummaryLines(rawDiff);
    var previous := 0;
    for k := 0 to |retained|
      invariant 0 <= previous == if k == 0 then 0 else retained[k - 1].index
      invariant Provenance(original, retained[..k])
    {
      var line := retained[k];
      assert IsOriginal(original, line) <==> IsOriginal(original, retained[k]);
      if line.index <= previous || line.index > |original| {
        return false;
      }
      var source := original[line.index - 1];
      if line.text != source.text || line.hunk != source.hunk {
        return false;
      }
      previous := line.index;
    }
    assert retained[..|retained|] == retained;
    ok := true;
  }

  lemma NumberedIsProvenance(texts: seq<string>)
    ensures Provenance(Numbered(texts), Numbered(texts))
  {
    var lines := Numbered(texts);
    forall k | 0 <= k < |lines| ensures IsOriginal(lines, lines[k]) {
      assert lines[k].index == k + 1;
    }
  }

  /** Leaving lines out keeps the provenance. */
  lemma {:induction false} SubsequenceKeepsProvenance(original: seq<Line>, a: seq<Line>, b: seq<Line>)
    requires Subsequence(a, b) && Provenance(original, b)
    ensures Provenance(original, a)
    ensures a != [] ==> b != [] && a[|a| - 1].index <= b[|b| - 1].index
  {
    if a != [] {
      var n, m := |a| - 1, |b| - 1;
      if Subsequence(a, b[..m]) {
        SubsequenceKeepsProvenance(original, a, b[..m]);
      } else {
        SubsequenceKeepsProvenance(original, a[..n], b[..m]);
        LastIsLargest(original, a[..n]);
        assert n > 0 ==> b[..m][m - 1].index < b[m].index;
        ProvenanceGrows(original, a[..n], b[m]);
        assert a == a[..n] + [b[m]];
      }
    }
  }

  lemma ProvenanceGrows(original: seq<Line>, s: seq<Line>, x: Line)
    requires Provenance(original, s) && IsOriginal(original, x) && forall k :: 0 <= k < |s| ==> s[k].index < x.index
    ensures Provenance(original, s + [x])
  {
    forall k | 0 <= k < |s + [x]| ensures IsOriginal(original, (s + [x])[k]) {
      assert k < |s| ==> IsOriginal(original, s[k]);
    }
  }

  lemma LastIsLargest(original: seq<Line>, s: seq<Line>)
    requires Provenance(original, s)
    ensures forall k :: 0 <= k < |s| ==> s[k].index <= s[|s| - 1].index
  {
  }

  lemma {:induction false} FileKeptIsSubsequence(lines: seq<Line>, n: nat)
    requires n <= |lines|
    ensures Subsequence(FileKept(lines, n), lines[..n])
  {
    if n > 0 {
      FileKeptIsSubsequence(lines, n - 1);
      TakeSnoc(lines, n - 1);
      KeepOrDrop(FileKept(lines, n - 1), lines[..n - 1], lines[n - 1], !(InHeader(lines, n) && RedundantHeader(lines[n - 1].text)));
    }
  }

  lemma {:induction false} HunkKeptIsSubsequence(lines: seq<Line>, n: nat)
    requires n <= |lines|
    ensures Subsequence(HunkKept(lines, n), lines[..n])
  {
    if n > 0 {
      HunkKeptIsSubsequence(lines, n - 1);
      TakeSnoc(lines, n - 1);
      KeepOrDrop(HunkKept(lines, n - 1), lines[..n - 1], lines[n - 1], !IsContext(lines[n - 1].text));
    }
  }

  lemma {:induction false} SelectedIsSubsequence(lines: seq<Line>, selected: set<LineId>, size: nat, n: nat)
    requires n <= |lines| && size > 0
    ensures Subsequence(Selected(lines, selected, size, n), lines[..n])
  {
    if n > 0 {
      SelectedIsSubsequence(lines, selected, size, n - 1);
      TakeSnoc(lines, n - 1);
      KeepOrDrop(Selected(lines, selected, size, n - 1), lines[..n - 1], lines[n - 1], ((n - 1) / size + 1, lines[n - 1].index) in selected);
    }
  }

  // ---------------------------------------------------------------- the stages one after the other

  /** What a stage leaves behind when it keeps no text at all; digest stands for SHA-256 in hexadecimal. */
  function Fallback(digest: string -> string, source: string): string { "diff metadata only sha256=" + digest(source) }

  ghost predicate Hexadecimal(digest: string -> string) { forall s :: '\n' !in digest(s) }

  /** The lines a stage starts from: those kept before, or the lines of what the stage before left behind. */
  function InputOf(kept: seq<Line>, digest: string -> string, source: string): seq<Line>
  {
    if kept == [] then Indexed(Fallback(digest, source)) else kept
  }

  ghost predicate Accepted(rawDiff: string, retained: seq<Line>) { retained == [] || (|rawDiff| > 0 && Provenance(Indexed(rawDiff), retained)) }

  lemma {:induction false} OnePiece(s: string)
    requires '\n' !in s
    ensures DiffLines.Pieces(s) == [s]
  {
    if s != "" {
      assert s == [s[0]] + s[1..];
      OnePiece(s[1..]);
    }
  }

  lemma FallbackIsOneLine(digest: string -> string, source: string)
    requires Hexadecimal(digest)
    ensures var f := Fallback(digest, source);
            |f| > 5 && f[0] == 'd' && f[5] == 'm' && Indexed(f) == [Line(1, 0, f)]
  {
    var f := Fallback(digest, source);
    assert f[0] == 'd' && f[5] == 'm';
    assert '\n' !in "diff metadata only sha256=";
    assert '\n' !in f;
    OnePiece(f);
    assert !HunkStart(f) by {
      assert "@@"[0] == '@';
    }
    assert HunkNumber([f], 1) == HunkNumber([f], 0) == 0;
    assert Numbered([f]) == [Line(1, 0, f)];
  }

  /** The file stage keeps nothing exactly of a diff that only has redundant headers. */
  lemma {:induction false} NothingKept(lines: seq<Line>, n: nat)
    requires n <= |lines|
    ensures FileKept(lines, n) == [] <==> forall i :: 0 <= i < n ==> RedundantHeader(lines[i].text)
  {
    if n > 0 {
      NothingKept(lines, n - 1);
      forall i | 0 <= i < n && RedundantHeader(lines[i].text) ensures !HunkStart(lines[i].text) {
        HeaderIsNoHunk(lines[i].text);
      }
      assert InHeader(lines, n) || FileKept(lines, n) != [];
    }
  }

  lemma HeaderIsNoHunk(text: string)
    requires RedundantHeader(text)
    ensures !HunkStart(text)
  {
    assert "diff --git "[0] == 'd' && "index "[0] == 'i' && "--- "[0] == '-' && "+++ "[0] == '+' && "@@"[0] == '@';
  }

  lemma RedundantIsNoFallback(text: string)
    requires RedundantHeader(text)
    ensures !(|text| > 5 && text[0] == 'd' && text[5] == 'm')
  {
    assert "diff --git "[5] == '-' && "index "[0] == 'i' && "--- "[0] == '-' && "+++ "[0] == '+';
  }

  /** The file stage is always accepted. */
  lemma FileStageAccepted(rawDiff: string)
    requires |rawDiff| > 0
    ensures Accepted(rawDiff, FileKept(Indexed(rawDiff), |Indexed(rawDiff)|))
  {
    var lines := Indexed(rawDiff);
    FileKeptIsSubsequence(lines, |lines|);
    assert lines[..|lines|] == lines;
    NumberedIsProvenance(DiffLines.Lines(rawDiff));
    SubsequenceKeepsProvenance(lines, FileKept(lines, |lines|), lines);
  }

  /** Every line is a header that the file stage drops. */
  ghost predicate OnlyHeaders(rawDiff: string) { forall i :: 0 <= i < |DiffLines.Lines(rawDiff)| ==> RedundantHeader(DiffLines.Lines(rawDiff)[i]) }

  lemma OnlyHeadersKeepNothing(rawDiff: string)
    ensures FileKept(Indexed(rawDiff), |Indexed(rawDiff)|) == [] <==> OnlyHeaders(rawDiff)
  {
    var lines, texts := Indexed(rawDiff), DiffLines.Lines(rawDiff);
    NothingKept(lines, |lines|);
    assert |lines| == |texts| && forall i :: 0 <= i < |lines| ==> lines[i].text == texts[i];
  }

  /** The hunk stage is accepted exactly when the diff has a line that is not a redundant header. */
  lemma HunkStageAccepted(rawDiff: string, digest: string -> string)
    requires |rawDiff| > 0 && Hexadecimal(digest)
    ensures var first := FileKept(Indexed(rawDiff), |Indexed(rawDiff)|);
            var input := InputOf(first, digest, rawDiff);
            Accepted(rawDiff, HunkKept(input, |input|)) <==> !OnlyHeaders(rawDiff)
  {
    OnlyHeadersKeepNothing(rawDiff);
    HunkStageStep(rawDiff, digest);
  }

  /** A diff that is nothing but a file header is refused there. */
  lemma HeaderAloneIsRefused(digest: string -> string)
    requires Hexadecimal(digest)
    ensures var rawDiff := "diff --git a/f b/f";
            var first := FileKept(Indexed(rawDiff), |Indexed(rawDiff)|);
            var input := InputOf(first, digest, rawDiff);
            !Accepted(rawDiff, HunkKept(input, |input|))
  {
    var rawDiff := "diff --git a/f b/f";
    assert "diff --git " == rawDiff[..11];
    assert '\n' !in rawDiff;
    OnePiece(rawDiff);
    assert DiffLines.Lines(rawDiff) == [rawDiff];
    HunkStageAccepted(rawDiff, digest);
  }

  lemma HunkStageStep(rawDiff: string, digest: string -> string)
    requires |rawDiff| > 0 && Hexadecimal(digest)
    ensures var first := FileKept(Indexed(rawDiff), |Indexed(rawDiff)|);
            var input := InputOf(first, digest, rawDiff);
            Accepted(rawDiff, HunkKept(input, |input|)) <==> first != []
  {
    var lines := Indexed(rawDiff);
    var first := FileKept(lines, |lines|);
    FileStageAccepted(rawDiff);
    if first == [] {
      var f := Fallback(digest, rawDiff);
      FallbackIsOneLine(digest, rawDiff);
      NothingKept(lines, |lines|);
      RedundantIsNoFallback(lines[0].text);
      var one := [Line(1, 0, f)];
      assert HunkKept(one, 1) == HunkKept(one, 0) + [one[0]];
      assert HunkKept(one, 0) == [];
      assert one[0] != lines[0];
      assert IsOriginal(lines, HunkKept(one, 1)[0]) <==> one[0] == lines[0];
    } else {
      HunkKeptIsSubsequence(first, |first|);
      assert first[..|first|] == first;
      SubsequenceKeepsProvenance(lines, HunkKept(first, |first|), first);
    }
  }

  // ---------------------------------------------------------------- the chunk stage

  function Least(a: int, b: int): int { if a < b then a else b }

  /** The first ranked lines of a chunk with the sign. */
  function Excerpt(chunk: seq<Line>, sign: char, limit: nat): seq<int>
  {
    RankLines(chunk, sign)[..Least(limit, |RankLines(chunk, sign)|)]
  }

  function IdsOf(chunk: seq<Line>, no: int, indices: seq<int>): set<LineId>
  {
    set i | i in indices && 0 <= i < |chunk| :: (no, chunk[i].index)
  }

  function ChunkIds(chunk: seq<Line>, no: int, limit: nat): set<LineId>
  {
    IdsOf(chunk, no, Excerpt(chunk, '+', limit)) + IdsOf(chunk, no, Excerpt(chunk, '-', limit))
  }

  function Head(rest: seq<Line>, size: nat): seq<Line> { rest[..Least(size, |rest|)] }

  function Tail(rest: seq<Line>, size: nat): seq<Line> { rest[Least(size, |rest|)..] }

  /** The lines selected in all chunks, the first of which has the given number. */
  function SelectedIds(lines: seq<Line>, size: nat, limit: nat, no: int): set<LineId>
    requires size > 0
  {
    if lines == [] then {} else ChunkIds(Head(lines, size), no, limit) + SelectedIds(Tail(lines, size), size, limit, no + 1)
  }

  /** A larger limit selects everything a smaller one selects: strong within medium within light. */
  lemma {:induction false} ProfilesAreNested(lines: seq<Line>, size: nat, limit: nat, larger: nat, no: int)
    requires size > 0 && limit <= larger
    ensures SelectedIds(lines, size, limit, no) <= SelectedIds(lines, size, larger, no)
  {
    if lines != [] {
      ProfilesAreNested(Tail(lines, size), size, limit, larger, no + 1);
      IdsGrow(Head(lines, size), no, limit, larger);
    }
  }

  lemma IdsGrow(chunk: seq<Line>, no: int, limit: nat, larger: nat)
    requires limit <= larger
    ensures ChunkIds(chunk, no, limit) <= ChunkIds(chunk, no, larger)
  {
    ExcerptGrows(chunk, '+', limit, larger);
    ExcerptGrows(chunk, '-', limit, larger);
  }

  lemma ExcerptGrows(chunk: seq<Line>, sign: char, limit: nat, larger: nat)
    requires limit <= larger
    ensures forall i :: i in Excerpt(chunk, sign, limit) ==> i in Excerpt(chunk, sign, larger)
  {
    var a, b := Excerpt(chunk, sign, limit), Excerpt(chunk, sign, larger);
    assert a == b[..|a|];
  }

  /** Lines with the sign that are, or are not, among the chosen. */
  function Count(chunk: seq<Line>, sign: char, chosen: set<int>, want: bool, n: nat): nat
    requires n <= |chunk|
  {
    if n == 0 then 0
    else Count(chunk, sign, chosen, want, n - 1) + if Signed(chunk, sign, n - 1) && (n - 1 in chosen) == want then 1 else 0
  }

  lemma {:induction false} CountsAdd(chunk: seq<Line>, sign: char, chosen: set<int>, n: nat)
    requires n <= |chunk|
    ensures Count(chunk, sign, chosen, true, n) + Count(chunk, sign, chosen, false, n) == |SignedLines(chunk, sign, n)|
  {
    if n > 0 {
      CountsAdd(chunk, sign, chosen, n - 1);
    }
  }

  lemma {:induction false} CountIsSize(chunk: seq<Line>, sign: char, chosen: set<int>, n: nat, s: set<int>)
    requires n <= |chunk| && forall i :: i in s <==> i < n && Signed(chunk, sign, i) && i in chosen
    ensures Count(chunk, sign, chosen, true, n) == |s|
  {
    if n > 0 {
      CountIsSize(chunk, sign, chosen, n - 1, s - {n - 1});
    } else {
      assert forall i :: i !in s;
      assert s == {};
    }
  }

  function ChosenIn(chunk: seq<Line>, limit: nat): set<int>
  {
    (set i | i in Excerpt(chunk, '+', limit)) + set i | i in Excerpt(chunk, '-', limit)
  }

  /** Selected and omitted lines of a chunk are all its changed lines. */
  lemma ChunkConserves(chunk: seq<Line>, sign: char, limit: nat)
    requires sign == '+' || sign == '-'
    ensures |Excerpt(chunk, sign, limit)| + Count(chunk, sign, ChosenIn(chunk, limit), false, |chunk|) == |SignedLines(chunk, sign, |chunk|)|
  {
    EachLineOnce(chunk, '+');
    EachLineOnce(chunk, '-');
    var excerpt := Excerpt(chunk, sign, limit);
    assert forall i :: i in excerpt ==> i in RankLines(chunk, sign);
    SetOfDistinct(excerpt);
    CountsAdd(chunk, sign, ChosenIn(chunk, limit), |chunk|);
    assert forall i :: i in Excerpt(chunk, '+', limit) ==> i in RankLines(chunk, '+');
    assert forall i :: i in Excerpt(chunk, '-', limit) ==> i in RankLines(chunk, '-');
    CountIsSize(chunk, sign, ChosenIn(chunk, limit), |chunk|, set i | i in excerpt);
  }

  function SignedCount(lines: seq<Line>, sign: char): nat { |SignedLines(lines, sign, |lines|)| }

  /** How many lines with the sign are shown: in every chunk all of them, but no more than the limit. */
  function ShownTotal(lines: seq<Line>, size: nat, limit: nat, sign: char): nat
    requires size > 0
  {
    if lines == [] then 0 else Least(limit, SignedCount(Head(lines, size), sign)) + ShownTotal(Tail(lines, size), size, limit, sign)
  }

  lemma ExcerptSize(chunk: seq<Line>, sign: char, limit: nat)
    ensures |Excerpt(chunk, sign, limit)| == Least(limit, SignedCount(chunk, sign))
  {
    EachLineOnce(chunk, sign);
  }

  datatype Totals = Totals(selectedAdded: nat, selectedRemoved: nat, omittedAdded: nat, omittedRemoved: nat)

  /** The omission notes are written whenever a selected or an unchanged line follows. */
  method CountOmitted(chunk: seq<Line>, selected: set<int>) returns (added: nat, removed: nat)
    ensures added == Count(chunk, '+', selected, false, |chunk|) && removed == Count(chunk, '-', selected, false, |chunk|)
  {
    var pendingAdded: nat, pendingRemoved: nat := 0, 0;
    added, removed := 0, 0;
    for index := 0 to |chunk|
      invariant pendingAdded + added == Count(chunk, '+', selected, false, index)
      invariant pendingRemoved + removed == Count(chunk, '-', selected, false, index)
    {
      var text := chunk[index].text;
      if |text| > 0 && (text[0] == '+' || text[0] == '-') && index !in selected {
        if text[0] == '+' {
          pendingAdded := pendingAdded + 1;
        } else {
          pendingRemoved := pendingRemoved + 1;
        }
        continue;
      }
      added, removed := added + pendingAdded, removed + pendingRemoved;
      pendingAdded, pendingRemoved := 0, 0;
    }
    added, removed := added + pendingAdded, removed + pendingRemoved;
  }

  /** One chunk: what is selected, and what the omission notes add up to. */
  method CompressChunk(chunk: seq<Line>, no: int, limit: nat) returns (ids: set<LineId>, t: Totals)
    ensures ids == ChunkIds(chunk, no, limit)
    ensures t.selectedAdded + t.omittedAdded == SignedCount(chunk, '+')
    ensures t.selectedRemoved + t.omittedRemoved == SignedCount(chunk, '-')
    ensures t.selectedAdded == Least(limit, SignedCount(chunk, '+')) && t.selectedRemoved == Least(limit, SignedCount(chunk, '-'))
  {
    var plus := RankSummaryLines(chunk, '+');
    var minus := RankSummaryLines(chunk, '-');
    plus, minus := plus[..Least(limit, |plus|)], minus[..Least(limit, |minus|)];
    ids := IdsOf(chunk, no, plus) + IdsOf(chunk, no, minus);
    var added, removed := CountOmitted(chunk, (set i | i in plus) + set i | i in minus);
    ChunkConserves(chunk, '+', limit);
    ChunkConserves(chunk, '-', limit);
    ExcerptSize(chunk, '+', limit);
    ExcerptSize(chunk, '-', limit);
    t := Totals(|plus|, |minus|, added, removed);
  }

  lemma {:induction false} SignedPrefix(a: seq<Line>, b: seq<Line>, sign: char, n: nat)
    requires n <= |a|
    ensures SignedLines(a + b, sign, n) == SignedLines(a, sign, n)
  {
    if n > 0 {
      SignedPrefix(a, b, sign, n - 1);
      assert (a + b)[n - 1] == a[n - 1];
    }
  }

  lemma {:induction false} SignedConcat(a: seq<Line>, b: seq<Line>, sign: char, n: nat)
    requires n <= |b|
    ensures |SignedLines(a + b, sign, |a| + n)| == |SignedLines(a, sign, |a|)| + |SignedLines(b, sign, n)|
  {
    if n == 0 {
      SignedPrefix(a, b, sign, |a|);
    } else {
      SignedConcat(a, b, sign, n - 1);
      assert (a + b)[|a| + n - 1] == b[n - 1];
    }
  }

  lemma CountStep(rest: seq<Line>, size: nat, sign: char)
    ensures SignedCount(rest, sign) == SignedCount(Head(rest, size), sign) + SignedCount(Tail(rest, size), sign)
  {
    assert rest == Head(rest, size) + Tail(rest, size);
    SignedConcat(Head(rest, size), Tail(rest, size), sign, |Tail(rest, size)|);
  }

  function Sum(t: Totals, u: Totals): Totals
  {
    Totals(t.selectedAdded + u.selectedAdded, t.selectedRemoved + u.selectedRemoved,
           t.omittedAdded + u.omittedAdded, t.omittedRemoved + u.omittedRemoved)
  }

  /** The chunks from offset on are still to come. */
  ghost predicate Compressing(lines: seq<Line>, size: nat, limit: nat, rest: seq<Line>, no: int, ids: set<LineId>, t: Totals)
    requires size > 0
  {
    && ids + SelectedIds(rest, size, limit, no) == SelectedIds(lines, size, limit, 1)
    && t.selectedAdded + t.omittedAdded + SignedCount(rest, '+') == SignedCount(lines, '+')
    && t.selectedRemoved + t.omittedRemoved + SignedCount(rest, '-') == SignedCount(lines, '-')
    && t.selectedAdded + ShownTotal(rest, size, limit, '+') == ShownTotal(lines, size, limit, '+')
    && t.selectedRemoved + ShownTotal(rest, size, limit, '-') == ShownTotal(lines, size, limit, '-')
  }

  lemma Compressed(lines: seq<Line>, size: nat, limit: nat, rest: seq<Line>, no: int, ids: set<LineId>, t: Totals, more: set<LineId>, u: Totals)
    requires size > 0 && rest != [] && Compressing(lines, size, limit, rest, no, ids, t)
    requires more == ChunkIds(Head(rest, size), no, limit)
    requires u.selectedAdded + u.omittedAdded == SignedCount(Head(rest, size), '+')
    requires u.selectedRemoved + u.omittedRemoved == SignedCount(Head(rest, size), '-')
    requires u.selectedAdded == Least(limit, SignedCount(Head(rest, size), '+'))
    requires u.selectedRemoved == Least(limit, SignedCount(Head(rest, size), '-'))
    ensures Compressing(lines, size, limit, Tail(rest, size), no + 1, ids + more, Sum(t, u))
  {
    CountStep(rest, size, '+');
    CountStep(rest, size, '-');
    ShownStep(rest, size, limit, '+');
    ShownStep(rest, size, limit, '-');
    IdsStep(rest, size, limit, no);
    var next := SelectedIds(Tail(rest, size), size, limit, no + 1);
    assert ids + more + next == ids + (more + next);
  }

  lemma ShownStep(rest: seq<Line>, size: nat, limit: nat, sign: char)
    requires size > 0 && rest != []
    ensures ShownTotal(rest, size, limit, sign) == Least(limit, SignedCount(Head(rest, size), sign)) + ShownTotal(Tail(rest, size), size, limit, sign)
  {
  }

  lemma IdsStep(rest: seq<Line>, size: nat, limit: nat, no: int)
    requires size > 0 && rest != []
    ensures SelectedIds(rest, size, limit, no) == ChunkIds(Head(rest, size), no, limit) + SelectedIds(Tail(rest, size), size, limit, no + 1)
  {
  }

  lemma NothingLeft(lines: seq<Line>, size: nat, limit: nat, no: int, ids: set<LineId>, t: Totals)
    requires size > 0 && Compressing(lines, size, limit, [], no, ids, t)
    ensures ids == SelectedIds(lines, size, limit, 1)
    ensures t.selectedAdded + t.omittedAdded == SignedCount(lines, '+') && t.selectedRemoved + t.omittedRemoved == SignedCount(lines, '-')
    ensures t.selectedAdded == ShownTotal(lines, size, limit, '+') && t.selectedRemoved == ShownTotal(lines, size, limit, '-')
  {
    assert SelectedIds([], size, limit, no) == {};
  }

  /** All chunks: nothing is lost, and every changed line is counted as selected or as omitted. */
  method CompressSummaryLines(lines: seq<Line>, size: nat, limit: nat) returns (ids: set<LineId>, t: Totals)
    requires size > 0
    ensures ids == SelectedIds(lines, size, limit, 1)
    ensures t.selectedAdded + t.omittedAdded == SignedCount(lines, '+')
    ensures t.selectedRemoved + t.omittedRemoved == SignedCount(lines, '-')
    ensures t.selectedAdded == ShownTotal(lines, size, limit, '+') && t.selectedRemoved == ShownTotal(lines, size, limit, '-')
  {
    ids, t := {}, Totals(0, 0, 0, 0);
    var offset, no := 0, 1;
    ghost var rest := lines;
    NothingYet(lines, size, limit);
    while offset < |lines|
      invariant 0 <= offset <= |lines| && rest == lines[offset..]
      invariant Compressing(lines, size, limit, rest, no, ids, t)
      decreases |lines| - offset
    {
      var end := Least(offset + size, |lines|);
      ChunkAt(lines, offset, size);
      var more, u := CompressChunk(lines[offset..end], no, limit);
      Compressed(lines, size, limit, rest, no, ids, t, more, u);
      ids, t, rest := ids + more, Sum(t, u), Tail(rest, size);
      offset, no := end, no + 1;
    }
    NothingLeft(lines, size, limit, no, ids, t);
  }

  lemma ChunkAt(lines: seq<Line>, offset: nat, size: nat)
    requires offset <= |lines|
    ensures var end := Least(offset + size, |lines|);
            Head(lines[offset..], size) == lines[offset..end] && Tail(lines[offset..], size) == lines[end..]
  {
  }

  lemma NothingYet(lines: seq<Line>, size: nat, limit: nat)
    requires size > 0
    ensures Compressing(lines, size, limit, lines, 1, {}, Totals(0, 0, 0, 0))
  {
  }

  /** After a hunk stage that was accepted the chunk stage is accepted too, even when no line was left. */
  lemma ChunkStageAccepted(rawDiff: string, digest: string -> string, source: string, size: nat, limit: nat)
    requires |rawDiff| > 0 && Hexadecimal(digest) && size > 0
    requires !OnlyHeaders(rawDiff)
    ensures var first := FileKept(Indexed(rawDiff), |Indexed(rawDiff)|);
            var input := InputOf(HunkKept(first, |first|), digest, source);
            Accepted(rawDiff, Selected(input, SelectedIds(input, size, limit, 1), size, |input|))
  {
    var lines := Indexed(rawDiff);
    var first := FileKept(lines, |lines|);
    var second := HunkKept(first, |first|);
    OnlyHeadersKeepNothing(rawDiff);
    FileStageAccepted(rawDiff);
    HunkKeptIsSubsequence(first, |first|);
    assert first[..|first|] == first;
    SubsequenceKeepsProvenance(lines, second, first);
    if second == [] {
      FallbackIsOneLine(digest, source);
      UnsignedIsDropped(Line(1, 0, Fallback(digest, source)), size, limit);
    } else {
      var ids := SelectedIds(second, size, limit, 1);
      SelectedIsSubsequence(second, ids, size, |second|);
      assert second[..|second|] == second;
      SubsequenceKeepsProvenance(lines, Selected(second, ids, size, |second|), second);
    }
  }

  /** A single line that is no change is never selected. */
  lemma UnsignedIsDropped(line: Line, size: nat, limit: nat)
    requires size > 0 && |line.text| > 0 && line.text[0] != '+' && line.text[0] != '-'
    ensures Selected([line], SelectedIds([line], size, limit, 1), size, 1) == []
  {
    var one := [line];
    EachLineOnce(one, '+');
    EachLineOnce(one, '-');
    assert Head(one, size) == one && Tail(one, size) == [];
    assert SelectedIds([], size, limit, 2) == {};
    assert forall i :: i in Excerpt(one, '+', limit) ==> i in RankLines(one, '+');
    assert forall i :: i in Excerpt(one, '-', limit) ==> i in RankLines(one, '-');
    assert ChunkIds(one, 1, limit) == {};
    assert SelectedIds(one, size, limit, 1) == {};
    assert Selected(one, {}, size, 0) == [];
  }
}
