/**
 Which lines the compression stages keep, line by line (internal/contextinput/chunk.go:67-216), and in which order
 a chunk's changed lines are worth showing (chunk.go:218-266).
 */
module SummaryContent {
  import opened SummaryRanking
  import opened SummaryStages
  import SpatialRank
  import Grouping
  import Sequences
  import DiffLines

  // ---------------------------------------------------------------- file and hunk stage

  /** A header line, or the old or new name, before the first hunk. */
  predicate IsFileHeader(lines: seq<Line>, i: int)
  {
    && 0 <= i < |lines| && (forall j :: 0 <= j <= i ==> !("@@" <= lines[j].text))
    && var t := lines[i].text; "diff --git " <= t || "index " <= t || "--- " <= t || "+++ " <= t
  }

  predicate IsUnchanged(lines: seq<Line>, i: int) { 0 <= i < |lines| && " " <= lines[i].text }

  /** The kept lines stand at these places among the first n, which are all but the dropped ones. */
  ghost predicate StandAt(lines: seq<Line>, n: nat, kept: seq<Line>, dropped: int -> bool, places: seq<int>)
    requires n <= |lines|
  {
    && Sequences.Increasing(places, n) && |places| == |kept|
    && (forall k :: 0 <= k < |kept| ==> kept[k] == lines[places[k]])
    && forall i :: 0 <= i < n ==> (i in places <==> !dropped(i))
  }

  /** kept is the first n lines, in order, without the dropped ones. */
  ghost predicate KeepsAllBut(lines: seq<Line>, n: nat, kept: seq<Line>, dropped: int -> bool)
    requires n <= |lines|
  {
    exists places :: StandAt(lines, n, kept, dropped, places)
  }

  lemma NothingKeptYet(lines: seq<Line>, dropped: int -> bool)
    ensures KeepsAllBut(lines, 0, [], dropped)
  {
    assert StandAt(lines, 0, [], dropped, []);
  }

  lemma OneMoreLine(lines: seq<Line>, n: nat, kept: seq<Line>, dropped: int -> bool)
    requires n < |lines| && KeepsAllBut(lines, n, kept, dropped)
    ensures KeepsAllBut(lines, n + 1, if dropped(n) then kept else kept + [lines[n]], dropped)
  {
    var places :| StandAt(lines, n, kept, dropped, places);
    if dropped(n) {
      LineDropped(lines, n, kept, dropped, places);
    } else {
      LineKept(lines, n, kept, dropped, places);
    }
  }

  lemma LineDropped(lines: seq<Line>, n: nat, kept: seq<Line>, dropped: int -> bool, places: seq<int>)
    requires n < |lines| && StandAt(lines, n, kept, dropped, places) && dropped(n)
    ensures StandAt(lines, n + 1, kept, dropped, places)
  {
    assert n !in places;
  }

  lemma LineKept(lines: seq<Line>, n: nat, kept: seq<Line>, dropped: int -> bool, places: seq<int>)
    requires n < |lines| && StandAt(lines, n, kept, dropped, places) && !dropped(n)
    ensures StandAt(lines, n + 1, kept + [lines[n]], dropped, places + [n])
  {
    Sequences.IncreasingStep(places, n);
    var more, longer := places + [n], kept + [lines[n]];
    forall k | 0 <= k < |longer| ensures longer[k] == lines[more[k]] {
    }
    forall i | 0 <= i < n + 1 ensures i in more <==> !dropped(i) {
      assert i in more <==> i in places || i == n;
      assert i == n ==> i !in places;
    }
  }

  /** The file stage drops exactly the headers before the first hunk. */
  lemma FileStageKeeps(lines: seq<Line>, n: nat)
    requires n <= |lines|
    ensures KeepsAllBut(lines, n, FileKept(lines, n), i => IsFileHeader(lines, i))
  {
    var dropped := i => IsFileHeader(lines, i);
    NothingKeptYet(lines, dropped);
    for k := 0 to n
      invariant KeepsAllBut(lines, k, FileKept(lines, k), dropped)
    {
      OneMoreLine(lines, k, FileKept(lines, k), dropped);
      FileKeptStep(lines, k);
    }
  }

  lemma FileKeptStep(lines: seq<Line>, k: nat)
    requires k < |lines|
    ensures FileKept(lines, k + 1) == if IsFileHeader(lines, k) then FileKept(lines, k) else FileKept(lines, k) + [lines[k]]
  {
    FileHeaderAt(lines, k);
    assert FileKept(lines, k) + [] == FileKept(lines, k);
  }

  lemma FileHeaderAt(lines: seq<Line>, k: nat)
    requires k < |lines|
    ensures IsFileHeader(lines, k) <==> InHeader(lines, k + 1) && RedundantHeader(lines[k].text)
  {
    assert forall j :: 0 <= j < |lines| ==> (HunkStart(lines[j].text) <==> "@@" <= lines[j].text);
  }

  /** The hunk stage drops exactly the unchanged lines. */
  lemma HunkStageKeeps(lines: seq<Line>, n: nat)
    requires n <= |lines|
    ensures KeepsAllBut(lines, n, HunkKept(lines, n), i => IsUnchanged(lines, i))
  {
    var dropped := i => IsUnchanged(lines, i);
    NothingKeptYet(lines, dropped);
    for k := 0 to n
      invariant KeepsAllBut(lines, k, HunkKept(lines, k), dropped)
    {
      OneMoreLine(lines, k, HunkKept(lines, k), dropped);
      HunkKeptStep(lines, k);
    }
  }

  lemma HunkKeptStep(lines: seq<Line>, k: nat)
    requires k < |lines|
    ensures HunkKept(lines, k + 1) == if IsUnchanged(lines, k) then HunkKept(lines, k) else HunkKept(lines, k) + [lines[k]]
  {
    assert HunkKept(lines, k) + [] == HunkKept(lines, k);
  }

  ghost function HunkStarts(texts: seq<string>, n: nat): set<int>
    requires n <= |texts|
  {
    set i | 0 <= i < n && "@@" <= texts[i]
  }

  /** A line's number is its place, and its hunk is the number of hunk headers up to it. */
  lemma {:induction false} HunksAreCounted(texts: seq<string>, n: nat)
    requires n <= |texts|
    ensures HunkNumber(texts, n) == |HunkStarts(texts, n)|
  {
    if n > 0 {
      HunksAreCounted(texts, n - 1);
      HunkStartsMore(texts, n - 1);
    }
  }

  lemma HunkStartsMore(texts: seq<string>, n: nat)
    requires n < |texts|
    ensures HunkStarts(texts, n + 1) == HunkStarts(texts, n) + if HunkStart(texts[n]) then {n} else {}
    ensures n !in HunkStarts(texts, n)
  {
  }

  lemma IndexedLines(source: string, i: nat)
    requires i < |DiffLines.Lines(source)|
    ensures |Indexed(source)| == |DiffLines.Lines(source)|
    ensures var texts := DiffLines.Lines(source); Indexed(source)[i] == Line(i + 1, |HunkStarts(texts, i + 1)|, texts[i])
  {
    HunksAreCounted(DiffLines.Lines(source), i + 1);
  }

  // ---------------------------------------------------------------- chunk stage

  /** The chunk that begins at offset. */
  function ChunkFrom(lines: seq<Line>, offset: nat, size: nat): seq<Line>
    requires offset <= |lines|
  {
    lines[offset..Least(offset + size, |lines|)]
  }

  /** Among the first ranked added or the first ranked removed lines of its chunk. */
  predicate WorthShowing(chunk: seq<Line>, limit: nat, i: int) { i in Excerpt(chunk, '+', limit) || i in Excerpt(chunk, '-', limit) }

  predicate Numbers(lines: seq<Line>) { forall i, j :: 0 <= i < j < |lines| ==> lines[i].index != lines[j].index }

  lemma IdInChunk(chunk: seq<Line>, no: int, limit: nat, id: LineId)
    ensures id in ChunkIds(chunk, no, limit) <==>
              id.0 == no && exists i :: 0 <= i < |chunk| && chunk[i].index == id.1 && WorthShowing(chunk, limit, i)
  {
    if i :| 0 <= i < |chunk| && chunk[i].index == id.1 && WorthShowing(chunk, limit, i) && id.0 == no {
      assert (no, chunk[i].index) in ChunkIds(chunk, no, limit);
    }
  }

  /** Where chunk k begins. */
  function Start(k: nat, size: nat): nat { if k == 0 then 0 else size + Start(k - 1, size) }

  lemma {:induction false} StartIsProduct(k: nat, size: nat)
    ensures Start(k, size) == k * size
  {
    if k > 0 {
      StartIsProduct(k - 1, size);
      assert k * size == size + (k - 1) * size;
    }
  }

  lemma PlaceInChunk(n: nat, size: nat)
    requires size > 0
    ensures Start(n / size, size) + n % size == n
  {
    StartIsProduct(n / size, size);
    assert n == n / size * size + n % size;
  }

  lemma PlaceBounds(n: nat, size: nat)
    requires size > 0
    ensures Start(n / size, size) <= n < Start(n / size, size) + size
  {
    PlaceInChunk(n, size);
  }

  /** What is taken from every chunk, the first of which has the given number. */
  function Gathered(take: (seq<Line>, int) -> set<LineId>, rest: seq<Line>, size: nat, no: int): set<LineId>
    requires size > 0
  {
    if rest == [] then {} else take(Head(rest, size), no) + Gathered(take, Tail(rest, size), size, no + 1)
  }

  /** From every chunk only IDs with its number are taken. */
  ghost predicate KeepsNumbers(take: (seq<Line>, int) -> set<LineId>)
  {
    forall chunk, no, id :: id in take(chunk, no) ==> id.0 == no
  }

  lemma {:induction false} NumbersGrow(take: (seq<Line>, int) -> set<LineId>, rest: seq<Line>, size: nat, no: int, id: LineId)
    requires size > 0 && KeepsNumbers(take) && id in Gathered(take, rest, size, no)
    ensures id.0 >= no
  {
    if id !in take(Head(rest, size), no) {
      NumbersGrow(take, Tail(rest, size), size, no + 1, id);
    }
  }

  lemma TailFrom(rest: seq<Line>, size: nat, start: nat)
    requires size > 0 && size + start < |rest|
    ensures start < |Tail(rest, size)| && ChunkFrom(Tail(rest, size), start, size) == ChunkFrom(rest, size + start, size)
  {
    assert Tail(rest, size) == rest[size..];
  }

  /** What is taken of chunk k, counted from the rest's first chunk. */
  lemma {:induction false} GatheredOfChunk(take: (seq<Line>, int) -> set<LineId>, rest: seq<Line>, size: nat, no: int, k: nat, id: LineId)
    requires size > 0 && KeepsNumbers(take) && Start(k, size) < |rest| && id.0 == no + k
    ensures id in Gathered(take, rest, size, no) <==> id in take(ChunkFrom(rest, Start(k, size), size), id.0)
    decreases k
  {
    if k == 0 {
      assert ChunkFrom(rest, 0, size) == Head(rest, size);
      if id in Gathered(take, Tail(rest, size), size, no + 1) {
        NumbersGrow(take, Tail(rest, size), size, no + 1, id);
      }
    } else {
      TailFrom(rest, size, Start(k - 1, size));
      GatheredOfChunk(take, Tail(rest, size), size, no + 1, k - 1, id);
    }
  }

  lemma {:induction false} SelectedAreGathered(rest: seq<Line>, size: nat, limit: nat, no: int, take: (seq<Line>, int) -> set<LineId>)
    requires size > 0 && forall chunk, n :: take(chunk, n) == ChunkIds(chunk, n, limit)
    ensures SelectedIds(rest, size, limit, no) == Gathered(take, rest, size, no)
    decreases |rest|
  {
    if rest != [] {
      IdsStep(rest, size, limit, no);
      SelectedAreGathered(Tail(rest, size), size, limit, no + 1, take);
    }
  }

  lemma TakesOwnNumbers(limit: nat, take: (seq<Line>, int) -> set<LineId>)
    requires forall chunk, n :: take(chunk, n) == ChunkIds(chunk, n, limit)
    ensures KeepsNumbers(take)
  {
    forall chunk, no, id | id in take(chunk, no) ensures id.0 == no {
      IdInChunk(chunk, no, limit, id);
    }
  }

  /** What is selected of chunk k. */
  lemma SelectedOfChunk(lines: seq<Line>, size: nat, limit: nat, k: nat, id: LineId)
    requires size > 0 && Start(k, size) < |lines| && id.0 == k + 1
    ensures id in SelectedIds(lines, size, limit, 1) <==> id in ChunkIds(ChunkFrom(lines, Start(k, size), size), id.0, limit)
  {
    var take := (chunk: seq<Line>, n: int) => ChunkIds(chunk, n, limit);
    SelectedAreGathered(lines, size, limit, 1, take);
    TakesOwnNumbers(limit, take);
    GatheredOfChunk(take, lines, size, 1, k, id);
  }

  lemma OneLineOfChunk(chunk: seq<Line>, limit: nat, no: int, i: nat)
    requires i < |chunk| && Numbers(chunk)
    ensures (no, chunk[i].index) in ChunkIds(chunk, no, limit) <==> WorthShowing(chunk, limit, i)
  {
    IdInChunk(chunk, no, limit, (no, chunk[i].index));
  }

  lemma LineOfChunk(lines: seq<Line>, size: nat, start: nat, n: nat)
    requires start <= n < start + size && n < |lines| && Numbers(lines)
    ensures n - start < |ChunkFrom(lines, start, size)| && ChunkFrom(lines, start, size)[n - start] == lines[n]
    ensures Numbers(ChunkFrom(lines, start, size))
  {
  }

  /** Line n of chunk k is selected exactly when it is worth showing there. */
  lemma LineIsSelected(lines: seq<Line>, size: nat, limit: nat, k: nat, n: nat)
    requires size > 0 && Start(k, size) <= n < Start(k, size) + size && n < |lines| && Numbers(lines)
    ensures (k + 1, lines[n].index) in SelectedIds(lines, size, limit, 1) <==> !HiddenIn(lines, size, limit, k, n)
  {
    SelectedOfChunk(lines, size, limit, k, (k + 1, lines[n].index));
    LineOfChunk(lines, size, Start(k, size), n);
    OneLineOfChunk(ChunkFrom(lines, Start(k, size), size), limit, k + 1, n - Start(k, size));
  }

  /** Line n, which is in chunk k, is not worth showing there. */
  predicate HiddenIn(lines: seq<Line>, size: nat, limit: nat, k: nat, n: int)
  {
    0 <= n < |lines| && var start := Start(k, size); start <= n && !WorthShowing(ChunkFrom(lines, start, size), limit, n - start)
  }

  predicate Hidden(lines: seq<Line>, size: nat, limit: nat, n: int)
    requires size > 0
  {
    0 <= n < |lines| && HiddenIn(lines, size, limit, n / size, n)
  }

  /** The chunk stage drops exactly the lines that are not worth showing in their chunk. */
  lemma ChunkStageKeeps(lines: seq<Line>, size: nat, limit: nat, n: nat)
    requires size > 0 && n <= |lines| && Numbers(lines)
    ensures KeepsAllBut(lines, n, Selected(lines, SelectedIds(lines, size, limit, 1), size, n), i => Hidden(lines, size, limit, i))
  {
    var dropped := i => Hidden(lines, size, limit, i);
    var ids := SelectedIds(lines, size, limit, 1);
    NothingKeptYet(lines, dropped);
    for k := 0 to n
      invariant KeepsAllBut(lines, k, Selected(lines, ids, size, k), dropped)
    {
      OneMoreLine(lines, k, Selected(lines, ids, size, k), dropped);
      LineStands(lines, size, limit, k);
      SelectedMore(lines, ids, size, k, dropped(k));
    }
  }

  lemma LineStands(lines: seq<Line>, size: nat, limit: nat, n: nat)
    requires size > 0 && n < |lines| && Numbers(lines)
    ensures (n / size + 1, lines[n].index) in SelectedIds(lines, size, limit, 1) <==> !Hidden(lines, size, limit, n)
  {
    PlaceBounds(n, size);
    LineIsSelected(lines, size, limit, n / size, n);
  }

  lemma SelectedMore(lines: seq<Line>, ids: set<LineId>, size: nat, n: nat, hidden: bool)
    requires size > 0 && n < |lines| && ((n / size + 1, lines[n].index) in ids <==> !hidden)
    ensures Selected(lines, ids, size, n + 1) == if hidden then Selected(lines, ids, size, n) else Selected(lines, ids, size, n) + [lines[n]]
  {
    assert Selected(lines, ids, size, n) + [] == Selected(lines, ids, size, n);
  }

  // ---------------------------------------------------------------- the ranking of a chunk's lines

  /** x comes from an earlier place of its list than y, or from the same place of an earlier list. */
  ghost predicate Sooner(lists: seq<seq<int>>, x: int, y: int)
  {
    exists k, t, l, s :: Entry(lists, x, k, t) && Entry(lists, y, l, s) && (t < s || (t == s && k < l))
  }

  ghost predicate InTurns(lists: seq<seq<int>>, s: seq<int>) { forall i, j :: 0 <= i < j < |s| ==> Sooner(lists, s[i], s[j]) }

  lemma TurnsJoin(lists: seq<seq<int>>, a: seq<int>, b: seq<int>)
    requires InTurns(lists, a) && InTurns(lists, b) && forall x, y :: x in a && y in b ==> Sooner(lists, x, y)
    ensures InTurns(lists, a + b)
  {
    var c := a + b;
    forall i, j | 0 <= i < j < |c| ensures Sooner(lists, c[i], c[j]) {
      assert c[i] == if i < |a| then a[i] else b[i - |a|];
      assert c[j] == if j < |a| then a[j] else b[j - |a|];
    }
  }

  lemma RowInTurns(lists: seq<seq<int>>, d: nat, n: nat)
    requires n <= |lists|
    ensures InTurns(lists, Row(lists, d, n))
  {
    for k := 0 to n
      invariant InTurns(lists, Row(lists, d, k))
    {
      var more := if d < |lists[k]| then [lists[k][d]] else [];
      forall x, y | x in Row(lists, d, k) && y in more ensures Sooner(lists, x, y) {
        RowMembers(lists, d, k, x);
        var j :| j < k && Entry(lists, x, j, d);
        assert Entry(lists, y, k, d);
      }
      TurnsJoin(lists, Row(lists, d, k), more);
      assert Row(lists, d, k + 1) == Row(lists, d, k) + more;
    }
  }

  lemma RoundsInTurns(lists: seq<seq<int>>, d: nat)
    ensures InTurns(lists, Rounds(lists, d))
  {
    for e := 0 to d
      invariant InTurns(lists, Rounds(lists, e))
    {
      RowInTurns(lists, e, |lists|);
      forall x, y | x in Rounds(lists, e) && y in Row(lists, e, |lists|) ensures Sooner(lists, x, y) {
        RoundBeforeRow(lists, e, x, y);
      }
      TurnsJoin(lists, Rounds(lists, e), Row(lists, e, |lists|));
      assert Rounds(lists, e + 1) == Rounds(lists, e) + Row(lists, e, |lists|);
    }
  }

  lemma RoundBeforeRow(lists: seq<seq<int>>, d: nat, x: int, y: int)
    requires x in Rounds(lists, d) && y in Row(lists, d, |lists|)
    ensures Sooner(lists, x, y)
  {
    RoundsMembers(lists, d, x);
    RowMembers(lists, d, |lists|, y);
    var k, t :| t < d && Entry(lists, x, k, t);
    var l :| l < |lists| && Entry(lists, y, l, d);
  }

  /** The lines of one hunk with the sign, in order. */
  ghost predicate IsGroup(chunk: seq<Line>, sign: char, hunk: int, group: seq<int>)
  {
    Sequences.Increasing(group, |chunk|) && forall i :: i in group <==> Signed(chunk, sign, i) && chunk[i].hunk == hunk
  }

  ghost predicate IsHead(chunk: seq<Line>, sign: char, i: int)
  {
    Signed(chunk, sign, i) && forall j :: 0 <= j < i && Signed(chunk, sign, j) ==> chunk[j].hunk != chunk[i].hunk
  }

  /** The first line with the sign of every hunk, in order. */
  ghost predicate IsHeads(chunk: seq<Line>, sign: char, heads: seq<int>)
  {
    Sequences.Increasing(heads, |chunk|) && forall i :: i in heads <==> IsHead(chunk, sign, i)
  }

  /** The group spread out by the numbers of its lines. */
  ghost predicate IsSpread(chunk: seq<Line>, group: seq<int>, list: seq<int>)
  {
    var ranking := SpatialRank.Rank(Positions(chunk, group));
    |list| == |group| == |ranking| && forall t :: 0 <= t < |list| ==> 0 <= ranking[t] < |group| && list[t] == group[ranking[t]]
  }

  ghost predicate SpreadsHunk(chunk: seq<Line>, sign: char, hunk: int, list: seq<int>)
  {
    exists group :: IsGroup(chunk, sign, hunk, group) && IsSpread(chunk, group, list)
  }

  /** One list for every hunk, spread out inside, and the hunks spread out by their first lines. */
  ghost predicate SpreadLists(chunk: seq<Line>, sign: char, heads: seq<int>, lists: seq<seq<int>>)
  {
    var ranking := SpatialRank.Rank(Positions(chunk, heads));
    && IsHeads(chunk, sign, heads) && |lists| == |heads| == |ranking|
    && forall k :: 0 <= k < |lists| ==>
         0 <= ranking[k] < |heads| && 0 <= heads[ranking[k]] < |chunk| && SpreadsHunk(chunk, sign, chunk[heads[ranking[k]]].hunk, lists[k])
  }

  lemma SignedIncrease(chunk: seq<Line>, sign: char, n: nat)
    requires n <= |chunk|
    ensures Sequences.Increasing(SignedLines(chunk, sign, n), n)
  {
    for k := 0 to n
      invariant Sequences.Increasing(SignedLines(chunk, sign, k), k)
    {
      Sequences.IncreasingStep(SignedLines(chunk, sign, k), k);
      assert SignedLines(chunk, sign, k) + [] == SignedLines(chunk, sign, k);
    }
  }

  lemma BeforeLast(s: seq<int>, n: nat)
    requires Sequences.Increasing(s, n) && s != []
    ensures 0 <= s[|s| - 1] < n && Sequences.Increasing(s[..|s| - 1], s[|s| - 1])
  {
  }

  lemma {:induction false} GroupIncreases(f: int -> int, values: seq<int>, key: int, n: nat)
    requires Sequences.Increasing(values, n)
    ensures Sequences.Increasing(Grouping.Group(f, values, key), n)
  {
    if values != [] {
      var last := values[|values| - 1];
      BeforeLast(values, n);
      GroupIncreases(f, values[..|values| - 1], key, last);
      var group := Grouping.Group(f, values[..|values| - 1], key);
      Sequences.IncreasingStep(group, last);
      assert group + [] == group;
    }
  }

  /** The first value of every key, in order. */
  function Firsts(f: int -> int, values: seq<int>): seq<int>
  {
    if values == [] then []
    else
      var init, last := values[..|values| - 1], values[|values| - 1];
      Firsts(f, init) + if f(last) in Grouping.Keys(f, init) then [] else [last]
  }

  lemma {:induction false} FirstsAreHeads(f: int -> int, values: seq<int>)
    ensures |Firsts(f, values)| == |Grouping.Keys(f, values)|
    ensures forall h :: 0 <= h < |Firsts(f, values)| ==>
              var group := Grouping.Group(f, values, Grouping.Keys(f, values)[h]); group != [] && group[0] == Firsts(f, values)[h]
  {
    if values != [] {
      var init, last := values[..|values| - 1], values[|values| - 1];
      FirstsAreHeads(f, init);
      var keys, more := Grouping.Keys(f, init), Grouping.Keys(f, values);
      assert more == if f(last) in keys then keys else keys + [f(last)];
      Grouping.GroupMembers(f, init, f(last));
      forall h | 0 <= h < |more|
        ensures var group := Grouping.Group(f, values, more[h]); group != [] && group[0] == Firsts(f, values)[h]
      {
        assert Grouping.Group(f, values, more[h]) == Grouping.Group(f, init, more[h]) + if f(last) == more[h] then [last] else [];
      }
    }
  }

  lemma {:induction false} FirstsIncrease(f: int -> int, values: seq<int>, n: nat)
    requires Sequences.Increasing(values, n)
    ensures Sequences.Increasing(Firsts(f, values), n)
  {
    if values != [] {
      var last := values[|values| - 1];
      BeforeLast(values, n);
      FirstsIncrease(f, values[..|values| - 1], last);
      var firsts := Firsts(f, values[..|values| - 1]);
      Sequences.IncreasingStep(firsts, last);
      assert firsts + [] == firsts;
    }
  }

  /** No smaller value has its key. */
  ghost predicate IsFirst(f: int -> int, values: seq<int>, x: int) { x in values && forall y :: y in values && y < x ==> f(y) != f(x) }

  lemma {:induction false} FirstsMembers(f: int -> int, values: seq<int>, n: nat, x: int)
    requires Sequences.Increasing(values, n)
    ensures x in Firsts(f, values) <==> IsFirst(f, values, x)
  {
    if values != [] {
      var init, last := values[..|values| - 1], values[|values| - 1];
      BeforeLast(values, n);
      FirstsMembers(f, init, last, x);
      FirstStep(f, init, last, x);
      assert values == init + [last];
    }
  }

  lemma FirstStep(f: int -> int, init: seq<int>, last: int, x: int)
    requires Sequences.Increasing(init, last)
    ensures IsFirst(f, init + [last], x) <==> if x == last then f(last) !in Grouping.Keys(f, init) else IsFirst(f, init, x)
    ensures !IsFirst(f, init, last)
  {
    var values := init + [last];
    assert forall y :: y in values <==> y in init || y == last;
    assert forall y :: y in init ==> y < last;
    KeyOfValue(f, init, f(last));
  }

  lemma {:induction false} KeyOfValue(f: int -> int, values: seq<int>, key: int)
    ensures key in Grouping.Keys(f, values) <==> exists v :: v in values && f(v) == key
  {
    if values != [] {
      var init, last := values[..|values| - 1], values[|values| - 1];
      KeyOfValue(f, init, key);
      assert values == init + [last];
    }
  }

  // ---------------------------------------------------------------- the lists that take turns

  lemma HeadsOfChunk(chunk: seq<Line>, sign: char) returns (heads: seq<int>)
    ensures var signed := SignedLines(chunk, sign, |chunk|);
            && heads == Firsts(HunkOf(chunk), signed) && IsHeads(chunk, sign, heads)
  {
    var signed := SignedLines(chunk, sign, |chunk|);
    heads := Firsts(HunkOf(chunk), signed);
    SignedIncrease(chunk, sign, |chunk|);
    SignedMembers(chunk, sign, |chunk|);
    FirstsIncrease(HunkOf(chunk), signed, |chunk|);
    forall i ensures i in heads <==> IsHead(chunk, sign, i) {
      FirstsMembers(HunkOf(chunk), signed, |chunk|, i);
    }
  }

  lemma SpreadIsSpread(chunk: seq<Line>, group: seq<int>)
    ensures IsSpread(chunk, group, Spread(chunk, group))
  {
    SpatialRank.RankIsGreedyPermutation(Positions(chunk, group));
  }

  lemma GroupIsHunk(chunk: seq<Line>, sign: char, hunk: int)
    ensures IsGroup(chunk, sign, hunk, Grouping.Group(HunkOf(chunk), SignedLines(chunk, sign, |chunk|), hunk))
  {
    var signed := SignedLines(chunk, sign, |chunk|);
    SignedIncrease(chunk, sign, |chunk|);
    SignedMembers(chunk, sign, |chunk|);
    GroupIncreases(HunkOf(chunk), signed, hunk, |chunk|);
    Grouping.GroupMembers(HunkOf(chunk), signed, hunk);
  }

  /** The hunks are ranked by their heads. */
  lemma HunksAreHeads(chunk: seq<Line>, sign: char, heads: seq<int>)
    requires heads == Firsts(HunkOf(chunk), SignedLines(chunk, sign, |chunk|)) && IsHeads(chunk, sign, heads)
    ensures var signed := SignedLines(chunk, sign, |chunk|); var hunks := Grouping.Keys(HunkOf(chunk), signed);
            && |hunks| == |heads| && HunkPositions(chunk, signed, hunks) == Positions(chunk, heads)
            && forall h :: 0 <= h < |heads| ==> 0 <= heads[h] < |chunk| && hunks[h] == chunk[heads[h]].hunk
  {
    var signed := SignedLines(chunk, sign, |chunk|);
    var hunks := Grouping.Keys(HunkOf(chunk), signed);
    FirstsAreHeads(HunkOf(chunk), signed);
    forall h | 0 <= h < |heads|
      ensures 0 <= heads[h] < |chunk| && hunks[h] == chunk[heads[h]].hunk
      ensures FirstPosition(chunk, signed, hunks[h]) == PositionOf(chunk, heads[h])
    {
      GroupIsHunk(chunk, sign, hunks[h]);
      var group := Grouping.Group(HunkOf(chunk), signed, hunks[h]);
      assert group[0] in group && group[0] == heads[h];
    }
  }

  lemma ListSpreadsHunk(chunk: seq<Line>, sign: char, k: int, hunk: int, list: seq<int>)
    requires list == Spread(chunk, Grouping.Group(HunkOf(chunk), SignedLines(chunk, sign, |chunk|), hunk))
    ensures SpreadsHunk(chunk, sign, hunk, list)
  {
    GroupIsHunk(chunk, sign, hunk);
    SpreadIsSpread(chunk, Grouping.Group(HunkOf(chunk), SignedLines(chunk, sign, |chunk|), hunk));
  }

  lemma ListsAreSpread(chunk: seq<Line>, sign: char) returns (heads: seq<int>)
    ensures SpreadLists(chunk, sign, heads, Lists(chunk, sign))
  {
    heads := HeadsOfChunk(chunk, sign);
    var signed := SignedLines(chunk, sign, |chunk|);
    var hunks := Grouping.Keys(HunkOf(chunk), signed);
    HunksAreHeads(chunk, sign, heads);
    SpatialRank.RankIsGreedyPermutation(Positions(chunk, heads));
    var ranking := SpatialRank.Rank(Positions(chunk, heads));
    var lists := Lists(chunk, sign);
    forall k | 0 <= k < |lists| ensures SpreadsHunk(chunk, sign, chunk[heads[ranking[k]]].hunk, lists[k]) {
      ListSpreadsHunk(chunk, sign, k, hunks[ranking[k]], lists[k]);
    }
  }

  /** The ranking lists the changed lines in turns: hunks spread out by their first lines, each spread out inside. */
  ghost predicate TakesTurns(chunk: seq<Line>, sign: char, ranked: seq<int>)
  {
    exists heads, lists :: SpreadLists(chunk, sign, heads, lists) && Table(lists) && InTurns(lists, ranked)
                           && forall x :: x in ranked <==> exists k, t :: Entry(lists, x, k, t)
  }

  lemma RankingTakesTurns(chunk: seq<Line>, sign: char)
    ensures TakesTurns(chunk, sign, RankLines(chunk, sign))
  {
    var heads := ListsAreSpread(chunk, sign);
    var lists := Lists(chunk, sign);
    ListsAreTable(chunk, sign);
    TurnsListAll(lists);
    RoundsInTurns(lists, Longest(lists));
    assert SpreadLists(chunk, sign, heads, lists) && Table(lists) && InTurns(lists, RankLines(chunk, sign));
  }
}
