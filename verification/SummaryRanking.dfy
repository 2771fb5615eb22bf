/**
 Which changed lines of a chunk are worth showing (internal/contextinput/chunk.go:218-299): inside a hunk
 spread out, between hunks in turn.
 */
module SummaryRanking {
  import SpatialRank
  import Grouping
  import Sequences

  // ---------------------------------------------------------------- taking turns

  /** The entries at depth d of the first n lists. */
  function Row(lists: seq<seq<int>>, d: nat, n: nat): seq<int>
    requires n <= |lists|
  {
    if n == 0 then [] else Row(lists, d, n - 1) + if d < |lists[n - 1]| then [lists[n - 1][d]] else []
  }

  /** The first d rounds. */
  function Rounds(lists: seq<seq<int>>, d: nat): seq<int>
  {
    if d == 0 then [] else Rounds(lists, d - 1) + Row(lists, d - 1, |lists|)
  }

  function Longest(lists: seq<seq<int>>): nat
  {
    if lists == [] then 0
    else var rest := Longest(lists[..|lists| - 1]); if |lists[|lists| - 1]| > rest then |lists[|lists| - 1]| else rest
  }

  function TakeTurns(lists: seq<seq<int>>): seq<int> { Rounds(lists, Longest(lists)) }

  ghost predicate Entry(lists: seq<seq<int>>, x: int, k: int, t: int)
  {
    0 <= k < |lists| && 0 <= t < |lists[k]| && lists[k][t] == x
  }

  /** No value occurs twice, in one list or in two. */
  ghost predicate Table(lists: seq<seq<int>>)
  {
    forall x, j, s, k, t :: Entry(lists, x, j, s) && Entry(lists, x, k, t) ==> j == k && s == t
  }

  lemma {:induction false} RowMembers(lists: seq<seq<int>>, d: nat, n: nat, x: int)
    requires n <= |lists|
    ensures x in Row(lists, d, n) <==> exists k :: k < n && Entry(lists, x, k, d)
  {
    if n > 0 {
      RowMembers(lists, d, n - 1, x);
      assert d < |lists[n - 1]| ==> Entry(lists, lists[n - 1][d], n - 1, d);
    }
  }

  ghost predicate Above(lists: seq<seq<int>>, d: int, x: int) { exists k, t :: t < d && Entry(lists, x, k, t) }

  ghost predicate InRow(lists: seq<seq<int>>, d: int, x: int) { exists k :: k < |lists| && Entry(lists, x, k, d) }

  lemma OneDeeper(lists: seq<seq<int>>, d: int, x: int)
    ensures Above(lists, d + 1, x) <==> Above(lists, d, x) || InRow(lists, d, x)
  {
    if Above(lists, d, x) {
      var k, t :| t < d && Entry(lists, x, k, t);
      assert t < d + 1 && Entry(lists, x, k, t);
    }
    if InRow(lists, d, x) {
      var k :| k < |lists| && Entry(lists, x, k, d);
    }
    if Above(lists, d + 1, x) {
      var k, t :| t < d + 1 && Entry(lists, x, k, t);
      assert t < d ==> Above(lists, d, x);
    }
  }

  /** The first d rounds hold x exactly when it is an entry above depth d. */
  ghost predicate RoundsHold(lists: seq<seq<int>>, d: nat, x: int) { x in Rounds(lists, d) <==> Above(lists, d, x) }

  lemma RoundsMembers(lists: seq<seq<int>>, d: nat, x: int)
    ensures RoundsHold(lists, d, x)
  {
    NoneAbove(lists, x);
    for k := 0 to d
      invariant RoundsHold(lists, k, x)
    {
      OneMoreRound(lists, k, x);
    }
  }

  lemma NoneAbove(lists: seq<seq<int>>, x: int)
    ensures RoundsHold(lists, 0, x)
  {
  }

  lemma OneMoreRound(lists: seq<seq<int>>, d: nat, x: int)
    requires RoundsHold(lists, d, x)
    ensures RoundsHold(lists, d + 1, x)
  {
    assert Rounds(lists, d + 1) == Rounds(lists, d) + Row(lists, d, |lists|);
    RowMembers(lists, d, |lists|, x);
    OneDeeper(lists, d, x);
  }

  lemma {:induction false} LongestBounds(lists: seq<seq<int>>)
    ensures forall k :: 0 <= k < |lists| ==> |lists[k]| <= Longest(lists)
  {
    if lists != [] {
      LongestBounds(lists[..|lists| - 1]);
      assert forall k :: 0 <= k < |lists| - 1 ==> lists[..|lists| - 1][k] == lists[k];
    }
  }

  lemma {:induction false} RowDistinct(lists: seq<seq<int>>, d: nat, n: nat)
    requires n <= |lists| && Table(lists)
    ensures Sequences.Distinct(Row(lists, d, n))
  {
    if n > 0 {
      RowDistinct(lists, d, n - 1);
      var row := Row(lists, d, n - 1);
      if d < |lists[n - 1]| {
        var x := lists[n - 1][d];
        RowMembers(lists, d, n - 1, x);
        assert Entry(lists, x, n - 1, d);
        assert x !in row;
        AppendDistinct(row, [x]);
      }
    }
  }

  lemma AppendDistinct(a: seq<int>, b: seq<int>)
    requires Sequences.Distinct(a) && Sequences.Distinct(b) && forall x :: x in b ==> x !in a
    ensures Sequences.Distinct(a + b)
  {
    var c := a + b;
    forall i, j | 0 <= i < j < |c| ensures c[i] != c[j] {
      assert c[i] == if i < |a| then a[i] else b[i - |a|];
      assert c[j] == if j < |a| then a[j] else b[j - |a|];
      assert j >= |a| ==> c[j] in b;
      assert i < |a| ==> c[i] in a;
    }
  }

  /** The entry at depth t comes with the round t, and not earlier. */
  ghost predicate HasDepth(lists: seq<seq<int>>, x: int, t: int)
  {
    forall d {:trigger Above(lists, d, x)} :: Above(lists, d, x) <==> t < d
  }

  lemma EntryHasDepth(lists: seq<seq<int>>, x: int, k: int, t: int)
    requires Table(lists) && Entry(lists, x, k, t)
    ensures HasDepth(lists, x, t)
  {
    forall d ensures Above(lists, d, x) <==> t < d {
      if Above(lists, d, x) {
        var j, s :| s < d && Entry(lists, x, j, s);
        assert j == k && s == t;
      }
    }
  }

  /** The rows have no repeats and nothing in common with earlier ones. */
  ghost predicate RowsApart(lists: seq<seq<int>>)
  {
    && (forall d: nat {:trigger Row(lists, d, |lists|)} :: Sequences.Distinct(Row(lists, d, |lists|)))
    && forall d, x {:trigger InRow(lists, d, x)} :: InRow(lists, d, x) ==> !Above(lists, d, x)
  }

  lemma TableRowsApart(lists: seq<seq<int>>)
    requires Table(lists)
    ensures RowsApart(lists)
  {
    forall d: nat ensures Sequences.Distinct(Row(lists, d, |lists|)) {
      RowDistinct(lists, d, |lists|);
    }
    forall d, x | InRow(lists, d, x) ensures !Above(lists, d, x) {
      var k :| k < |lists| && Entry(lists, x, k, d);
      EntryHasDepth(lists, x, k, d);
    }
  }

  ghost predicate RoundsApart(lists: seq<seq<int>>, d: nat) { Sequences.Distinct(Rounds(lists, d)) }

  lemma RoundsDistinct(lists: seq<seq<int>>, d: nat)
    requires RowsApart(lists)
    ensures RoundsApart(lists, d)
  {
    NoRounds(lists);
    for k := 0 to d
      invariant RoundsApart(lists, k)
    {
      RoundIsDistinct(lists, k);
    }
  }

  lemma NoRounds(lists: seq<seq<int>>)
    ensures RoundsApart(lists, 0)
  {
  }

  lemma RoundIsDistinct(lists: seq<seq<int>>, d: nat)
    requires RowsApart(lists) && RoundsApart(lists, d)
    ensures RoundsApart(lists, d + 1)
  {
    RowIsApart(lists, d);
    AppendDistinct(Rounds(lists, d), Row(lists, d, |lists|));
  }

  lemma RowIsApart(lists: seq<seq<int>>, d: nat)
    requires RowsApart(lists)
    ensures Sequences.Distinct(Row(lists, d, |lists|))
    ensures forall x :: x in Row(lists, d, |lists|) ==> x !in Rounds(lists, d)
  {
    forall x | x in Row(lists, d, |lists|) ensures x !in Rounds(lists, d) {
      RowIsNew(lists, d, x);
    }
  }

  lemma RowIsNew(lists: seq<seq<int>>, d: nat, x: int)
    requires RowsApart(lists) && x in Row(lists, d, |lists|)
    ensures x !in Rounds(lists, d)
  {
    RowMembers(lists, d, |lists|, x);
    assert InRow(lists, d, x);
    RoundsMembers(lists, d, x);
  }

  lemma AllAbove(lists: seq<seq<int>>, x: int)
    ensures Above(lists, Longest(lists), x) <==> exists k, t :: Entry(lists, x, k, t)
  {
    LongestBounds(lists);
    if k, t :| Entry(lists, x, k, t) {
      assert t < Longest(lists);
    }
  }

  /** Taking turns lists every entry once. */
  lemma TurnsListAll(lists: seq<seq<int>>)
    requires Table(lists)
    ensures Sequences.Distinct(TakeTurns(lists))
    ensures forall x :: x in TakeTurns(lists) <==> exists k, t :: Entry(lists, x, k, t)
  {
    TableRowsApart(lists);
    RoundsDistinct(lists, Longest(lists));
    forall x ensures x in TakeTurns(lists) <==> exists k, t :: Entry(lists, x, k, t) {
      AllAbove(lists, x);
      RoundsMembers(lists, Longest(lists), x);
    }
  }

  /** Every list has given its first d entries, and none more than d + 1. */
  ghost predicate Even(lists: seq<seq<int>>, taken: seq<int>, d: nat)
  {
    forall k, t {:trigger lists[k][t]} :: 0 <= k < |lists| && 0 <= t < |lists[k]| ==>
      (t < d ==> lists[k][t] in taken) && (t > d ==> lists[k][t] !in taken)
  }

  /** The prefix ends in round d: what lies above it is taken, what lies below is not. */
  lemma TakenInRound(lists: seq<seq<int>>, d: nat, m: nat, x: int, t: int)
    requires HasDepth(lists, x, t) && |Rounds(lists, d)| <= m <= |Rounds(lists, d + 1)|
    ensures t < d ==> x in Rounds(lists, d + 1)[..m]
    ensures t > d ==> x !in Rounds(lists, d + 1)[..m]
  {
    RoundsMembers(lists, d, x);
    RoundsMembers(lists, d + 1, x);
    PrefixMembers(Rounds(lists, d), Row(lists, d, |lists|), m, x);
  }

  lemma PrefixMembers(a: seq<int>, b: seq<int>, m: nat, x: int)
    requires |a| <= m <= |a + b|
    ensures x in a ==> x in (a + b)[..m]
    ensures x in (a + b)[..m] ==> x in a + b
  {
    assert (a + b)[..m] == a + b[..m - |a|];
  }

  ghost predicate AllHaveDepth(lists: seq<seq<int>>)
  {
    forall k, t {:trigger lists[k][t]} :: 0 <= k < |lists| && 0 <= t < |lists[k]| ==> HasDepth(lists, lists[k][t], t)
  }

  lemma {:induction false} PrefixIsEven(lists: seq<seq<int>>, d: nat, m: nat) returns (depth: nat)
    requires AllHaveDepth(lists) && m <= |Rounds(lists, d)|
    ensures Even(lists, Rounds(lists, d)[..m], depth)
  {
    if d == 0 {
      depth := 0;
    } else if m <= |Rounds(lists, d - 1)| {
      depth := PrefixIsEven(lists, d - 1, m);
      assert Rounds(lists, d)[..m] == Rounds(lists, d - 1)[..m];
    } else {
      depth := d - 1;
      forall k, t | 0 <= k < |lists| && 0 <= t < |lists[k]|
        ensures t < depth ==> lists[k][t] in Rounds(lists, d)[..m]
        ensures t > depth ==> lists[k][t] !in Rounds(lists, d)[..m]
      {
        TakenInRound(lists, depth, m, lists[k][t], t);
      }
    }
  }

  /** In every prefix the lists are even: within one of each other, until one is exhausted. */
  lemma TurnsAreEven(lists: seq<seq<int>>, m: nat)
    requires Table(lists) && m <= |TakeTurns(lists)|
    ensures exists d :: Even(lists, TakeTurns(lists)[..m], d)
  {
    forall k, t | 0 <= k < |lists| && 0 <= t < |lists[k]| ensures HasDepth(lists, lists[k][t], t) {
      EntryHasDepth(lists, lists[k][t], k, t);
    }
    var depth := PrefixIsEven(lists, Longest(lists), m);
  }

  lemma {:induction false} EmptyRow(lists: seq<seq<int>>, d: nat, n: nat)
    requires n <= |lists|
    ensures Row(lists, d, n) == [] <==> forall k :: 0 <= k < n ==> |lists[k]| <= d
  {
    if n > 0 {
      EmptyRow(lists, d, n - 1);
    }
  }

  ghost predicate AllWithin(lists: seq<seq<int>>, d: nat) { forall k :: 0 <= k < |lists| ==> |lists[k]| <= d }

  /** The rounds from d to e add nothing. */
  ghost predicate Ended(lists: seq<seq<int>>, d: nat, e: nat) { Rounds(lists, e) == Rounds(lists, d) }

  lemma NothingDeeper(lists: seq<seq<int>>, d: nat, e: nat)
    requires AllWithin(lists, d) && d <= e && Ended(lists, d, e)
    ensures Ended(lists, d, e + 1)
  {
    EmptyRow(lists, e, |lists|);
    assert Rounds(lists, e) + [] == Rounds(lists, e);
  }

  lemma RoundsEnd(lists: seq<seq<int>>, d: nat, e: nat)
    requires d <= e && AllWithin(lists, d)
    ensures Ended(lists, d, e)
  {
    for k := d to e
      invariant Ended(lists, d, k)
    {
      NothingDeeper(lists, d, k);
    }
  }

  /** One round over all lists. */
  method AddRound(lists: seq<seq<int>>, depth: nat, before: seq<int>) returns (ranked: seq<int>, added: bool)
    ensures ranked == before + Row(lists, depth, |lists|) && (added <==> Row(lists, depth, |lists|) != [])
  {
    ranked, added := before, false;
    for h := 0 to |lists|
      invariant ranked == before + Row(lists, depth, h) && (added <==> Row(lists, depth, h) != [])
    {
      if depth < |lists[h]| {
        ranked := ranked + [lists[h][depth]];
        added := true;
      }
    }
  }

  lemma RoundFound(lists: seq<seq<int>>, depth: nat)
    ensures depth <= Longest(lists) && Row(lists, depth, |lists|) == [] ==> Rounds(lists, depth) == TakeTurns(lists)
    ensures Row(lists, depth, |lists|) != [] ==> depth < Longest(lists)
  {
    EmptyRow(lists, depth, |lists|);
    LongestBounds(lists);
    if depth <= Longest(lists) && Row(lists, depth, |lists|) == [] {
      RoundsEnd(lists, depth, Longest(lists));
    }
  }

  /** Rounds go on until one adds nothing. */
  method InterleaveRounds(lists: seq<seq<int>>) returns (ranked: seq<int>)
    ensures ranked == TakeTurns(lists)
  {
    ranked := [];
    var depth := 0;
    while true
      invariant ranked == Rounds(lists, depth) && depth <= Longest(lists)
      decreases Longest(lists) - depth
    {
      RoundFound(lists, depth);
      var longer, added := AddRound(lists, depth, ranked);
      if !added {
        return;
      }
      ranked, depth := longer, depth + 1;
    }
  }

  // ---------------------------------------------------------------- the lines of a chunk

  datatype Line = Line(index: int, hunk: int, text: string)

  predicate Signed(chunk: seq<Line>, sign: char, i: int) { 0 <= i < |chunk| && |chunk[i].text| > 0 && chunk[i].text[0] == sign }

  /** The indices below n of lines with the sign. */
  function SignedLines(chunk: seq<Line>, sign: char, n: nat): seq<int>
    requires n <= |chunk|
  {
    if n == 0 then [] else SignedLines(chunk, sign, n - 1) + if Signed(chunk, sign, n - 1) then [n - 1] else []
  }

  lemma {:induction false} SignedMembers(chunk: seq<Line>, sign: char, n: nat)
    requires n <= |chunk|
    ensures forall i :: i in SignedLines(chunk, sign, n) <==> i < n && Signed(chunk, sign, i)
    ensures Sequences.Distinct(SignedLines(chunk, sign, n))
  {
    if n > 0 {
      SignedMembers(chunk, sign, n - 1);
      if Signed(chunk, sign, n - 1) {
        AppendDistinct(SignedLines(chunk, sign, n - 1), [n - 1]);
      }
    }
  }

  function HunkOf(chunk: seq<Line>): int -> int { i => if 0 <= i < |chunk| then chunk[i].hunk else 0 }

  function PositionOf(chunk: seq<Line>, i: int): int { if 0 <= i < |chunk| then chunk[i].index else 0 }

  function Positions(chunk: seq<Line>, indices: seq<int>): seq<int>
  {
    seq(|indices|, k requires 0 <= k < |indices| => PositionOf(chunk, indices[k]))
  }

  /** A sequence rearranged by a ranking of its places. */
  function Arranged<T>(s: seq<T>, ranking: seq<int>): seq<T>
    requires SpatialRank.InRange(ranking, |s|)
  {
    seq(|ranking|, k requires 0 <= k < |ranking| => s[ranking[k]])
  }

  /** A group spread out by position. */
  function Spread(chunk: seq<Line>, group: seq<int>): seq<int>
  {
    SpatialRank.RankIsGreedyPermutation(Positions(chunk, group));
    Arranged(group, SpatialRank.Rank(Positions(chunk, group)))
  }

  /** The groups of the given hunks, each spread out. */
  function Spreads(chunk: seq<Line>, signed: seq<int>, hunks: seq<int>): seq<seq<int>>
  {
    seq(|hunks|, k requires 0 <= k < |hunks| => Spread(chunk, Grouping.Group(HunkOf(chunk), signed, hunks[k])))
  }

  function FirstPosition(chunk: seq<Line>, signed: seq<int>, hunk: int): int
  {
    var group := Grouping.Group(HunkOf(chunk), signed, hunk);
    if group == [] then 0 else PositionOf(chunk, group[0])
  }

  function HunkPositions(chunk: seq<Line>, signed: seq<int>, hunks: seq<int>): seq<int>
  {
    seq(|hunks|, k requires 0 <= k < |hunks| => FirstPosition(chunk, signed, hunks[k]))
  }

  /** The spread-out groups, in the ranking of their hunks. */
  function Lists(chunk: seq<Line>, sign: char): seq<seq<int>>
  {
    var signed := SignedLines(chunk, sign, |chunk|);
    var hunks := Grouping.Keys(HunkOf(chunk), signed);
    SpatialRank.RankIsGreedyPermutation(HunkPositions(chunk, signed, hunks));
    Arranged(Spreads(chunk, signed, hunks), SpatialRank.Rank(HunkPositions(chunk, signed, hunks)))
  }

  function RankLines(chunk: seq<Line>, sign: char): seq<int> { TakeTurns(Lists(chunk, sign)) }

  // ---------------------------------------------------------------- every signed line once

  lemma ArrangedPermutes(s: seq<int>, ranking: seq<int>)
    requires SpatialRank.InRange(ranking, |s|) && Sequences.Distinct(ranking) && Sequences.Distinct(s)
    requires forall k :: 0 <= k < |s| ==> k in ranking
    ensures Sequences.Distinct(Arranged(s, ranking)) && forall x :: x in Arranged(s, ranking) <==> x in s
  {
    var a := Arranged(s, ranking);
    forall i, j | 0 <= i < j < |a| ensures a[i] != a[j] {
      assert ranking[i] != ranking[j];
    }
    forall x | x in s ensures x in a {
      var k :| 0 <= k < |s| && s[k] == x;
      assert k in ranking;
      var i :| 0 <= i < |ranking| && ranking[i] == k;
      assert a[i] == x;
    }
  }

  lemma SpreadPermutes(chunk: seq<Line>, group: seq<int>)
    requires Sequences.Distinct(group)
    ensures Sequences.Distinct(Spread(chunk, group)) && forall x :: x in Spread(chunk, group) <==> x in group
  {
    SpatialRank.RankIsGreedyPermutation(Positions(chunk, group));
    ArrangedPermutes(group, SpatialRank.Rank(Positions(chunk, group)));
  }

  lemma {:induction false} GroupDistinct(f: int -> int, values: seq<int>, key: int)
    requires Sequences.Distinct(values)
    ensures Sequences.Distinct(Grouping.Group(f, values, key))
  {
    if values != [] {
      var n := |values| - 1;
      GroupDistinct(f, values[..n], key);
      Grouping.GroupMembers(f, values[..n], key);
      AppendDistinct(Grouping.Group(f, values[..n], key), []);
      if f(values[n]) == key {
        AppendDistinct(Grouping.Group(f, values[..n], key), [values[n]]);
      }
    }
  }

  /** The hunk of the list at place k, and what the list holds. */
  ghost predicate ListOf(chunk: seq<Line>, sign: char, k: int, hunk: int)
  {
    && 0 <= k < |Lists(chunk, sign)| && Sequences.Distinct(Lists(chunk, sign)[k])
    && forall x {:trigger x in Lists(chunk, sign)[k]} :: x in Lists(chunk, sign)[k] <==> Signed(chunk, sign, x) && chunk[x].hunk == hunk
  }

  lemma ListIsHunk(chunk: seq<Line>, sign: char, k: int)
    requires 0 <= k < |Lists(chunk, sign)|
    ensures var signed := SignedLines(chunk, sign, |chunk|); var hunks := Grouping.Keys(HunkOf(chunk), signed);
            var ranking := SpatialRank.Rank(HunkPositions(chunk, signed, hunks));
            && |ranking| == |hunks| == |Lists(chunk, sign)| && 0 <= ranking[k] < |hunks|
            && ListOf(chunk, sign, k, hunks[ranking[k]])
  {
    var signed := SignedLines(chunk, sign, |chunk|);
    var hunks := Grouping.Keys(HunkOf(chunk), signed);
    var positions := HunkPositions(chunk, signed, hunks);
    SpatialRank.RankIsGreedyPermutation(positions);
    var ranking := SpatialRank.Rank(positions);
    var hunk := hunks[ranking[k]];
    var group := Grouping.Group(HunkOf(chunk), signed, hunk);
    assert Lists(chunk, sign)[k] == Spread(chunk, group);
    SignedMembers(chunk, sign, |chunk|);
    GroupDistinct(HunkOf(chunk), signed, hunk);
    Grouping.GroupMembers(HunkOf(chunk), signed, hunk);
    SpreadPermutes(chunk, group);
  }

  lemma HunksOnce(chunk: seq<Line>, sign: char, j: int, k: int, hunk: int)
    requires ListOf(chunk, sign, j, hunk) && ListOf(chunk, sign, k, hunk) && Lists(chunk, sign)[j] != []
    ensures j == k
  {
    var signed := SignedLines(chunk, sign, |chunk|);
    var hunks := Grouping.Keys(HunkOf(chunk), signed);
    var positions := HunkPositions(chunk, signed, hunks);
    ListIsHunk(chunk, sign, j);
    ListIsHunk(chunk, sign, k);
    var ranking := SpatialRank.Rank(positions);
    var x := Lists(chunk, sign)[j][0];
    assert x in Lists(chunk, sign)[j] && x in Lists(chunk, sign)[k];
    assert hunks[ranking[j]] == hunks[ranking[k]] == chunk[x].hunk;
    Grouping.KeysDistinct(HunkOf(chunk), signed);
    SpatialRank.RankIsGreedyPermutation(positions);
  }

  lemma ListsAreTable(chunk: seq<Line>, sign: char)
    ensures Table(Lists(chunk, sign))
    ensures forall x :: (exists k, t :: Entry(Lists(chunk, sign), x, k, t)) <==> Signed(chunk, sign, x)
  {
    var lists := Lists(chunk, sign);
    forall x, j, s, k, t | Entry(lists, x, j, s) && Entry(lists, x, k, t) ensures j == k && s == t {
      ListIsHunk(chunk, sign, j);
      ListIsHunk(chunk, sign, k);
      assert x in lists[j] && x in lists[k];
      HunksOnce(chunk, sign, j, k, chunk[x].hunk);
    }
    forall x ensures (exists k, t :: Entry(lists, x, k, t)) <==> Signed(chunk, sign, x) {
      EntrySigned(chunk, sign, x);
    }
  }

  lemma EntrySigned(chunk: seq<Line>, sign: char, x: int)
    ensures (exists k, t :: Entry(Lists(chunk, sign), x, k, t)) <==> Signed(chunk, sign, x)
  {
    var lists := Lists(chunk, sign);
    if k, t :| Entry(lists, x, k, t) {
      ListIsHunk(chunk, sign, k);
      assert x in lists[k];
    }
    if Signed(chunk, sign, x) {
      var signed := SignedLines(chunk, sign, |chunk|);
      var hunks := Grouping.Keys(HunkOf(chunk), signed);
      var positions := HunkPositions(chunk, signed, hunks);
      SignedMembers(chunk, sign, |chunk|);
      Grouping.GroupMembers(HunkOf(chunk), signed, chunk[x].hunk);
      assert x in Grouping.Group(HunkOf(chunk), signed, chunk[x].hunk);
      var h :| 0 <= h < |hunks| && hunks[h] == chunk[x].hunk;
      SpatialRank.RankIsGreedyPermutation(positions);
      var ranking := SpatialRank.Rank(positions);
      assert h in ranking;
      var k :| 0 <= k < |ranking| && ranking[k] == h;
      ListIsHunk(chunk, sign, k);
      assert x in lists[k];
      var t :| 0 <= t < |lists[k]| && lists[k][t] == x;
      assert Entry(lists, x, k, t);
    }
  }

  /** The ranking lists every line with the sign exactly once. */
  lemma EachLineOnce(chunk: seq<Line>, sign: char)
    ensures Sequences.Distinct(RankLines(chunk, sign))
    ensures forall x :: x in RankLines(chunk, sign) <==> Signed(chunk, sign, x)
    ensures |RankLines(chunk, sign)| == |SignedLines(chunk, sign, |chunk|)|
  {
    ListsAreTable(chunk, sign);
    TurnsListAll(Lists(chunk, sign));
    SignedMembers(chunk, sign, |chunk|);
    forall x ensures x in RankLines(chunk, sign) <==> Signed(chunk, sign, x) {
      assert x in RankLines(chunk, sign) <==> exists k, t :: Entry(Lists(chunk, sign), x, k, t);
    }
    SameMembersSameLength(RankLines(chunk, sign), SignedLines(chunk, sign, |chunk|));
  }

  lemma {:induction false} SetOfDistinct(s: seq<int>)
    requires Sequences.Distinct(s)
    ensures |set x | x in s| == |s|
  {
    if s != [] {
      var n := |s| - 1;
      SetOfDistinct(s[..n]);
      assert s == s[..n] + [s[n]];
      assert (set x | x in s) == (set x | x in s[..n]) + {s[n]};
      assert s[n] !in s[..n];
    }
  }

  lemma SameMembersSameLength(a: seq<int>, b: seq<int>)
    requires Sequences.Distinct(a) && Sequences.Distinct(b) && forall x :: x in a <==> x in b
    ensures |a| == |b|
  {
    SetOfDistinct(a);
    SetOfDistinct(b);
    assert (set x | x in a) == set x | x in b;
  }

  /** In every prefix of the ranking the hunks are within one line of each other until one is exhausted. */
  lemma HunksTakeTurns(chunk: seq<Line>, sign: char, m: nat)
    requires m <= |RankLines(chunk, sign)|
    ensures exists d :: Even(Lists(chunk, sign), RankLines(chunk, sign)[..m], d)
  {
    ListsAreTable(chunk, sign);
    TurnsAreEven(Lists(chunk, sign), m);
  }

  // ---------------------------------------------------------------- the ranking step by step

  method SpreadGroup(chunk: seq<Line>, group: seq<int>) returns (spread: seq<int>)
    ensures spread == Spread(chunk, group)
  {
    var ranking := SpatialRank.SpatialRank(Positions(chunk, group));
    SpatialRank.RankIsGreedyPermutation(Positions(chunk, group));
    spread := [];
    for k := 0 to |ranking|
      invariant spread == Arranged(group, ranking)[..k]
    {
      spread := spread + [group[ranking[k]]];
    }
  }

  method CollectSigned(chunk: seq<Line>, sign: char) returns (signed: seq<int>)
    ensures signed == SignedLines(chunk, sign, |chunk|)
  {
    signed := [];
    for index := 0 to |chunk|
      invariant signed == SignedLines(chunk, sign, index)
    {
      if |chunk[index].text| > 0 && chunk[index].text[0] == sign {
        signed := signed + [index];
      }
    }
  }

  method SpreadGroups(chunk: seq<Line>, signed: seq<int>) returns (spreads: seq<seq<int>>, hunks: seq<int>)
    ensures hunks == Grouping.Keys(HunkOf(chunk), signed) && spreads == Spreads(chunk, signed, hunks)
  {
    var groups;
    groups, hunks := Grouping.Groups(HunkOf(chunk), signed);
    spreads := [];
    for k := 0 to |hunks|
      invariant spreads == Spreads(chunk, signed, hunks)[..k]
    {
      assert hunks[k] in groups;
      var spread := SpreadGroup(chunk, groups[hunks[k]]);
      spreads := spreads + [spread];
    }
    assert spreads == Spreads(chunk, signed, hunks);
  }

  method RankSummaryLines(chunk: seq<Line>, sign: char) returns (ranked: seq<int>)
    ensures ranked == RankLines(chunk, sign)
  {
    var signed := CollectSigned(chunk, sign);
    var spreads, hunks := SpreadGroups(chunk, signed);
    var positions := HunkPositions(chunk, signed, hunks);
    var hunkRank := SpatialRank.SpatialRank(positions);
    SpatialRank.RankIsGreedyPermutation(positions);
    ranked := InterleaveRounds(Arranged(spreads, hunkRank));
  }
}
