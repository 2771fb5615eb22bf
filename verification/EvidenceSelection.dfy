/**
 Coalescing and selecting evidence (internal/contextinput/evidence.go:52-204): one actual fact per
 key, the facts that cover something new, and as many of the ranked others as the limit allows.
 */
module EvidenceSelection {
  import opened Evidence
  import Strings
  import Sorting
  import Sequences
  import SpatialOrder
  import Grouping

  // ---------------------------------------------------------------- one fact per key

  /** How facts are identified, what they cover and how useful they are. */
  datatype Scheme = Scheme(key: Fact -> string, cover: Fact -> seq<string>, priority: Fact -> int)

  const SCHEME := Scheme(Key, CoverageKeys, Priority)

  /** By range, and by key within a range. */
  function ByRange(m: Scheme): (Fact, Fact) -> bool
  {
    (v: Fact, w: Fact) =>
      if v.start != w.start then v.start < w.start
      else if v.end != w.end then v.end < w.end
      else Strings.Less(m.key(v), m.key(w))
  }

  ghost function Canonical(m: Scheme, values: seq<Fact>): seq<Fact>
  {
    Sorting.Sort(ByRange(m), Grouping.Coalesced(m.key, Sorting.Sort(ByRange(m), values)))
  }

  method CanonicalEvidence(m: Scheme, values: seq<Fact>) returns (result: seq<Fact>)
    ensures result == Canonical(m, values)
  {
    var ordered := Sorting.Sort(ByRange(m), values);
    result := Grouping.Coalesce(m.key, ordered);
    result := Sorting.Sort(ByRange(m), result);
  }

  /** Every canonical fact is an original one, and every original key has exactly one. */
  lemma CanonicalRepresents(m: Scheme, values: seq<Fact>)
    ensures forall v :: v in Canonical(m, values) ==> v in values
    ensures forall v :: v in values ==> exists w :: w in Canonical(m, values) && m.key(w) == m.key(v)
    ensures Sorting.Apart(m.key, Canonical(m, values))
    ensures values != [] ==> Canonical(m, values) != []
  {
    var ordered := Sorting.Sort(ByRange(m), values);
    var middles := Grouping.Coalesced(m.key, ordered);
    Sorting.SortMembers(ByRange(m), values);
    Grouping.CoalescedRepresents(m.key, ordered);
    Sorting.SortMembers(ByRange(m), middles);
    Sorting.SortApart(ByRange(m), m.key, middles);
    if values != [] {
      assert values[0] in ordered;
    }
  }

  /** The fact that stands for all facts with the key of v: the middle one of them by range. */
  ghost function Middle(m: Scheme, values: seq<Fact>, v: Fact): Fact
    requires v in values
  {
    Sorting.SortMembers(ByRange(m), values);
    Grouping.GroupMembers(m.key, Sorting.Sort(ByRange(m), values), m.key(v));
    Grouping.MiddleOf(m.key, Sorting.Sort(ByRange(m), values), m.key(v))
  }

  lemma CanonicalAre(m: Scheme, values: seq<Fact>, x: Fact)
    ensures x in Canonical(m, values) <==> exists v :: v in values && x == Middle(m, values, v)
  {
    var ordered := Sorting.Sort(ByRange(m), values);
    Sorting.SortMembers(ByRange(m), values);
    Sorting.SortMembers(ByRange(m), Grouping.Coalesced(m.key, ordered));
    Grouping.CoalescedAre(m.key, ordered, x);
    if k :| k in Grouping.Keys(m.key, ordered) && x == Grouping.MiddleOf(m.key, ordered, k) {
      Grouping.GroupMembers(m.key, ordered, k);
      var v := Grouping.Group(m.key, ordered, k)[0];
      assert v in values && x == Middle(m, values, v);
    }
    if v :| v in values && x == Middle(m, values, v) {
      Grouping.GroupMembers(m.key, ordered, m.key(v));
    }
  }

  // ---------------------------------------------------------------- required facts

  /** Everything the facts cover. */
  function CoverageSet(m: Scheme, values: seq<Fact>): set<string> { Grouping.Coverage(m.cover, values) }

  /** The facts that cover something new; one fact at least. */
  function Required(m: Scheme, values: seq<Fact>): seq<int>
  {
    var novel := Grouping.Novel(m.cover, values, |values|);
    if |novel| == 0 && |values| > 0 then [0] else novel
  }

  method RequiredEvidenceIndices(m: Scheme, values: seq<Fact>) returns (indices: seq<int>)
    ensures indices == Required(m, values)
  {
    indices := Grouping.NovelIndices(m.cover, values);
    if |indices| == 0 && |values| > 0 {
      indices := indices + [0];
    }
  }

  lemma RequiredIncreasing(m: Scheme, values: seq<Fact>)
    ensures Sequences.Increasing(Required(m, values), |values|)
    ensures |values| > 0 ==> |Required(m, values)| > 0
  {
    Grouping.NovelIncreasing(m.cover, values, |values|);
  }

  /** The required facts cover everything. */
  lemma RequiredCovers(m: Scheme, values: seq<Fact>, key: string)
    requires key in CoverageSet(m, values)
    ensures exists i :: i in Required(m, values) && 0 <= i < |values| && key in m.cover(values[i])
  {
    assert values[..|values|] == values;
    Grouping.NovelCovers(m.cover, values, |values|, key);
  }

  // ---------------------------------------------------------------- the selection

  function Indices(s: seq<int>): set<int> { set k | k in s }

  function Priorities(m: Scheme, values: seq<Fact>): seq<int> { seq(|values|, i requires 0 <= i < |values| => m.priority(values[i])) }

  function RankTable(count: nat): (ranks: seq<nat>)
    ensures SpatialOrder.IsRankTable(ranks) && |ranks| == count
  {
    seq(count, k requires 0 <= k < count => SpatialOrder.Rank(count, k))
  }

  /** The indices below n outside a set. */
  function Others(n: nat, out: set<int>): seq<int>
  {
    if n == 0 then [] else Others(n - 1, out) + if n - 1 in out then [] else [n - 1]
  }

  function Earlier(m: Scheme, values: seq<Fact>): (int, int) -> bool
  {
    var ranks, priorities := RankTable(|values|), Priorities(m, values);
    (a, b) => SpatialOrder.Sooner(ranks, priorities, a, b)
  }

  /** All other facts, the most useful first; the limit plays no part. */
  function Optional(m: Scheme, values: seq<Fact>): seq<int> { Sorting.Sort(Earlier(m, values), Others(|values|, Indices(Required(m, values)))) }

  lemma {:induction false} OthersMembers(n: nat, out: set<int>)
    ensures forall k :: k in Others(n, out) <==> 0 <= k < n && k !in out
    ensures Sequences.Increasing(Others(n, out), n)
  {
    if n > 0 {
      OthersMembers(n - 1, out);
      Sequences.IncreasingStep(Others(n - 1, out), n - 1);
      assert Others(n - 1, out) + [] == Others(n - 1, out);
    }
  }

  lemma {:induction false} OthersCount(n: nat, out: set<int>)
    requires forall k :: k in out ==> 0 <= k < n
    ensures |Others(n, out)| == n - |out|
  {
    if n > 0 {
      OthersCount(n - 1, out - {n - 1});
      OthersSame(n - 1, out, out - {n - 1});
    } else {
      assert forall k :: k !in out;
      assert out == {};
    }
  }

  lemma {:induction false} OthersSame(n: nat, a: set<int>, b: set<int>)
    requires forall k :: 0 <= k < n ==> (k in a <==> k in b)
    ensures Others(n, a) == Others(n, b)
  {
    if n > 0 {
      OthersSame(n - 1, a, b);
    }
  }

  lemma {:induction false} DistinctSize(s: seq<int>)
    requires forall i, j :: 0 <= i < j < |s| ==> s[i] != s[j]
    ensures |Indices(s)| == |s|
  {
    if s != [] {
      var n := |s| - 1;
      DistinctSize(s[..n]);
      assert s == s[..n] + [s[n]];
      assert Indices(s) == Indices(s[..n]) + {s[n]};
      assert s[n] !in s[..n];
    }
  }

  /** Required and optional indices together are all indices, each once. */
  lemma OptionalMembers(m: Scheme, values: seq<Fact>)
    ensures forall k :: k in Optional(m, values) <==> 0 <= k < |values| && k !in Required(m, values)
    ensures |Optional(m, values)| + |Required(m, values)| == |values|
  {
    var out := Indices(Required(m, values));
    RequiredIncreasing(m, values);
    OthersMembers(|values|, out);
    OthersCount(|values|, out);
    DistinctSize(Required(m, values));
    Sorting.SortMembers(Earlier(m, values), Others(|values|, out));
  }

  /** The ranking goes by waves of the spatial order; priorities only decide inside a wave. */
  lemma OptionalRanked(m: Scheme, values: seq<Fact>)
    ensures Sorting.Ascending(Earlier(m, values), Optional(m, values))
    ensures forall i, j :: 0 <= i < j < |Optional(m, values)| ==> Optional(m, values)[i] != Optional(m, values)[j]
  {
    var others := Others(|values|, Indices(Required(m, values)));
    OthersMembers(|values|, Indices(Required(m, values)));
    SpatialOrder.SoonerIsStrictTotalOrder(RankTable(|values|), Priorities(m, values));
    Sorting.SortAscending(Earlier(m, values), others);
  }

  function Most(a: int, b: int): int { if a < b then b else a }

  /** How many optional facts a limit admits. */
  function Extra(m: Scheme, values: seq<Fact>, limit: int): nat { Most(limit, |Required(m, values)|) - |Required(m, values)| }

  function Prefix(s: seq<int>, n: nat): seq<int> { if n < |s| then s[..n] else s }

  predicate Chosen(m: Scheme, values: seq<Fact>, limit: int, k: int)
  {
    limit >= |values| || k in Required(m, values) || k in Prefix(Optional(m, values), Extra(m, values, limit))
  }

  /** The facts whose index is chosen, in their order. */
  function Filtered(values: seq<Fact>, chosen: int -> bool, n: nat): seq<Fact>
    requires n <= |values|
  {
    if n == 0 then [] else Filtered(values, chosen, n - 1) + if chosen(n - 1) then [values[n - 1]] else []
  }

  function Select(m: Scheme, values: seq<Fact>, limit: int): seq<Fact> { Filtered(values, k => Chosen(m, values, limit, k), |values|) }

  // ---------------------------------------------------------------- the selection step by step

  method RankOptionalEvidence(m: Scheme, values: seq<Fact>, required: seq<int>) returns (optional: seq<int>)
    requires required == Required(m, values)
    ensures optional == Optional(m, values)
  {
    var ranks := SpatialOrder.Ranks(|values|);
    assert ranks == RankTable(|values|);
    var priorities := Priorities(m, values);
    var others: seq<int> := [];
    for index := 0 to |values|
      invariant others == Others(index, Indices(required))
    {
      if index !in required {
        others := others + [index];
      }
    }
    optional := Sorting.Sort((a, b) => SpatialOrder.Sooner(ranks, priorities, a, b), others);
    assert optional == Sorting.Sort(Earlier(m, values), others);
  }

  /** The indices chosen below the full size. */
  method SelectedIndices(m: Scheme, values: seq<Fact>, limit: int) returns (selected: set<int>)
    requires limit < |values|
    ensures forall k :: k in selected <==> Chosen(m, values, limit, k)
  {
    var required := RequiredEvidenceIndices(m, values);
    var atLeast := if limit < |required| then |required| else limit;
    selected := Indices(required);
    RequiredIncreasing(m, values);
    DistinctSize(required);
    OptionalMembers(m, values);
    var remaining := atLeast - |selected|;
    if remaining > 0 {
      var optional := RankOptionalEvidence(m, values, required);
      selected := selected + Indices(optional[..remaining]);
    }
  }

  method SelectEvidence(m: Scheme, values: seq<Fact>, limit: int) returns (result: seq<Fact>)
    ensures result == Select(m, values, limit)
  {
    if limit >= |values| {
      AllFiltered(values, k => Chosen(m, values, limit, k), |values|);
      assert values[..|values|] == values;
      return values;
    }
    var selected := SelectedIndices(m, values, limit);
    result := Pick(values, selected, k => Chosen(m, values, limit, k));
  }

  /** The values with a selected index; chosen names the selection. */
  method Pick(values: seq<Fact>, selected: set<int>, ghost chosen: int -> bool) returns (result: seq<Fact>)
    requires forall k :: k in selected <==> chosen(k)
    ensures result == Filtered(values, chosen, |values|)
  {
    result := [];
    for index := 0 to |values|
      invariant result == Filtered(values, chosen, index)
    {
      if index in selected {
        result := result + [values[index]];
      }
    }
  }

  lemma {:induction false} AllFiltered(values: seq<Fact>, chosen: int -> bool, n: nat)
    requires n <= |values| && forall k :: 0 <= k < n ==> chosen(k)
    ensures Filtered(values, chosen, n) == values[..n]
  {
    if n > 0 {
      AllFiltered(values, chosen, n - 1);
    }
  }

  // ---------------------------------------------------------------- what a selection keeps

  lemma {:induction false} FilteredMembers(values: seq<Fact>, chosen: int -> bool, n: nat, k: int)
    requires n <= |values| && 0 <= k < n && chosen(k)
    ensures values[k] in Filtered(values, chosen, n)
  {
    if k < n - 1 {
      FilteredMembers(values, chosen, n - 1, k);
    }
  }

  lemma {:induction false} FilteredNested(values: seq<Fact>, fewer: int -> bool, more: int -> bool, n: nat)
    requires n <= |values| && forall k :: 0 <= k < n && fewer(k) ==> more(k)
    ensures Sequences.Subsequence(Filtered(values, fewer, n), Filtered(values, more, n))
  {
    if n > 0 {
      FilteredNested(values, fewer, more, n - 1);
      var a, b := Filtered(values, fewer, n - 1), Filtered(values, more, n - 1);
      if fewer(n - 1) {
        Sequences.BothGrow(a, b, [values[n - 1]]);
      } else {
        assert Filtered(values, fewer, n) == a;
        Sequences.OneGrows(a, b, if more(n - 1) then [values[n - 1]] else []);
      }
    }
  }

  lemma {:induction false} FilteredCount(values: seq<Fact>, chosen: int -> bool, n: nat, s: set<int>)
    requires n <= |values| && forall k :: k in s <==> 0 <= k < n && chosen(k)
    ensures |Filtered(values, chosen, n)| == |s|
  {
    if n > 0 {
      FilteredCount(values, chosen, n - 1, s - {n - 1});
    } else {
      assert forall k :: k !in s;
      assert s == {};
    }
  }

  /** A larger limit keeps everything a smaller one keeps. */
  lemma SelectionIsMonotonic(m: Scheme, values: seq<Fact>, limit: int, larger: int)
    requires limit <= larger
    ensures Sequences.Subsequence(Select(m, values, limit), Select(m, values, larger))
  {
    var optional := Optional(m, values);
    forall k | 0 <= k < |values| && Chosen(m, values, limit, k) ensures Chosen(m, values, larger, k) {
      var few, many := Prefix(optional, Extra(m, values, limit)), Prefix(optional, Extra(m, values, larger));
      assert Extra(m, values, limit) <= Extra(m, values, larger);
      assert |few| <= |many| && few == many[..|few|];
    }
    FilteredNested(values, k => Chosen(m, values, limit, k), k => Chosen(m, values, larger, k), |values|);
  }

  lemma ChosenCount(m: Scheme, values: seq<Fact>, limit: int) returns (s: set<int>)
    requires limit < |values|
    ensures forall k :: k in s <==> 0 <= k < |values| && Chosen(m, values, limit, k)
    ensures |s| == Most(limit, |Required(m, values)|)
  {
    RequiredIncreasing(m, values);
    OptionalMembers(m, values);
    OptionalRanked(m, values);
    var prefix := Prefix(Optional(m, values), Extra(m, values, limit));
    DistinctSize(Required(m, values));
    DistinctSize(prefix);
    assert forall k :: k in prefix ==> k in Optional(m, values);
    s := Indices(Required(m, values)) + Indices(prefix);
    assert Indices(Required(m, values)) !! Indices(prefix);
  }

  /** Exactly the limit is kept, but never fewer than the required facts and never more than there are. */
  lemma SelectionSize(m: Scheme, values: seq<Fact>, limit: int)
    ensures |Select(m, values, limit)| == if limit >= |values| then |values| else Most(limit, |Required(m, values)|)
  {
    if limit >= |values| {
      AllFiltered(values, k => Chosen(m, values, limit, k), |values|);
    } else {
      var s := ChosenCount(m, values, limit);
      FilteredCount(values, k => Chosen(m, values, limit, k), |values|, s);
    }
  }

  /** Whatever the limit, the selection covers everything. */
  lemma SelectionCovers(m: Scheme, values: seq<Fact>, limit: int)
    ensures CoverageSet(m, Select(m, values, limit)) == CoverageSet(m, values)
  {
    var chosen := k => Chosen(m, values, limit, k);
    var kept := Select(m, values, limit);
    forall key ensures key in CoverageSet(m, kept) <==> key in CoverageSet(m, values) {
      Grouping.CoverageMembers(m.cover, kept, key);
      Grouping.CoverageMembers(m.cover, values, key);
      FilteredFrom(values, chosen, |values|);
      if key in CoverageSet(m, values) {
        RequiredCovers(m, values, key);
        var i :| i in Required(m, values) && 0 <= i < |values| && key in m.cover(values[i]);
        FilteredMembers(values, chosen, |values|, i);
      }
    }
  }

  lemma {:induction false} FilteredFrom(values: seq<Fact>, chosen: int -> bool, n: nat)
    requires n <= |values|
    ensures forall v :: v in Filtered(values, chosen, n) ==> v in values
  {
    if n > 0 {
      FilteredFrom(values, chosen, n - 1);
    }
  }

  lemma SelectionFrom(m: Scheme, values: seq<Fact>, limit: int)
    ensures forall v :: v in Select(m, values, limit) ==> v in values
    ensures values != [] ==> Select(m, values, limit) != []
  {
    FilteredFrom(values, k => Chosen(m, values, limit, k), |values|);
    SelectionSize(m, values, limit);
    RequiredIncreasing(m, values);
  }

  /** A fact left out never belongs to an earlier wave of the spatial order than an optional one kept. */
  lemma WavesFillInOrder(m: Scheme, values: seq<Fact>, limit: int, kept: int, dropped: int)
    requires 0 <= kept < |values| && Chosen(m, values, limit, kept) && kept !in Required(m, values)
    requires 0 <= dropped < |values| && !Chosen(m, values, limit, dropped)
    ensures SpatialOrder.Rank(|values|, kept) / SpatialOrder.WAVE <= SpatialOrder.Rank(|values|, dropped) / SpatialOrder.WAVE
  {
    var optional := Optional(m, values);
    var prefix := Prefix(optional, Extra(m, values, limit));
    OptionalMembers(m, values);
    OptionalRanked(m, values);
    var i :| 0 <= i < |prefix| && prefix[i] == kept;
    var j :| 0 <= j < |optional| && optional[j] == dropped;
    assert forall m :: 0 <= m < |prefix| ==> prefix[m] in prefix && prefix[m] == optional[m];
    assert i < j;
    assert Earlier(m, values)(optional[i], optional[j]);
  }
}
