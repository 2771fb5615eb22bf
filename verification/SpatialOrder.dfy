/**
 The order in which optional facts are considered (internal/contextinput/evidence.go:122-179): first
 both ends, then the middles of ever smaller intervals; priorities choose inside waves of four.
 */
module SpatialOrder {
  import Sequences
  import Sorting

  datatype Interval = Interval(start: int, end: int)

  function Size(i: Interval): nat { if i.start > i.end then 0 else i.end - i.start + 1 }

  /** Each interval yields at most one middle and two smaller intervals. */
  function Work(queue: seq<Interval>): nat
  {
    if queue == [] then 0 else 2 * Size(queue[0]) + 1 + Work(queue[1..])
  }

  function Middle(i: Interval): int { i.start + (i.end - i.start) / 2 }

  function Halves(i: Interval): seq<Interval> { [Interval(i.start, Middle(i) - 1), Interval(Middle(i) + 1, i.end)] }

  lemma {:induction false} WorkOfConcat(a: seq<Interval>, b: seq<Interval>)
    ensures Work(a + b) == Work(a) + Work(b)
  {
    if a == [] {
      assert a + b == b;
    } else {
      WorkOfConcat(a[1..], b);
      assert (a + b)[1..] == a[1..] + b;
    }
  }

  lemma WorkShrinks(queue: seq<Interval>)
    requires queue != []
    ensures Work(queue[1..]) < Work(queue)
    ensures Size(queue[0]) > 0 ==> Work(queue[1..] + Halves(queue[0])) < Work(queue)
  {
    var halves := Halves(queue[0]);
    WorkOfConcat(queue[1..], halves);
    assert halves[1..] == [halves[1]] && halves[1..][1..] == [];
    assert Work(halves[1..]) == 2 * Size(halves[1]) + 1 + Work(halves[1..][1..]);
    assert Work(halves) == 2 * Size(halves[0]) + 1 + (2 * Size(halves[1]) + 1);
  }

  /** The middles still to come, in the order of the queue. */
  function Spread(queue: seq<Interval>): seq<int>
    decreases Work(queue)
  {
    if queue == [] then []
    else
      WorkShrinks(queue);
      if queue[0].start > queue[0].end then Spread(queue[1..])
      else [Middle(queue[0])] + Spread(queue[1..] + Halves(queue[0]))
  }

  function Order(count: int): seq<int>
  {
    if count <= 0 then [] else if count == 1 then [0] else [0, count - 1] + Spread([Interval(1, count - 2)])
  }

  /** The order found so far and the middles still to come make up the whole order. */
  ghost predicate Pending(order: seq<int>, queue: seq<Interval>, count: int) { order + Spread(queue) == Order(count) }

  lemma SpreadStep(order: seq<int>, queue: seq<Interval>, count: int)
    requires queue != [] && Pending(order, queue, count)
    ensures if queue[0].start > queue[0].end then Pending(order, queue[1..], count)
            else Pending(order + [Middle(queue[0])], queue[1..] + Halves(queue[0]), count)
  {
    if queue[0].start <= queue[0].end {
      var rest := Spread(queue[1..] + Halves(queue[0]));
      assert order + ([Middle(queue[0])] + rest) == order + [Middle(queue[0])] + rest;
    }
  }

  lemma PendingNothing(order: seq<int>, count: int)
    requires Pending(order, [], count)
    ensures order == Order(count)
  {
    assert order + [] == order;
  }

  /** One round: the first interval gives its middle and both halves, or nothing. */
  method Split(order: seq<int>, queue: seq<Interval>, ghost count: int) returns (longer: seq<int>, rest: seq<Interval>)
    requires queue != [] && Pending(order, queue, count)
    ensures Pending(longer, rest, count) && Work(rest) < Work(queue)
  {
    WorkShrinks(queue);
    SpreadStep(order, queue, count);
    var current := queue[0];
    longer, rest := order, queue[1..];
    if current.start <= current.end {
      var middle := current.start + (current.end - current.start) / 2;
      longer := order + [middle];
      rest := rest + [Interval(current.start, middle - 1), Interval(middle + 1, current.end)];
    }
  }

  method SpatialEvidenceOrder(count: int) returns (order: seq<int>)
    ensures order == Order(count)
  {
    if count <= 0 {
      return [];
    }
    order := [0];
    if count == 1 {
      return;
    }
    order := order + [count - 1];
    var queue := [Interval(1, count - 2)];
    while |queue| > 0
      invariant Pending(order, queue, count)
      decreases Work(queue)
    {
      order, queue := Split(order, queue, count);
    }
    PendingNothing(order, count);
  }

  // ---------------------------------------------------------------- the order is a permutation

  predicate Within(i: Interval, k: int) { i.start <= k <= i.end }

  function Points(i: Interval): set<int> { set k | i.start <= k <= i.end && Within(i, k) }

  function Union(queue: seq<Interval>): set<int>
  {
    if queue == [] then {} else Points(queue[0]) + Union(queue[1..])
  }

  /** The intervals do not overlap. */
  ghost predicate Separate(queue: seq<Interval>)
  {
    queue == [] || (Points(queue[0]) !! Union(queue[1..]) && Separate(queue[1..]))
  }

  lemma {:induction false} UnionOfConcat(a: seq<Interval>, b: seq<Interval>)
    ensures Union(a + b) == Union(a) + Union(b)
    ensures Separate(a + b) <==> Separate(a) && Separate(b) && Union(a) !! Union(b)
  {
    if a == [] {
      assert a + b == b;
    } else {
      UnionOfConcat(a[1..], b);
      assert (a + b)[1..] == a[1..] + b;
    }
  }

  lemma SplitAtMiddle(i: Interval)
    requires i.start <= i.end
    ensures Union(Halves(i)) == Points(i) - {Middle(i)} && Separate(Halves(i)) && Middle(i) in Points(i)
  {
    var h := Halves(i);
    assert h[1..] == [h[1]] && h[1..][1..] == [];
    assert Union([]) == {};
    assert Union(h[1..]) == Points(h[1]);
    assert Union(h) == Points(h[0]) + Points(h[1]);
  }

  lemma {:induction false} SpreadCovers(queue: seq<Interval>)
    requires Separate(queue)
    ensures Sequences.Distinct(Spread(queue))
    ensures forall k :: k in Spread(queue) <==> k in Union(queue)
    decreases Work(queue)
  {
    if queue != [] {
      WorkShrinks(queue);
      if queue[0].start > queue[0].end {
        SpreadCovers(queue[1..]);
      } else {
        var halves := Halves(queue[0]);
        SplitAtMiddle(queue[0]);
        UnionOfConcat(queue[1..], halves);
        SpreadCovers(queue[1..] + halves);
        var rest := Spread(queue[1..] + halves);
        assert Spread(queue) == [Middle(queue[0])] + rest;
      }
    }
  }

  /** Every index below count occurs exactly once, starting with both ends. */
  lemma OrderIsPermutation(count: int)
    ensures Sequences.Distinct(Order(count))
    ensures forall k :: k in Order(count) <==> 0 <= k < count
    ensures count > 1 ==> |Order(count)| >= 2 && Order(count)[0] == 0 && Order(count)[1] == count - 1
  {
    if count > 1 {
      var inner := [Interval(1, count - 2)];
      assert inner[1..] == [];
      assert Union([]) == {} && Separate([]);
      assert Union(inner) == Points(inner[0]);
      SpreadCovers(inner);
      var rest := Spread(inner);
      var order := Order(count);
      assert order == [0, count - 1] + rest;
      assert forall k :: k in order <==> k == 0 || k == count - 1 || k in rest;
      assert forall k :: k in rest <==> Within(inner[0], k);
      forall i, j | 0 <= i < j < |order| ensures order[i] != order[j] {
        assert order[j] == if j == 1 then count - 1 else rest[j - 2];
        assert j >= 2 ==> order[j] in rest;
        assert i >= 2 ==> order[i] == rest[i - 2];
      }
    }
  }

  lemma {:induction false} DistinctLength(s: seq<int>, n: nat)
    requires Sequences.Distinct(s) && forall k :: k in s <==> 0 <= k < n
    ensures |s| == n
  {
    if n > 0 {
      assert n - 1 in s;
      var i :| 0 <= i < |s| && s[i] == n - 1;
      var t := s[..i] + s[i + 1..];
      WithoutOne(s, i);
      forall k ensures k in t <==> 0 <= k < n - 1 {
        assert k in t <==> k in s && k != n - 1;
      }
      DistinctLength(t, n - 1);
    } else {
      FirstIsMember(s);
    }
  }

  lemma FirstIsMember(s: seq<int>)
    ensures |s| == 0 || s[0] in s
  {
  }

  lemma WithoutOne(s: seq<int>, i: nat)
    requires Sequences.Distinct(s) && i < |s|
    ensures Sequences.Distinct(s[..i] + s[i + 1..]) && forall k :: k in s[..i] + s[i + 1..] <==> k in s && k != s[i]
  {
    var t := s[..i] + s[i + 1..];
    assert forall j :: 0 <= j < |t| ==> t[j] == if j < i then s[j] else s[j + 1];
    forall k | k in s && k != s[i] ensures k in t {
      var j :| 0 <= j < |s| && s[j] == k;
      assert t[if j < i then j else j - 1] == k;
    }
  }

  // ---------------------------------------------------------------- ranks and waves

  const WAVE := 4

  /** The position of an index in the spatial order. */
  function Rank(count: int, k: int): nat
    requires 0 <= k < count
  {
    OrderIsPermutation(count);
    Position(Order(count), k)
  }

  function Position(s: seq<int>, k: int): (i: nat)
    requires k in s
    ensures i < |s| && s[i] == k
  {
    if s[0] == k then 0 else 1 + Position(s[1..], k)
  }

  /** The rank table: the position of every index, filled in one pass over the order. */
  method Ranks(count: nat) returns (ranks: seq<nat>)
    ensures |ranks| == count
    ensures forall k :: 0 <= k < count ==> ranks[k] == Rank(count, k)
  {
    var order := SpatialEvidenceOrder(count);
    OrderIsPermutation(count);
    DistinctLength(order, count);
    assert forall r :: 0 <= r < count ==> order[r] in order;
    ranks := seq(count, _ => 0);
    for rank := 0 to |order|
      invariant |ranks| == count
      invariant forall r :: 0 <= r < rank ==> ranks[order[r]] == r
    {
      ranks := ranks[order[rank] := rank];
    }
    forall k | 0 <= k < count ensures ranks[k] == Rank(count, k) {
      var r := Rank(count, k);
      assert order[r] == k;
    }
  }

  function RankOf(ranks: seq<nat>, k: int): int { if 0 <= k < |ranks| then ranks[k] else k }

  function PriorityOf(priorities: seq<int>, k: int): int { if 0 <= k < |priorities| then priorities[k] else 0 }

  /** Which of two optional indices comes first: by wave, then by priority, then by rank. */
  predicate Sooner(ranks: seq<nat>, priorities: seq<int>, a: int, b: int)
  {
    var x, y := RankOf(ranks, a), RankOf(ranks, b);
    if x / WAVE != y / WAVE then x / WAVE < y / WAVE
    else if PriorityOf(priorities, a) != PriorityOf(priorities, b) then PriorityOf(priorities, a) > PriorityOf(priorities, b)
    else x < y
  }

  ghost predicate IsRankTable(ranks: seq<nat>) { forall k :: 0 <= k < |ranks| ==> ranks[k] == Rank(|ranks|, k) }

  lemma RanksAreInjective(ranks: seq<nat>, a: int, b: int)
    requires IsRankTable(ranks) && RankOf(ranks, a) == RankOf(ranks, b)
    ensures a == b
  {
    OrderIsPermutation(|ranks|);
    DistinctLength(Order(|ranks|), |ranks|);
  }

  lemma SoonerIsStrictTotalOrder(ranks: seq<nat>, priorities: seq<int>)
    requires IsRankTable(ranks)
    ensures Sorting.StrictTotalOrder((a, b) => Sooner(ranks, priorities, a, b))
  {
    forall a, b ensures Sooner(ranks, priorities, a, b) || a == b || Sooner(ranks, priorities, b, a) {
      if RankOf(ranks, a) == RankOf(ranks, b) {
        RanksAreInjective(ranks, a, b);
      }
    }
  }
}
