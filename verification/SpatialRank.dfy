/**
 Ranking positions so that every prefix spreads out (internal/contextinput/chunk.go:268-299): both ends
 first, then always a point as far as possible from those already ranked.
 */
module SpatialRank {
  import Sequences

  function Absolute(x: int): nat { if x < 0 then -x else x }

  function Least(a: nat, b: nat): nat { if a < b then a else b }

  predicate InRange(s: seq<int>, n: int) { forall i :: 0 <= i < |s| ==> 0 <= s[i] < n }

  /** How far a point is from the nearest of the ranked ones. */
  function Nearest(positions: seq<int>, ranked: seq<int>, c: int): nat
    requires ranked != [] && InRange(ranked, |positions|) && 0 <= c < |positions|
  {
    var d := Absolute(positions[c] - positions[ranked[|ranked| - 1]]);
    if |ranked| == 1 then d else Least(Nearest(positions, ranked[..|ranked| - 1], c), d)
  }

  lemma {:induction false} NearestIsLeast(positions: seq<int>, ranked: seq<int>, c: int)
    requires ranked != [] && InRange(ranked, |positions|) && 0 <= c < |positions|
    ensures exists i :: 0 <= i < |ranked| && Nearest(positions, ranked, c) == Absolute(positions[c] - positions[ranked[i]])
    ensures forall i :: 0 <= i < |ranked| ==> Nearest(positions, ranked, c) <= Absolute(positions[c] - positions[ranked[i]])
  {
    var n := |ranked| - 1;
    assert n == 0 ==> Nearest(positions, ranked, c) == Absolute(positions[c] - positions[ranked[0]]);
    if n > 0 {
      var init := ranked[..n];
      assert forall j :: 0 <= j < n ==> init[j] == ranked[j];
      NearestIsLeast(positions, init, c);
      var i :| 0 <= i < n && Nearest(positions, init, c) == Absolute(positions[c] - positions[init[i]]);
      assert Nearest(positions, init, c) == Absolute(positions[c] - positions[ranked[i]]);
      var near := Nearest(positions, ranked, c);
      assert near == Absolute(positions[c] - positions[ranked[i]]) || near == Absolute(positions[c] - positions[ranked[n]]);
    }
  }

  /** Farther from the ranked points, or as far and at a smaller position. */
  predicate Better(positions: seq<int>, ranked: seq<int>, a: int, b: int)
    requires ranked != [] && InRange(ranked, |positions|) && 0 <= a < |positions| && 0 <= b < |positions|
  {
    var x, y := Nearest(positions, ranked, a), Nearest(positions, ranked, b);
    x > y || (x == y && positions[a] < positions[b])
  }

  /** The best unranked point below n, the first of equals; -1 if there is none. */
  function Best(positions: seq<int>, ranked: seq<int>, n: nat): (best: int)
    requires ranked != [] && InRange(ranked, |positions|) && n <= |positions|
    ensures -1 <= best < n && (best >= 0 ==> best !in ranked)
  {
    if n == 0 then -1
    else
      var best := Best(positions, ranked, n - 1);
      if n - 1 in ranked then best
      else if best < 0 || Better(positions, ranked, n - 1, best) then n - 1
      else best
  }

  /** At least as far from the ranked points; of equally far ones at no greater position, and of equal ones no later. */
  predicate Ahead(positions: seq<int>, ranked: seq<int>, a: int, b: int)
    requires ranked != [] && InRange(ranked, |positions|) && 0 <= a < |positions| && 0 <= b < |positions|
  {
    var x, y := Nearest(positions, ranked, a), Nearest(positions, ranked, b);
    x >= y && (x == y ==> positions[a] <= positions[b] && (positions[a] == positions[b] ==> a <= b))
  }

  lemma {:induction false} BestIsFarthest(positions: seq<int>, ranked: seq<int>, n: nat, c: int)
    requires ranked != [] && InRange(ranked, |positions|) && n <= |positions| && 0 <= c < n && c !in ranked
    ensures Best(positions, ranked, n) >= 0
    ensures Ahead(positions, ranked, Best(positions, ranked, n), c)
  {
    if c < n - 1 {
      BestIsFarthest(positions, ranked, n - 1, c);
    }
  }

  /** The ranking goes on until every point is ranked. */
  function Extend(positions: seq<int>, ranked: seq<int>): seq<int>
    requires ranked != [] && InRange(ranked, |positions|) && Sequences.Distinct(ranked)
    decreases |positions| - |ranked|
  {
    if |ranked| >= |positions| then ranked
    else
      var best := Best(positions, ranked, |positions|);
      SomePointLeft(positions, ranked);
      Extend(positions, ranked + [best])
  }

  function Rank(positions: seq<int>): seq<int>
  {
    if positions == [] then []
    else if |positions| == 1 then [0]
    else Extend(positions, [0, |positions| - 1])
  }

  lemma {:induction false} RepeatFreeCount(s: seq<int>, n: nat)
    requires Sequences.Distinct(s) && InRange(s, n)
    ensures |s| <= n
    ensures |s| == n ==> forall k :: 0 <= k < n ==> k in s
  {
    if n > 0 {
      if i :| 0 <= i < |s| && s[i] == n - 1 {
        var t := s[..i] + s[i + 1..];
        assert forall k :: 0 <= k < |t| ==> t[k] in s && t[k] != n - 1;
        assert Sequences.Distinct(t) && InRange(t, n - 1);
        RepeatFreeCount(t, n - 1);
        assert forall k :: k in t ==> k in s;
      } else {
        assert InRange(s, n - 1);
        RepeatFreeCount(s, n - 1);
      }
    } else if s != [] {
      Sequences.HasFirst(s);
    }
  }

  lemma SomePointLeft(positions: seq<int>, ranked: seq<int>)
    requires ranked != [] && InRange(ranked, |positions|) && Sequences.Distinct(ranked) && |ranked| < |positions|
    ensures Best(positions, ranked, |positions|) >= 0
  {
    if forall k :: 0 <= k < |positions| ==> k in ranked {
      AllRanked(ranked, |positions|);
    } else {
      var k :| 0 <= k < |positions| && k !in ranked;
      BestIsFarthest(positions, ranked, |positions|, k);
    }
  }

  lemma {:induction false} AllRanked(s: seq<int>, n: nat)
    requires Sequences.Distinct(s) && forall k :: 0 <= k < n ==> k in s
    ensures |s| >= n
  {
    if n > 0 {
      assert n - 1 in s;
      var i :| 0 <= i < |s| && s[i] == n - 1;
      var t := s[..i] + s[i + 1..];
      forall k | 0 <= k < n - 1 ensures k in t {
        assert k in s;
        var j :| 0 <= j < |s| && s[j] == k;
        assert j < i ==> t[j] == k;
        assert j > i ==> t[j - 1] == k;
      }
      AllRanked(t, n - 1);
    }
  }

  /** Every step takes the point that is farthest from those taken before; of equally far ones the first. */
  ghost predicate Greedy(positions: seq<int>, ranked: seq<int>, from: nat)
    requires InRange(ranked, |positions|)
  {
    forall k, c :: 0 < from <= k < |ranked| && 0 <= c < |positions| && c !in ranked[..k] ==>
      Ahead(positions, ranked[..k], ranked[k], c)
  }

  lemma {:induction false} ExtendIsGreedy(positions: seq<int>, ranked: seq<int>)
    requires |ranked| >= 2 && InRange(ranked, |positions|) && Sequences.Distinct(ranked) && Greedy(positions, ranked, 2)
    ensures var r := Extend(positions, ranked);
            |r| == |positions| && Sequences.Distinct(r) && InRange(r, |positions|) && ranked <= r && Greedy(positions, r, 2)
    decreases |positions| - |ranked|
  {
    RepeatFreeCount(ranked, |positions|);
    if |ranked| < |positions| {
      SomePointLeft(positions, ranked);
      var best := Best(positions, ranked, |positions|);
      var more := ranked + [best];
      assert more[..|ranked|] == ranked;
      forall k, c | 2 <= k < |more| && 0 <= c < |positions| && c !in more[..k]
        ensures Ahead(positions, more[..k], more[k], c)
      {
        if k < |ranked| {
          assert more[..k] == ranked[..k] && more[k] == ranked[k];
        } else {
          BestIsFarthest(positions, ranked, |positions|, c);
        }
      }
      ExtendIsGreedy(positions, more);
    }
  }

  /** The ranking is a permutation that begins with both ends and is greedy from then on. */
  lemma RankIsGreedyPermutation(positions: seq<int>)
    ensures var r := Rank(positions);
            && |r| == |positions| && Sequences.Distinct(r) && InRange(r, |positions|) && (forall k :: 0 <= k < |positions| ==> k in r)
            && (|positions| > 0 ==> r[0] == 0) && (|positions| > 1 ==> r[1] == |positions| - 1) && Greedy(positions, r, 2)
  {
    if |positions| > 1 {
      ExtendIsGreedy(positions, [0, |positions| - 1]);
    }
    RepeatFreeCount(Rank(positions), |positions|);
  }

  // ---------------------------------------------------------------- the loops

  method NearestSelected(positions: seq<int>, selected: seq<bool>, ghost ranked: seq<int>, c: nat) returns (distance: nat)
    requires |selected| == |positions| && c < |positions| && ranked != [] && InRange(ranked, |positions|)
    requires forall k :: 0 <= k < |selected| ==> (selected[k] <==> k in ranked)
    ensures distance == Nearest(positions, ranked, c)
  {
    NearestIsLeast(positions, ranked, c);
    ghost var nearest := Nearest(positions, ranked, c);
    ghost var at :| 0 <= at < |ranked| && nearest == Absolute(positions[c] - positions[ranked[at]]);
    var found := false;
    distance := 0;
    for chosen := 0 to |positions|
      invariant !found ==> forall k :: 0 <= k < chosen ==> !selected[k]
      invariant found ==> distance >= nearest
      invariant ranked[at] < chosen ==> found && distance == nearest
    {
      if selected[chosen] {
        ghost var i :| 0 <= i < |ranked| && ranked[i] == chosen;
        var d := Absolute(positions[c] - positions[chosen]);
        distance := if found then Least(distance, d) else d;
        found := true;
      }
    }
    assert selected[ranked[at]];
  }

  /** The candidate farthest from the selected points. */
  method Farthest(positions: seq<int>, selected: seq<bool>, ghost ranked: seq<int>) returns (best: int)
    requires InRange(ranked, |positions|) && ranked != [] && |selected| == |positions|
    requires forall k :: 0 <= k < |selected| ==> (selected[k] <==> k in ranked)
    ensures best == Best(positions, ranked, |positions|)
  {
    var bestDistance: int := -1;
    best := -1;
    for candidate := 0 to |positions|
      invariant best == Best(positions, ranked, candidate)
      invariant bestDistance == if best < 0 then -1 else Nearest(positions, ranked, best)
    {
      if selected[candidate] {
        continue;
      }
      var distance := NearestSelected(positions, selected, ranked, candidate);
      if distance > bestDistance || (distance == bestDistance && positions[candidate] < positions[best]) {
        best, bestDistance := candidate, distance;
      }
    }
  }

  method SpatialRank(positions: seq<int>) returns (ranked: seq<int>)
    ensures ranked == Rank(positions)
  {
    if |positions| == 0 {
      return [];
    }
    var selected := seq(|positions|, _ => false);
    ranked := [0];
    selected := selected[0 := true];
    if |positions| > 1 {
      ranked := ranked + [|positions| - 1];
      selected := selected[|positions| - 1 := true];
      assert ranked == [0, |positions| - 1];
    }
    while |ranked| < |positions|
      invariant InRange(ranked, |positions|) && Sequences.Distinct(ranked) && ranked != [] && |selected| == |positions|
      invariant forall k :: 0 <= k < |selected| ==> (selected[k] <==> k in ranked)
      invariant (if |positions| == 1 then ranked else Extend(positions, ranked)) == Rank(positions)
      decreases |positions| - |ranked|
    {
      var best := Farthest(positions, selected, ranked);
      SomePointLeft(positions, ranked);
      selected := selected[best := true];
      ranked := ranked + [best];
    }
  }
}
