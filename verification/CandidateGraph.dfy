/**
 Candidate components of changed files and the pairs they save (internal/relation/graph.go:261-328).
 */
module CandidateGraph {
  import Sorting
  import Sequences
  import Driver

  // ---------------------------------------------------------------- connection

  ghost predicate Adjacent<T>(edges: seq<(T, T)>, a: T, b: T) { (a, b) in edges || (b, a) in edges }

  ghost predicate Walk<T>(edges: seq<(T, T)>, p: seq<T>)
  {
    p != [] && forall i :: 0 <= i < |p| - 1 ==> Adjacent(edges, p[i], p[i + 1])
  }

  ghost predicate WalkFrom<T>(edges: seq<(T, T)>, p: seq<T>, a: T, b: T) { Walk(edges, p) && p[0] == a && p[|p| - 1] == b }

  /** An undirected path leads from a to b. */
  ghost predicate Connected<T(!new)>(edges: seq<(T, T)>, a: T, b: T) { exists p :: WalkFrom(edges, p, a, b) }

  lemma ConnectedToItself<T(!new)>(edges: seq<(T, T)>, a: T)
    ensures Connected(edges, a, a)
  {
    assert WalkFrom(edges, [a], a, a);
  }

  lemma ConnectedStep<T(!new)>(edges: seq<(T, T)>, a: T, b: T, c: T)
    requires Connected(edges, a, b) && Adjacent(edges, b, c)
    ensures Connected(edges, a, c)
  {
    var p :| WalkFrom(edges, p, a, b);
    assert WalkFrom(edges, p + [c], a, c);
  }

  function Reversed<T>(p: seq<T>): seq<T> { seq(|p|, i requires 0 <= i < |p| => p[|p| - 1 - i]) }

  lemma ConnectedBack<T(!new)>(edges: seq<(T, T)>, a: T, b: T)
    requires Connected(edges, a, b)
    ensures Connected(edges, b, a)
  {
    var p :| WalkFrom(edges, p, a, b);
    var q := Reversed(p);
    forall i | 0 <= i < |q| - 1 ensures Adjacent(edges, q[i], q[i + 1]) {
      assert Adjacent(edges, p[|p| - 2 - i], p[|p| - 2 - i + 1]);
    }
    assert WalkFrom(edges, q, b, a);
  }

  ghost predicate Closed<T(!new)>(edges: seq<(T, T)>, s: set<T>) { forall x, y :: x in s && Adjacent(edges, x, y) ==> y in s }

  /** A closed set holds everything connected to one of its members. */
  lemma {:induction false} ClosedHoldsWalk<T(!new)>(edges: seq<(T, T)>, s: set<T>, p: seq<T>)
    requires Closed(edges, s) && Walk(edges, p) && p[0] in s
    ensures p[|p| - 1] in s
  {
    if |p| > 1 {
      var init := p[..|p| - 1];
      assert forall i :: 0 <= i < |init| - 1 ==> Adjacent(edges, p[i], p[i + 1]);
      ClosedHoldsWalk(edges, s, init);
      assert Adjacent(edges, p[|p| - 2], p[|p| - 2 + 1]);
    }
  }

  lemma ClosedHoldsConnected<T(!new)>(edges: seq<(T, T)>, s: set<T>, a: T, b: T)
    requires Closed(edges, s) && Connected(edges, a, b) && a in s
    ensures b in s
  {
    var p :| WalkFrom(edges, p, a, b);
    ClosedHoldsWalk(edges, s, p);
  }

  lemma {:induction false} WalkOn<T(!new)>(edges: seq<(T, T)>, a: T, p: seq<T>)
    requires Walk(edges, p) && Connected(edges, a, p[0])
    ensures Connected(edges, a, p[|p| - 1])
  {
    if |p| > 1 {
      var init := p[..|p| - 1];
      assert forall i :: 0 <= i < |init| - 1 ==> Adjacent(edges, p[i], p[i + 1]);
      WalkOn(edges, a, init);
      assert Adjacent(edges, p[|p| - 2], p[|p| - 2 + 1]);
      ConnectedStep(edges, a, p[|p| - 2], p[|p| - 1]);
    }
  }

  lemma ConnectedTransitive<T(!new)>(edges: seq<(T, T)>, a: T, b: T, c: T)
    requires Connected(edges, a, b) && Connected(edges, b, c)
    ensures Connected(edges, a, c)
  {
    var p :| WalkFrom(edges, p, b, c);
    WalkOn(edges, a, p);
  }

  // ---------------------------------------------------------------- the breadth-first search

  function Elements<T>(s: seq<T>): set<T> { set x | x in s }

  ghost predicate EdgesWithin<T(!new)>(nodes: seq<T>, edges: seq<(T, T)>) { forall e :: e in edges ==> e.0 in nodes && e.1 in nodes }

  ghost predicate AreNeighbors<T(!new)>(nodes: seq<T>, edges: seq<(T, T)>, neighbors: map<T, seq<T>>)
  {
    && (forall x :: x in neighbors <==> x in nodes)
    && forall x, y :: x in neighbors ==> (y in neighbors[x] <==> Adjacent(edges, x, y))
  }

  method AppendUnique<T(==)>(s: seq<T>, x: T) returns (r: seq<T>)
    ensures forall y :: y in r <==> y in s || y == x
  {
    r := if x in s then s else s + [x];
  }

  method Neighbors<T(!new, ==)>(nodes: seq<T>, edges: seq<(T, T)>) returns (neighbors: map<T, seq<T>>)
    requires EdgesWithin(nodes, edges)
    ensures AreNeighbors(nodes, edges, neighbors)
  {
    neighbors := map x | x in nodes :: [];
    for i := 0 to |edges|
      invariant AreNeighbors(nodes, edges[..i], neighbors)
    {
      var (a, b) := edges[i];
      assert edges[i] in edges && edges[..i + 1] == edges[..i] + [edges[i]];
      var toA := AppendUnique(neighbors[a], b);
      neighbors := neighbors[a := toA];
      var toB := AppendUnique(neighbors[b], a);
      neighbors := neighbors[b := toB];
    }
    assert edges[..|edges|] == edges;
  }

  /** The unvisited ones among the neighbors join the queue. */
  method Enqueue<T(!new, ==)>(queue: seq<T>, visited: set<T>, neighbors: seq<T>) returns (longer: seq<T>, more: set<T>)
    requires Sequences.Distinct(queue) && Elements(queue) <= visited
    ensures Sequences.Distinct(longer) && more == visited + Elements(neighbors)
    ensures Elements(longer) == Elements(queue) + (Elements(neighbors) - visited)
  {
    longer, more := queue, visited;
    for i := 0 to |neighbors|
      invariant Sequences.Distinct(longer) && more == visited + Elements(neighbors[..i])
      invariant Elements(longer) == Elements(queue) + (Elements(neighbors[..i]) - visited)
    {
      assert neighbors[..i + 1] == neighbors[..i] + [neighbors[i]];
      if neighbors[i] !in more {
        assert forall j :: 0 <= j < |longer| ==> longer[j] in Elements(longer);
        more := more + {neighbors[i]};
        longer := longer + [neighbors[i]];
      }
    }
    assert neighbors[..|neighbors|] == neighbors;
  }

  /** The state of a search from root: found nodes, the queue, and what was visited before it began. */
  ghost predicate Searching<T(!new)>(nodes: seq<T>, edges: seq<(T, T)>, root: T, before: set<T>, found: seq<T>, queue: seq<T>, visited: set<T>)
  {
    && Sequences.Distinct(found) && Sequences.Distinct(queue) && Elements(found) !! Elements(queue)
    && visited == before + Elements(found) + Elements(queue)
    && (Elements(found) + Elements(queue)) !! before
    && (forall x :: x in found || x in queue ==> x in nodes && Connected(edges, root, x))
    && (forall x, y :: x in found && Adjacent(edges, x, y) ==> y in visited)
    && (root in found || root in queue)
  }

  lemma SearchStep<T(!new)>(nodes: seq<T>, edges: seq<(T, T)>, root: T, before: set<T>, found: seq<T>, queue: seq<T>, visited: set<T>,
                            neighbors: seq<T>, longer: seq<T>, more: set<T>)
    requires EdgesWithin(nodes, edges) && Closed(edges, before)
    requires queue != [] && Searching(nodes, edges, root, before, found, queue, visited)
    requires forall y :: y in neighbors <==> Adjacent(edges, queue[0], y)
    requires Sequences.Distinct(longer) && more == visited + Elements(neighbors)
    requires Elements(longer) == Elements(queue[1..]) + (Elements(neighbors) - visited)
    ensures Searching(nodes, edges, root, before, found + [queue[0]], longer, more)
  {
    var current := queue[0];
    assert queue == [current] + queue[1..];
    assert current !in queue[1..];
    assert Elements(queue) == {current} + Elements(queue[1..]);
    assert Elements(found + [current]) == Elements(found) + {current};
    forall y | y in neighbors ensures y in nodes && Connected(edges, root, y) && y !in before {
      assert Adjacent(edges, current, y);
      ConnectedStep(edges, root, current, y);
      assert Adjacent(edges, y, current) && current !in before;
    }
    assert forall x :: x in longer ==> x in Elements(longer);
    assert current in queue;
    assert current in visited && current !in Elements(longer);
    assert forall i :: 0 <= i < |found| ==> found[i] in Elements(found);
    assert Sequences.Distinct(found + [current]);
    assert Elements(found + [current]) !! Elements(longer);
    assert more == before + Elements(found + [current]) + Elements(longer);
    assert forall x :: x in longer ==> x in nodes && Connected(edges, root, x);
    assert forall x, y :: x in found + [current] && Adjacent(edges, x, y) ==> y in more;
    assert root in queue ==> root == current || root in queue[1..];
    assert root in queue[1..] ==> root in Elements(longer);
    assert root in found ==> root in found + [current];
    assert root in found + [current] || root in longer;
    assert (Elements(found + [current]) + Elements(longer)) !! before;
  }

  method Search<T(!new, ==)>(nodes: seq<T>, edges: seq<(T, T)>, neighbors: map<T, seq<T>>, root: T, before: set<T>)
    returns (found: seq<T>, visited: set<T>)
    requires EdgesWithin(nodes, edges) && AreNeighbors(nodes, edges, neighbors)
    requires root in nodes && root !in before && Closed(edges, before)
    ensures Sequences.Distinct(found) && visited == before + Elements(found) && Elements(found) !! before && Closed(edges, visited)
    ensures forall x :: x in found <==> Connected(edges, root, x)
    ensures forall x :: x in found ==> x in nodes
  {
    var queue := [root];
    visited, found := before + {root}, [];
    ConnectedToItself(edges, root);
    while |queue| > 0
      invariant Searching(nodes, edges, root, before, found, queue, visited)
      decreases Elements(nodes) - Elements(found)
    {
      var current := queue[0];
      assert current in Elements(queue) && current in nodes;
      var longer, more := Enqueue(queue[1..], visited, neighbors[current]);
      SearchStep(nodes, edges, root, before, found, queue, visited, neighbors[current], longer, more);
      assert current in Elements(nodes) && current !in Elements(found);
      ghost var left := Elements(nodes) - Elements(found);
      found, queue, visited := found + [current], longer, more;
      assert current in Elements(found) && Elements(nodes) - Elements(found) < left;
    }
    SearchDone(nodes, edges, root, before, found, visited);
  }

  lemma SearchDone<T(!new)>(nodes: seq<T>, edges: seq<(T, T)>, root: T, before: set<T>, found: seq<T>, visited: set<T>)
    requires Closed(edges, before) && Searching(nodes, edges, root, before, found, [], visited)
    ensures visited == before + Elements(found) && Elements(found) !! before && Closed(edges, visited)
    ensures forall x :: x in found <==> Connected(edges, root, x)
  {
    forall x, y | x in Elements(found) && Adjacent(edges, x, y) ensures y in Elements(found) {
      assert y in before ==> Adjacent(edges, y, x);
    }
    forall x | Connected(edges, root, x) ensures x in found {
      ClosedHoldsConnected(edges, Elements(found), root, x);
    }
  }

  // ---------------------------------------------------------------- components

  /** A component: everything connected to its least member, in ascending order. */
  ghost predicate IsComponent<T(!new)>(less: (T, T) -> bool, edges: seq<(T, T)>, c: seq<T>)
  {
    c != [] && Sorting.Ascending(less, c) && forall x :: x in c <==> Connected(edges, c[0], x)
  }

  /** The components found so far, in the order of their least members, among the first nodes. */
  ghost predicate Components<T(!new)>(less: (T, T) -> bool, edges: seq<(T, T)>, comps: seq<seq<T>>)
  {
    && (forall k :: 0 <= k < |comps| ==> IsComponent(less, edges, comps[k]))
    && (forall j, k :: 0 <= j < k < |comps| ==> Elements(comps[j]) !! Elements(comps[k]))
    && (forall j, k :: 0 <= j < k < |comps| ==> less(comps[j][0], comps[k][0]))
  }

  ghost predicate InSome<T(!new)>(comps: seq<seq<T>>, x: T) { exists k :: 0 <= k < |comps| && x in comps[k] }

  ghost predicate Visiting<T(!new)>(less: (T, T) -> bool, nodes: seq<T>, edges: seq<(T, T)>, n: nat, comps: seq<seq<T>>, visited: set<T>)
    requires n <= |nodes|
  {
    && Components(less, edges, comps) && Closed(edges, visited)
    && (forall x :: x in visited <==> InSome(comps, x))
    && (forall x :: x in visited ==> x in nodes)
    && (forall i :: 0 <= i < n ==> nodes[i] in visited)
    && (forall k :: 0 <= k < |comps| ==> comps[k][0] in nodes[..n])
  }

  lemma LeastFirst<T(!new)>(less: (T, T) -> bool, c: seq<T>, x: T)
    requires Sorting.StrictTotalOrder(less) && Sorting.Ascending(less, c)
    requires x in c && forall y :: y in c ==> y == x || less(x, y)
    ensures c[0] == x
  {
    var j :| 0 <= j < |c| && c[j] == x;
    var first := c[0];
    assert first in c;
    assert j == 0 || less(first, x);
  }

  lemma LaterNodes<T(!new)>(less: (T, T) -> bool, nodes: seq<T>, n: nat, x: T)
    requires Sorting.Ascending(less, nodes) && n < |nodes| && x in nodes && x !in nodes[..n]
    ensures x == nodes[n] || less(nodes[n], x)
  {
    assert nodes == nodes[..n] + nodes[n..];
    assert x in nodes[n..];
    var i :| 0 <= i < |nodes[n..]| && nodes[n..][i] == x;
    assert nodes[n + i] == x;
  }

  /** A found set, sorted, is a component whose least member is the root. */
  lemma SortedComponent<T(!new)>(less: (T, T) -> bool, nodes: seq<T>, edges: seq<(T, T)>, n: nat, found: seq<T>)
    requires Sorting.StrictTotalOrder(less) && Sorting.Ascending(less, nodes) && n < |nodes|
    requires Sequences.Distinct(found) && (forall x :: x in found <==> Connected(edges, nodes[n], x))
    requires forall x :: x in found ==> x in nodes && x !in nodes[..n]
    ensures var c := Sorting.Sort(less, found);
            IsComponent(less, edges, c) && c[0] == nodes[n] && Elements(c) == Elements(found)
  {
    Sorting.SortAscending(less, found);
    var c := Sorting.Sort(less, found);
    ConnectedToItself(edges, nodes[n]);
    forall x | x in c ensures x == nodes[n] || less(nodes[n], x) {
      LaterNodes(less, nodes, n, x);
    }
    LeastFirst(less, c, nodes[n]);
  }

  lemma ComponentsGrow<T(!new)>(less: (T, T) -> bool, nodes: seq<T>, edges: seq<(T, T)>, n: nat, comps: seq<seq<T>>, c: seq<T>)
    requires Sorting.Ascending(less, nodes) && n < |nodes| && Components(less, edges, comps) && IsComponent(less, edges, c) && c[0] == nodes[n]
    requires forall k :: 0 <= k < |comps| ==> comps[k][0] in nodes[..n]
    requires forall x :: x in c ==> !InSome(comps, x)
    ensures Components(less, edges, comps + [c]) && forall k :: 0 <= k < |comps + [c]| ==> (comps + [c])[k][0] in nodes[..n + 1]
  {
    var longer := comps + [c];
    assert nodes[..n + 1] == nodes[..n] + [nodes[n]];
    forall j | 0 <= j < |comps| ensures Elements(comps[j]) !! Elements(c) && less(comps[j][0], c[0]) {
      assert forall x :: x in comps[j] ==> InSome(comps, x);
      var i :| 0 <= i < n && nodes[..n][i] == comps[j][0];
      assert less(nodes[i], nodes[n]);
    }
    assert forall k :: 0 <= k < |comps| ==> longer[k] == comps[k];
  }

  lemma VisitNext<T(!new)>(less: (T, T) -> bool, nodes: seq<T>, edges: seq<(T, T)>, n: nat, comps: seq<seq<T>>, visited: set<T>,
                           found: seq<T>, more: set<T>)
    requires Sorting.StrictTotalOrder(less) && Sorting.Ascending(less, nodes) && n < |nodes|
    requires Visiting(less, nodes, edges, n, comps, visited) && nodes[n] !in visited
    requires Sequences.Distinct(found) && more == visited + Elements(found) && Elements(found) !! visited && Closed(edges, more)
    requires forall x :: x in found <==> Connected(edges, nodes[n], x)
    requires forall x :: x in found ==> x in nodes
    ensures Visiting(less, nodes, edges, n + 1, comps + [Sorting.Sort(less, found)], more)
  {
    forall x | x in found ensures x !in nodes[..n] {
      assert x in Elements(found);
    }
    SortedComponent(less, nodes, edges, n, found);
    var c := Sorting.Sort(less, found);
    forall x | x in c ensures !InSome(comps, x) {
      assert x in Elements(c);
    }
    ComponentsGrow(less, nodes, edges, n, comps, c);
    forall x ensures x in more <==> InSome(comps + [c], x) {
      SomeOfLonger(comps, c, x);
      assert x in Elements(found) <==> x in Elements(c);
    }
  }

  lemma SomeOfLonger<T(!new)>(comps: seq<seq<T>>, c: seq<T>, x: T)
    ensures InSome(comps + [c], x) <==> InSome(comps, x) || x in c
  {
    var longer := comps + [c];
    if InSome(comps, x) {
      var k :| 0 <= k < |comps| && x in comps[k];
      assert x in longer[k];
    }
    if x in c {
      assert x in longer[|comps|];
    }
  }

  method CandidateComponents<T(!new, ==)>(less: (T, T) -> bool, nodes: seq<T>, edges: seq<(T, T)>) returns (comps: seq<seq<T>>)
    requires Sorting.StrictTotalOrder(less) && Sorting.Ascending(less, nodes) && EdgesWithin(nodes, edges)
    ensures Components(less, edges, comps) && forall x :: x in nodes <==> InSome(comps, x)
  {
    var neighbors := Neighbors(nodes, edges);
    var visited: set<T> := {};
    comps := [];
    for n := 0 to |nodes|
      invariant Visiting(less, nodes, edges, n, comps, visited)
    {
      comps, visited := VisitOne(less, nodes, edges, neighbors, n, comps, visited);
    }
    AllVisited(less, nodes, edges, comps, visited);
  }

  /** One node: already in a component, or the root of a new one. */
  method VisitOne<T(!new, ==)>(less: (T, T) -> bool, nodes: seq<T>, edges: seq<(T, T)>, neighbors: map<T, seq<T>>, n: nat,
                               comps: seq<seq<T>>, visited: set<T>)
    returns (longer: seq<seq<T>>, more: set<T>)
    requires Sorting.StrictTotalOrder(less) && Sorting.Ascending(less, nodes)
    requires EdgesWithin(nodes, edges) && AreNeighbors(nodes, edges, neighbors)
    requires n < |nodes| && Visiting(less, nodes, edges, n, comps, visited)
    ensures Visiting(less, nodes, edges, n + 1, longer, more)
  {
    if nodes[n] in visited {
      VisitedNext(less, nodes, edges, n, comps, visited);
      return comps, visited;
    }
    var found;
    found, more := Search(nodes, edges, neighbors, nodes[n], visited);
    VisitNext(less, nodes, edges, n, comps, visited, found, more);
    longer := comps + [Sorting.Sort(less, found)];
  }

  lemma AllVisited<T(!new)>(less: (T, T) -> bool, nodes: seq<T>, edges: seq<(T, T)>, comps: seq<seq<T>>, visited: set<T>)
    requires Visiting(less, nodes, edges, |nodes|, comps, visited)
    ensures forall x :: x in nodes <==> InSome(comps, x)
  {
    assert nodes[..|nodes|] == nodes;
  }

  lemma VisitedNext<T(!new)>(less: (T, T) -> bool, nodes: seq<T>, edges: seq<(T, T)>, n: nat, comps: seq<seq<T>>, visited: set<T>)
    requires n < |nodes| && Visiting(less, nodes, edges, n, comps, visited) && nodes[n] in visited
    ensures Visiting(less, nodes, edges, n + 1, comps, visited)
  {
    assert nodes[..n + 1] == nodes[..n] + [nodes[n]];
  }

  ghost predicate Together<T(!new)>(comps: seq<seq<T>>, a: T, b: T) { exists k :: 0 <= k < |comps| && a in comps[k] && b in comps[k] }

  /** Two files share a component exactly when an undirected path of edges connects them. */
  lemma SameComponent<T(!new)>(less: (T, T) -> bool, edges: seq<(T, T)>, comps: seq<seq<T>>, a: T, b: T)
    requires Components(less, edges, comps) && InSome(comps, a)
    ensures Together(comps, a, b) <==> Connected(edges, a, b)
  {
    if Together(comps, a, b) {
      var k :| 0 <= k < |comps| && a in comps[k] && b in comps[k];
      ConnectedBack(edges, comps[k][0], a);
      ConnectedTransitive(edges, a, comps[k][0], b);
    }
    if Connected(edges, a, b) {
      var k :| 0 <= k < |comps| && a in comps[k];
      ConnectedTransitive(edges, comps[k][0], a, b);
      assert b in comps[k];
    }
  }

  // ---------------------------------------------------------------- pair counts

  /** candidate_pair_count: the pairs inside the components. */
  function CandidatePairs<T>(comps: seq<seq<T>>): int
  {
    if comps == [] then 0
    else CandidatePairs(comps[..|comps| - 1]) + PairsOf(|comps[|comps| - 1]|)
  }

  ghost function PairsInside<T(!new)>(less: (T, T) -> bool, comps: seq<seq<T>>): set<(T, T)>
  {
    if comps == [] then {}
    else PairsInside(less, comps[..|comps| - 1]) + Driver.AllPairs(less, Elements(comps[|comps| - 1]))
  }

  lemma {:induction false} InsideIff<T(!new)>(less: (T, T) -> bool, comps: seq<seq<T>>, p: (T, T))
    ensures p in PairsInside(less, comps) <==> less(p.0, p.1) && Together(comps, p.0, p.1)
  {
    if comps != [] {
      var n := |comps| - 1;
      InsideIff(less, comps[..n], p);
      assert forall k :: 0 <= k < n ==> comps[..n][k] == comps[k];
      if Together(comps[..n], p.0, p.1) {
        var k :| 0 <= k < n && p.0 in comps[..n][k] && p.1 in comps[..n][k];
        assert p.0 in comps[k] && p.1 in comps[k];
      }
    }
  }

  lemma {:induction false} DistinctCount<T(!new)>(c: seq<T>)
    requires Sequences.Distinct(c)
    ensures |Elements(c)| == |c|
  {
    if c != [] {
      var n := |c| - 1;
      DistinctCount(c[..n]);
      assert c == c[..n] + [c[n]];
      assert Elements(c) == Elements(c[..n]) + {c[n]};
      assert c[n] !in c[..n];
    }
  }

  lemma AscendingDistinct<T(!new)>(less: (T, T) -> bool, c: seq<T>)
    requires Sorting.StrictTotalOrder(less) && Sorting.Ascending(less, c)
    ensures Sequences.Distinct(c)
  {
  }

  function PairsOf(n: nat): int { n * (n - 1) / 2 }

  lemma ComponentPairs<T(!new)>(less: (T, T) -> bool, c: seq<T>)
    requires Sorting.StrictTotalOrder(less) && Sorting.Ascending(less, c)
    ensures |Driver.AllPairs(less, Elements(c))| == PairsOf(|c|)
  {
    AscendingDistinct(less, c);
    DistinctCount(c);
    Driver.AllPairsCount(less, Elements(c));
    Driver.PairCountClosed(|c|);
  }

  lemma {:induction false} InsideCount<T(!new)>(less: (T, T) -> bool, edges: seq<(T, T)>, comps: seq<seq<T>>)
    requires Sorting.StrictTotalOrder(less) && Components(less, edges, comps)
    ensures |PairsInside(less, comps)| == CandidatePairs(comps)
  {
    if comps != [] {
      var n := |comps| - 1;
      InsideCount(less, edges, comps[..n]);
      assert IsComponent(less, edges, comps[n]);
      ComponentPairs(less, comps[n]);
      InsideApart(less, edges, comps);
      assert CandidatePairs(comps) == CandidatePairs(comps[..n]) + PairsOf(|comps[n]|);
    }
  }

  /** Pairs inside the earlier components are not inside the last one. */
  lemma InsideApart<T(!new)>(less: (T, T) -> bool, edges: seq<(T, T)>, comps: seq<seq<T>>)
    requires Components(less, edges, comps) && comps != []
    ensures PairsInside(less, comps[..|comps| - 1]) !! Driver.AllPairs(less, Elements(comps[|comps| - 1]))
  {
    var n := |comps| - 1;
    forall p | p in PairsInside(less, comps[..n]) ensures p.0 !in Elements(comps[n]) {
      InsideIff(less, comps[..n], p);
      var k :| 0 <= k < n && p.0 in comps[..n][k];
      assert p.0 in Elements(comps[k]) && Elements(comps[k]) !! Elements(comps[n]);
    }
  }

  /** The pairs of files that no path connects. */
  ghost function CrossPairs<T(!new)>(less: (T, T) -> bool, nodes: seq<T>, comps: seq<seq<T>>): set<(T, T)>
  {
    set p | p in Driver.AllPairs(less, Elements(nodes)) && !Together(comps, p.0, p.1)
  }

  lemma PairsSplit<T(!new)>(less: (T, T) -> bool, nodes: seq<T>, comps: seq<seq<T>>)
    requires forall x :: x in nodes <==> InSome(comps, x)
    ensures Driver.AllPairs(less, Elements(nodes)) == PairsInside(less, comps) + CrossPairs(less, nodes, comps)
    ensures PairsInside(less, comps) !! CrossPairs(less, nodes, comps)
  {
    forall p ensures p in PairsInside(less, comps) <==> p in Driver.AllPairs(less, Elements(nodes)) && Together(comps, p.0, p.1) {
      InsideIff(less, comps, p);
      if Together(comps, p.0, p.1) {
        assert InSome(comps, p.0) && InSome(comps, p.1);
      }
    }
  }

  /** The reduced pair count is exactly the number of pairs that lie in different components. */
  lemma ReducedPairCount<T(!new)>(less: (T, T) -> bool, nodes: seq<T>, edges: seq<(T, T)>, comps: seq<seq<T>>)
    requires Sorting.StrictTotalOrder(less) && Sorting.Ascending(less, nodes)
    requires Components(less, edges, comps) && forall x :: x in nodes <==> InSome(comps, x)
    ensures PairsOf(|nodes|) - CandidatePairs(comps) == |CrossPairs(less, nodes, comps)|
  {
    ComponentPairs(less, nodes);
    InsideCount(less, edges, comps);
    PairsSplit(less, nodes, comps);
  }
}
