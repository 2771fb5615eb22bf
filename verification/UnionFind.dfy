/**
 The union-find forest of tools/benchmark146/architecture.go:32-46 and 83-91: a parent map in
 which every parent is the file itself or a smaller file. Files are identified by values of any
 type T with a strict total order; in the source they are strings in Go's order.
 */
module UnionFind {
  import opened Sorting

  ghost predicate Edge<T(!new)>(less: (T, T) -> bool, p: map<T, T>, k: T)
    requires k in p
  {
    p[k] in p && (p[k] == k || less(p[k], k))
  }

  ghost predicate Forest<T(!new)>(less: (T, T) -> bool, p: map<T, T>)
  {
    forall k {:trigger Edge(less, p, k)} :: k in p ==> Edge(less, p, k)
  }

  /** The files that come before x: what makes following parents terminate. */
  ghost function Below<T(!new)>(less: (T, T) -> bool, s: set<T>, x: T): set<T>
  {
    set y | y in s && less(y, x)
  }

  lemma BelowShrinks<T(!new)>(less: (T, T) -> bool, s: set<T>, x: T, y: T)
    requires StrictTotalOrder(less) && x in s && less(x, y)
    ensures Below(less, s, x) < Below(less, s, y)
  {
    assert x in Below(less, s, y) && x !in Below(less, s, x);
  }

  ghost function Root<T(!new)>(less: (T, T) -> bool, p: map<T, T>, k: T): (r: T)
    requires StrictTotalOrder(less) && Forest(less, p) && k in p
    ensures r in p && p[r] == r
    ensures r == k || less(r, k)
    decreases Below(less, p.Keys, k)
  {
    assert Edge(less, p, k);
    if p[k] == k then k
    else
      BelowShrinks(less, p.Keys, p[k], k);
      Root(less, p, p[k])
  }

  /** Two forests over the same files that put the same files under the same roots. */
  ghost predicate SameRoots<T(!new)>(less: (T, T) -> bool, p: map<T, T>, q: map<T, T>)
    requires StrictTotalOrder(less) && Forest(less, p) && Forest(less, q)
  {
    p.Keys == q.Keys
    && forall k {:trigger Root(less, p, k)} {:trigger Root(less, q, k)} :: k in p ==> Root(less, p, k) == Root(less, q, k)
  }

  /** Pointing a file directly at its root moves nobody to another root. */
  lemma {:induction false} RedirectKeepsRoots<T(!new)>(less: (T, T) -> bool, p: map<T, T>, x: T, k: T)
    requires StrictTotalOrder(less) && Forest(less, p) && x in p && k in p
    ensures Forest(less, p[x := Root(less, p, x)])
    ensures Root(less, p[x := Root(less, p, x)], k) == Root(less, p, k)
    decreases Below(less, p.Keys, k)
  {
    var q := p[x := Root(less, p, x)];
    assert q.Keys == p.Keys;
    forall j | j in q ensures Edge(less, q, j) { assert Edge(less, p, j); }
    assert Edge(less, p, k);
    if k == x {
      var r := Root(less, p, x);
      assert q[r] == r;
    } else if p[k] != k {
      BelowShrinks(less, p.Keys, p[k], k);
      RedirectKeepsRoots(less, p, x, p[k]);
    }
  }

  lemma CompressionKeepsRoots<T(!new)>(less: (T, T) -> bool, p: map<T, T>, x: T)
    requires StrictTotalOrder(less) && Forest(less, p) && x in p
    ensures Forest(less, p[x := Root(less, p, x)])
    ensures SameRoots(less, p, p[x := Root(less, p, x)])
  {
    RedirectKeepsRoots(less, p, x, x);
    forall k | k in p ensures Root(less, p, k) == Root(less, p[x := Root(less, p, x)], k) {
      RedirectKeepsRoots(less, p, x, k);
    }
  }

  lemma SameRootsTransitive<T(!new)>(less: (T, T) -> bool, p: map<T, T>, q: map<T, T>, r: map<T, T>)
    requires StrictTotalOrder(less) && Forest(less, p) && Forest(less, q) && Forest(less, r)
    requires SameRoots(less, p, q) && SameRoots(less, q, r)
    ensures SameRoots(less, p, r)
  {
  }

  /** find with path compression. */
  method Find<T(!new, ==)>(less: (T, T) -> bool, parent: map<T, T>, id: T) returns (root: T, updated: map<T, T>)
    requires StrictTotalOrder(less) && Forest(less, parent) && id in parent
    ensures Forest(less, updated) && SameRoots(less, parent, updated)
    ensures root == Root(less, parent, id) && updated[id] == root
    decreases Below(less, parent.Keys, id)
  {
    updated := parent;
    assert Edge(less, parent, id);
    if parent[id] != id {
      BelowShrinks(less, parent.Keys, parent[id], id);
      var r, compressed := Find(less, parent, parent[id]);
      assert r == Root(less, compressed, id);
      CompressionKeepsRoots(less, compressed, id);
      updated := compressed[id := r];
      SameRootsTransitive(less, parent, compressed, updated);
    }
    root := updated[id];
  }

  /** The root a file has once the class of b is put under a. */
  ghost function Merged<T(!new)>(less: (T, T) -> bool, p: map<T, T>, a: T, b: T, k: T): T
    requires StrictTotalOrder(less) && Forest(less, p) && k in p
  {
    if Root(less, p, k) == b then a else Root(less, p, k)
  }

  lemma {:induction false} LinkMergesRoots<T(!new)>(less: (T, T) -> bool, p: map<T, T>, a: T, b: T, k: T)
    requires StrictTotalOrder(less) && Forest(less, p) && a in p && b in p && p[a] == a && p[b] == b
    requires a == b || less(a, b)
    requires k in p
    ensures Forest(less, p[b := a])
    ensures Root(less, p[b := a], k) == Merged(less, p, a, b, k)
    decreases Below(less, p.Keys, k)
  {
    var q := p[b := a];
    assert q.Keys == p.Keys;
    forall j | j in q ensures Edge(less, q, j) { assert Edge(less, p, j); }
    assert Edge(less, p, k);
    if k == b {
      assert q[a] == a;
    } else if p[k] != k {
      BelowShrinks(less, p.Keys, p[k], k);
      LinkMergesRoots(less, p, a, b, p[k]);
    }
  }

  function Min<T>(less: (T, T) -> bool, x: T, y: T): T { if less(y, x) then y else x }
  function Max<T>(less: (T, T) -> bool, x: T, y: T): T { if less(y, x) then x else y }

  /** One positive observation: the larger root goes under the smaller. */
  method Union<T(!new, ==)>(less: (T, T) -> bool, parent: map<T, T>, x: T, y: T) returns (updated: map<T, T>)
    requires StrictTotalOrder(less) && Forest(less, parent) && x in parent && y in parent
    ensures Forest(less, updated) && updated.Keys == parent.Keys
    ensures var rx, ry := Root(less, parent, x), Root(less, parent, y);
            forall k {:trigger Root(less, updated, k)} :: k in parent ==>
              Root(less, updated, k) == Merged(less, parent, Min(less, rx, ry), Max(less, rx, ry), k)
  {
    var a, first := Find(less, parent, x);
    var b, second := Find(less, first, y);
    SameRootsTransitive(less, parent, first, second);
    if less(b, a) {
      a, b := b, a;
    }
    RootsAreFixed(less, parent, second, a);
    RootsAreFixed(less, parent, second, b);
    updated := second[b := a];
    AllMerged(less, parent, second, a, b);
  }

  lemma RootsAreFixed<T(!new)>(less: (T, T) -> bool, p: map<T, T>, q: map<T, T>, r: T)
    requires StrictTotalOrder(less) && Forest(less, p) && Forest(less, q) && SameRoots(less, p, q)
    requires r in p && p[r] == r
    ensures r in q && q[r] == r
  {
    assert Root(less, p, r) == r;
    assert Root(less, q, r) == r;
  }

  lemma AllMerged<T(!new)>(less: (T, T) -> bool, p: map<T, T>, q: map<T, T>, a: T, b: T)
    requires StrictTotalOrder(less) && Forest(less, p) && Forest(less, q) && SameRoots(less, p, q)
    requires a in q && b in q && q[a] == a && q[b] == b && (a == b || less(a, b))
    ensures Forest(less, q[b := a]) && q[b := a].Keys == p.Keys
    ensures forall k {:trigger Root(less, q[b := a], k)} :: k in p ==> Root(less, q[b := a], k) == Merged(less, p, a, b, k)
  {
    LinkMergesRoots(less, q, a, b, a);
    forall k | k in p ensures Root(less, q[b := a], k) == Merged(less, p, a, b, k) {
      LinkMergesRoots(less, q, a, b, k);
    }
  }
}
