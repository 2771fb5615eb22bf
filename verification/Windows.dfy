/** The greedy choice of windows of at most four files (tools/benchmark146/architecture.go:140-341). */
module Windows {
  import opened Sorting
  import opened Reconciliation
  import Sequences

  datatype Edge<T> = Edge(source: T, target: T, proximity: bool)
  datatype Graph<T> = Graph(nodes: seq<T>, edges: seq<Edge<T>>)
  datatype Plan<T> = InvalidNodes | EmptyGraph | UnknownEndpoint | Planned(windows: seq<seq<T>>)

  // ---------------------------------------------------------------- greedy extension

  /** x is the first of the files with the highest positive score among those not yet in w. */
  ghost predicate IsBest<T(!new)>(ids: seq<T>, w: seq<T>, x: T, score: (seq<T>, T) -> nat)
  {
    exists k :: 0 <= k < |ids| && ids[k] == x && x !in w && 0 < score(w, x) && BestAt(ids, w, k, score)
  }

  ghost predicate BestAt<T(!new)>(ids: seq<T>, w: seq<T>, k: int, score: (seq<T>, T) -> nat)
    requires 0 <= k < |ids|
  {
    forall j :: 0 <= j < |ids| && ids[j] !in w ==>
      score(w, ids[j]) <= score(w, ids[k]) && (j < k ==> score(w, ids[j]) < score(w, ids[k]))
  }

  ghost predicate NoCandidate<T(!new)>(ids: seq<T>, w: seq<T>, score: (seq<T>, T) -> nat)
  {
    forall j :: 0 <= j < |ids| && ids[j] !in w ==> score(w, ids[j]) == 0
  }

  method PickBest<T(!new, ==)>(ids: seq<T>, w: seq<T>, score: (seq<T>, T) -> nat) returns (found: bool, best: nat)
    ensures found ==> best < |ids| && IsBest(ids, w, ids[best], score)
    ensures !found ==> NoCandidate(ids, w, score)
  {
    found, best := false, 0;
    var high := 0;
    for i := 0 to |ids|
      invariant found ==> best < i && ids[best] !in w && score(w, ids[best]) == high && 0 < high
      invariant !found ==> high == 0
      invariant forall j :: 0 <= j < i && ids[j] !in w ==> score(w, ids[j]) <= high && (found && j < best ==> score(w, ids[j]) < high)
    {
      if ids[i] in w {
        continue;
      }
      var s := score(w, ids[i]);
      if s > high {
        found, best, high := true, i, s;
      }
    }
    if found {
      assert BestAt(ids, w, best, score);
    }
  }

  /** Starting from a pair, the window is extended by best-scoring files, up to four in all. */
  ghost predicate Greedy<T(!new)>(ids: seq<T>, a: T, b: T, w: seq<T>, score: (seq<T>, T) -> nat)
  {
    && 2 <= |w| <= 4 && w[..2] == [a, b]
    && (forall n :: 2 <= n < |w| ==> IsBest(ids, w[..n], w[n], score))
    && (|w| < 4 ==> NoCandidate(ids, w, score))
  }

  method Extend<T(!new, ==)>(ids: seq<T>, a: T, b: T, score: (seq<T>, T) -> nat) returns (w: seq<T>)
    requires a != b && a in ids && b in ids
    ensures Greedy(ids, a, b, w, score)
    ensures Sequences.Distinct(w) && forall x :: x in w ==> x in ids
  {
    w := [a, b];
    while |w| < 4
      invariant 2 <= |w| <= 4 && w[..2] == [a, b]
      invariant forall n :: 2 <= n < |w| ==> IsBest(ids, w[..n], w[n], score)
      invariant Sequences.Distinct(w) && forall x :: x in w ==> x in ids
      decreases 4 - |w|
    {
      var found, best := PickBest(ids, w, score);
      if !found {
        return;
      }
      var longer := w + [ids[best]];
      forall n | 2 <= n < |longer| ensures IsBest(ids, longer[..n], longer[n], score) {
        assert longer[..n] == if n < |w| then w[..n] else w;
      }
      assert longer[..2] == w[..2];
      w := longer;
    }
  }

  /** A window is the sorted result of such an extension. */
  ghost predicate GreedyWindow<T(!new)>(less: (T, T) -> bool, ids: seq<T>, a: T, b: T, w: seq<T>, score: (seq<T>, T) -> nat)
  {
    exists chosen {:trigger Sort(less, chosen)} :: Greedy(ids, a, b, chosen, score) && w == Sort(less, chosen)
  }

  // ---------------------------------------------------------------- windows as sets of files

  /** A window reconcile accepts: one to four distinct files, ascending. */
  ghost predicate IsWindow<T(!new)>(less: (T, T) -> bool, known: set<T>, w: seq<T>)
  {
    1 <= |w| <= 4 && Sequences.Distinct(w) && Ascending(less, w) && forall x :: x in w ==> x in known
  }

  lemma {:induction false} InsertLength<T(!new)>(less: (T, T) -> bool, x: T, xs: seq<T>)
    ensures |Insert(less, x, xs)| == |xs| + 1
  {
    if xs != [] && less(xs[0], x) {
      InsertLength(less, x, xs[1..]);
    }
  }

  lemma {:induction false} SortLength<T(!new)>(less: (T, T) -> bool, xs: seq<T>)
    ensures |Sort(less, xs)| == |xs|
  {
    if xs != [] {
      SortLength(less, xs[1..]);
      InsertLength(less, xs[0], Sort(less, xs[1..]));
    }
  }

  lemma SortedWindow<T(!new)>(less: (T, T) -> bool, known: set<T>, w: seq<T>)
    requires StrictTotalOrder(less) && 1 <= |w| <= 4 && Sequences.Distinct(w) && forall x :: x in w ==> x in known
    ensures IsWindow(less, known, Sort(less, w))
    ensures forall x :: x in Sort(less, w) <==> x in w
  {
    SortAscending(less, w);
    SortLength(less, w);
    AscendingDistinct(less, Sort(less, w));
  }

  lemma AscendingDistinct<T(!new)>(less: (T, T) -> bool, xs: seq<T>)
    requires StrictTotalOrder(less) && Ascending(less, xs)
    ensures Sequences.Distinct(xs)
  {
  }

  // ---------------------------------------------------------------- initial windows

  /** The number of files of w that the pairs link to id. */
  function Links<T(==)>(less: (T, T) -> bool, edges: set<(T, T)>, w: seq<T>, id: T): nat
  {
    if w == [] then 0
    else Links(less, edges, w[..|w| - 1], id) + if Key(less, id, w[|w| - 1]) in edges then 1 else 0
  }

  ghost predicate Linked<T(!new)>(pairs: set<(T, T)>, a: T, b: T) { (a, b) in pairs || (b, a) in pairs }

  /** The files of the window that a pair links with id. */
  ghost function Partners<T(!new)>(pairs: set<(T, T)>, w: seq<T>, id: T): set<T> { set x | x in w && Linked(pairs, id, x) }

  /** The files of the window that no pair links with id. */
  ghost function Strangers<T(!new)>(pairs: set<(T, T)>, w: seq<T>, id: T): set<T> { set x | x in w && !Linked(pairs, id, x) }

  /** The score of a file: with how many files of the window it shares a pair. */
  lemma {:induction false} LinksCount<T(!new)>(less: (T, T) -> bool, edges: set<(T, T)>, w: seq<T>, id: T)
    requires StrictTotalOrder(less) && Sequences.Distinct(w) && id !in w && forall p :: p in edges ==> less(p.0, p.1)
    ensures Links(less, edges, w, id) == |Partners(edges, w, id)|
  {
    if w != [] {
      LinksCount(less, edges, w[..|w| - 1], id);
      LastPartner(less, edges, w, id);
    }
  }

  lemma LastPartner<T(!new)>(less: (T, T) -> bool, pairs: set<(T, T)>, w: seq<T>, id: T)
    requires StrictTotalOrder(less) && w != [] && Sequences.Distinct(w) && id !in w && forall p :: p in pairs ==> less(p.0, p.1)
    ensures var init, last, linked := w[..|w| - 1], w[|w| - 1], Key(less, id, w[|w| - 1]) in pairs;
            && |Partners(pairs, w, id)| == |Partners(pairs, init, id)| + (if linked then 1 else 0)
            && |Strangers(pairs, w, id)| == |Strangers(pairs, init, id)| + if linked then 0 else 1
  {
    var init, last := w[..|w| - 1], w[|w| - 1];
    assert last !in init;
    KeyIn(less, pairs, id, last);
    PartnersStep(pairs, init, id, last);
    assert w == init + [last];
  }

  lemma PartnersStep<T(!new)>(pairs: set<(T, T)>, init: seq<T>, id: T, last: T)
    requires last !in init
    ensures Partners(pairs, init + [last], id) == Partners(pairs, init, id) + if Linked(pairs, id, last) then {last} else {}
    ensures Strangers(pairs, init + [last], id) == Strangers(pairs, init, id) + if Linked(pairs, id, last) then {} else {last}
    ensures last !in Partners(pairs, init, id) && last !in Strangers(pairs, init, id)
  {
  }

  lemma KeyIn<T(!new)>(less: (T, T) -> bool, edges: set<(T, T)>, a: T, b: T)
    requires StrictTotalOrder(less) && a != b && forall p :: p in edges ==> less(p.0, p.1)
    ensures Key(less, a, b) in edges <==> Linked(edges, a, b)
  {
  }

  ghost predicate InWindow<T(!new)>(w: seq<T>, p: (T, T))
  {
    p.0 in w && p.1 in w
  }

  /** The pairs the candidate edges ask to show together. */
  ghost predicate WantedPair<T(!new)>(less: (T, T) -> bool, edges: seq<Edge<T>>, p: (T, T))
  {
    exists i :: 0 <= i < |edges| && edges[i].source != edges[i].target && !edges[i].proximity
                && p == Key(less, edges[i].source, edges[i].target)
  }

  ghost predicate PairShown<T(!new)>(windows: seq<seq<T>>, p: (T, T))
  {
    exists i :: 0 <= i < |windows| && InWindow(windows[i], p)
  }

  ghost predicate FileShown<T(!new)>(windows: seq<seq<T>>, id: T)
  {
    exists i :: 0 <= i < |windows| && id in windows[i]
  }

  /** The first pair in lexicographic order. */
  method FirstPair<T(!new, ==)>(less: (T, T) -> bool, pairs: set<(T, T)>) returns (first: (T, T))
    requires StrictTotalOrder(less) && pairs != {}
    ensures IsFirst(less, pairs, first)
  {
    var order := (p: (T, T), q: (T, T)) => PairLess(less, p, q);
    PairLessOrder(less);
    var listed := Range(pairs);
    SortAscending(order, listed);
    var sorted := Sort(order, listed);
    assert sorted != [] by {
      var p :| p in pairs;
      assert p in sorted;
    }
    first := sorted[0];
    forall q | q in pairs && q != first ensures PairLess(less, first, q) {
      var j :| 0 <= j < |sorted| && sorted[j] == q;
      assert order(sorted[0], sorted[j]);
    }
  }

  method CollectPairs<T(!new, ==)>(less: (T, T) -> bool, known: set<T>, edges: seq<Edge<T>>) returns (ok: bool, pairs: set<(T, T)>)
    ensures ok <==> forall i :: 0 <= i < |edges| ==> edges[i].source in known && edges[i].target in known
    ensures ok ==> forall p :: p in pairs <==> WantedPair(less, edges, p)
  {
    pairs := {};
    for n := 0 to |edges|
      invariant forall i :: 0 <= i < n ==> edges[i].source in known && edges[i].target in known
      invariant forall p :: p in pairs <==> WantedPair(less, edges[..n], p)
    {
      var e := edges[n];
      if e.source !in known || e.target !in known {
        return false, pairs;
      }
      ghost var before := pairs;
      if e.source != e.target && !e.proximity {
        pairs := pairs + {Key(less, e.source, e.target)};
      }
      forall p ensures p in pairs <==> WantedPair(less, edges[..n + 1], p) {
        WantedStep(less, edges, n, p);
      }
    }
    assert edges[..|edges|] == edges;
    ok := true;
  }

  lemma WantedStep<T(!new)>(less: (T, T) -> bool, edges: seq<Edge<T>>, n: nat, p: (T, T))
    requires n < |edges|
    ensures WantedPair(less, edges[..n + 1], p) <==>
      WantedPair(less, edges[..n], p)
      || (edges[n].source != edges[n].target && !edges[n].proximity && p == Key(less, edges[n].source, edges[n].target))
  {
    var more := edges[..n + 1];
    assert more[n] == edges[n] && forall i :: 0 <= i < n ==> more[i] == edges[..n][i];
  }

  /** Deletes the pairs the window shows. */
  method DropShown<T(!new, ==)>(less: (T, T) -> bool, pairs: set<(T, T)>, w: seq<T>) returns (rest: set<(T, T)>)
    requires StrictTotalOrder(less) && Sequences.Distinct(w)
    ensures rest == pairs - PairsOf(less, Window(w, []))
  {
    rest := pairs;
    for i := 0 to |w|
      invariant rest == pairs - Rows(less, w, i)
    {
      for j := i + 1 to |w|
        invariant rest == pairs - Rows(less, w, i) - Row(less, w, i, j)
      {
        rest := rest - {Key(less, w[i], w[j])};
      }
    }
    RowsArePairs(less, Window(w, []));
  }

  /** Windows so far are acceptable, and every wanted pair is still pending or shown. */
  ghost predicate Covering<T(!new)>(less: (T, T) -> bool, known: set<T>, wanted: set<(T, T)>, pending: set<(T, T)>, windows: seq<seq<T>>)
  {
    && pending <= wanted
    && (forall i :: 0 <= i < |windows| ==> IsWindow(less, known, windows[i]))
    && (forall p :: p in wanted ==> p in pending || PairShown(windows, p))
  }

  lemma CoverStep<T(!new)>(less: (T, T) -> bool, known: set<T>, wanted: set<(T, T)>, pending: set<(T, T)>, windows: seq<seq<T>>, w: seq<T>)
    requires Covering(less, known, wanted, pending, windows) && IsWindow(less, known, w)
    ensures Covering(less, known, wanted, pending - PairsOf(less, Window(w, [])), windows + [w])
  {
    var more := windows + [w];
    forall p | p in wanted ensures p in pending - PairsOf(less, Window(w, [])) || PairShown(more, p) {
      if p in PairsOf(less, Window(w, [])) {
        assert InWindow(more[|windows|], p);
      } else if PairShown(windows, p) {
        var i :| 0 <= i < |windows| && InWindow(windows[i], p);
        assert InWindow(more[i], p);
      }
    }
  }

  function LinkScore<T(==)>(less: (T, T) -> bool, pending: set<(T, T)>): (seq<T>, T) -> nat
  {
    (w: seq<T>, id: T) => Links(less, pending, w, id)
  }

  ghost predicate IsFirst<T(!new)>(less: (T, T) -> bool, pairs: set<(T, T)>, first: (T, T))
  {
    first in pairs && forall q :: q in pairs && q != first ==> PairLess(less, first, q)
  }

  /** Window after window, each built greedily around the first pair still pending. */
  ghost predicate GreedyCover<T(!new)>(less: (T, T) -> bool, ids: seq<T>, pending: set<(T, T)>, windows: seq<seq<T>>)
  {
    if windows == [] then pending == {}
    else
      && (exists first {:trigger IsFirst(less, pending, first)} ::
            IsFirst(less, pending, first) && GreedyWindow(less, ids, first.0, first.1, windows[0], LinkScore(less, pending)))
      && GreedyCover(less, ids, pending - PairsOf(less, Window(windows[0], [])), windows[1..])
  }

  /** What covers the pending pairs, put after these windows, covers the wanted ones. */
  ghost predicate Leads<T(!new)>(less: (T, T) -> bool, ids: seq<T>, wanted: set<(T, T)>, windows: seq<seq<T>>, pending: set<(T, T)>)
  {
    forall rest {:trigger GreedyCover(less, ids, pending, rest)} ::
      GreedyCover(less, ids, pending, rest) ==> GreedyCover(less, ids, wanted, windows + rest)
  }

  lemma LeadsOn<T(!new)>(less: (T, T) -> bool, ids: seq<T>, wanted: set<(T, T)>, windows: seq<seq<T>>, pending: set<(T, T)>,
                         first: (T, T), w: seq<T>)
    requires Leads(less, ids, wanted, windows, pending) && IsFirst(less, pending, first)
    requires GreedyWindow(less, ids, first.0, first.1, w, LinkScore(less, pending))
    ensures Leads(less, ids, wanted, windows + [w], pending - PairsOf(less, Window(w, [])))
  {
    var left := pending - PairsOf(less, Window(w, []));
    forall rest | GreedyCover(less, ids, left, rest) ensures GreedyCover(less, ids, wanted, windows + [w] + rest) {
      assert ([w] + rest)[1..] == rest;
      assert GreedyCover(less, ids, pending, [w] + rest);
      assert windows + [w] + rest == windows + ([w] + rest);
    }
  }

  lemma LeadsFromNothing<T(!new)>(less: (T, T) -> bool, ids: seq<T>, wanted: set<(T, T)>)
    ensures Leads(less, ids, wanted, [], wanted)
  {
    forall rest | GreedyCover(less, ids, wanted, rest) ensures GreedyCover(less, ids, wanted, [] + rest) {
      assert [] + rest == rest;
    }
  }

  lemma LeadsToAll<T(!new)>(less: (T, T) -> bool, ids: seq<T>, wanted: set<(T, T)>, windows: seq<seq<T>>)
    requires Leads(less, ids, wanted, windows, {})
    ensures GreedyCover(less, ids, wanted, windows)
  {
    assert GreedyCover(less, ids, {}, []);
    assert windows + [] == windows;
  }

  /** While an edge is pending, a greedy window is built around the first one. */
  method CoverPairs<T(!new, ==)>(less: (T, T) -> bool, ids: seq<T>, wanted: set<(T, T)>) returns (windows: seq<seq<T>>)
    requires StrictTotalOrder(less) && forall p :: p in wanted ==> p.0 in ids && p.1 in ids && less(p.0, p.1)
    ensures Covering(less, Elements(ids), wanted, {}, windows) && GreedyCover(less, ids, wanted, windows)
  {
    windows := [];
    var pending := wanted;
    LeadsFromNothing(less, ids, wanted);
    while pending != {}
      invariant Covering(less, Elements(ids), wanted, pending, windows)
      invariant Leads(less, ids, wanted, windows, pending)
      decreases pending
    {
      var first := FirstPair(less, pending);
      var chosen := Extend(ids, first.0, first.1, LinkScore(less, pending));
      SortedWindow(less, Elements(ids), chosen);
      var w := Sort(less, chosen);
      assert first in PairsOf(less, Window(w, [])) by {
        assert chosen[..2] == [first.0, first.1];
        assert chosen[0] in w && chosen[1] in w;
      }
      CoverStep(less, Elements(ids), wanted, pending, windows, w);
      LeadsOn(less, ids, wanted, windows, pending, first, w);
      windows := windows + [w];
      pending := DropShown(less, pending, w);
    }
    LeadsToAll(less, ids, wanted, windows);
  }

  /** The files no window shows, in order. */
  ghost function Spare<T(!new)>(ids: seq<T>, windows: seq<seq<T>>): seq<T>
  {
    if ids == [] then []
    else Spare(ids[..|ids| - 1], windows) + if FileShown(windows, ids[|ids| - 1]) then [] else [ids[|ids| - 1]]
  }

  function Fours<T>(s: seq<T>): seq<seq<T>>
  {
    if |s| == 0 then [] else if |s| <= 4 then [s] else [s[..4]] + Fours(s[4..])
  }

  /** The chunks hold the files in order, four in every one but perhaps the last. */
  lemma {:induction false} FoursAreAll<T>(s: seq<T>, k: nat)
    requires k < |s|
    ensures |Fours(s)| == (|s| + 3) / 4
    ensures k % 4 < |Fours(s)[k / 4]| <= 4 && Fours(s)[k / 4][k % 4] == s[k]
    ensures k / 4 < |Fours(s)| - 1 ==> |Fours(s)[k / 4]| == 4
  {
    if |s| > 4 {
      FoursAreAll(s[4..], if k < 4 then 0 else k - 4);
    }
  }

  /** The files not yet shown, four at a time. */
  method ShowSpare<T(!new, ==)>(less: (T, T) -> bool, ids: seq<T>, windows: seq<seq<T>>) returns (all: seq<seq<T>>)
    requires StrictTotalOrder(less) && Ascending(less, ids)
    requires forall i :: 0 <= i < |windows| ==> IsWindow(less, Elements(ids), windows[i])
    ensures windows <= all && forall i :: 0 <= i < |all| ==> IsWindow(less, Elements(ids), all[i])
    ensures forall id :: id in ids ==> FileShown(all, id)
    ensures all == windows + Fours(Spare(ids, windows))
  {
    var spare := FindSpare(less, ids, windows);
    all := ChunkSpare(less, Elements(ids), spare, windows);
    forall id | id in ids ensures FileShown(all, id) {
      if FileShown(windows, id) {
        StillShown(windows, all, id);
      }
    }
  }

  lemma StillShown<T(!new)>(windows: seq<seq<T>>, all: seq<seq<T>>, id: T)
    requires windows <= all && FileShown(windows, id)
    ensures FileShown(all, id)
  {
    var i :| 0 <= i < |windows| && id in windows[i];
    assert all[i] == windows[i];
  }

  lemma {:induction false} SpareMembers<T(!new)>(less: (T, T) -> bool, ids: seq<T>, windows: seq<seq<T>>)
    requires Ascending(less, ids)
    ensures Ascending(less, Spare(ids, windows))
    ensures forall id :: id in Spare(ids, windows) <==> id in ids && !FileShown(windows, id)
  {
    if ids != [] {
      var n := |ids| - 1;
      SpareMembers(less, ids[..n], windows);
      assert ids == ids[..n] + [ids[n]];
      var before := Spare(ids[..n], windows);
      forall i | 0 <= i < |before| ensures less(before[i], ids[n]) {
        assert before[i] in ids[..n];
        EarlierIsLess(less, ids, n, before[i]);
      }
    }
  }

  lemma EarlierIsLess<T(!new)>(less: (T, T) -> bool, ids: seq<T>, n: nat, x: T)
    requires Ascending(less, ids) && n < |ids| && x in ids[..n]
    ensures less(x, ids[n])
  {
    var i :| 0 <= i < n && ids[..n][i] == x;
  }

  method FindSpare<T(!new, ==)>(less: (T, T) -> bool, ids: seq<T>, windows: seq<seq<T>>) returns (spare: seq<T>)
    requires Ascending(less, ids)
    ensures Ascending(less, spare) && spare == Spare(ids, windows)
    ensures forall id :: id in spare <==> id in ids && !FileShown(windows, id)
  {
    var covered := CoveredFiles(windows);
    spare := [];
    for n := 0 to |ids|
      invariant spare == Spare(ids[..n], windows)
    {
      assert ids[..n + 1][..n] == ids[..n];
      if ids[n] !in covered {
        spare := spare + [ids[n]];
      }
    }
    assert ids[..|ids|] == ids;
    SpareMembers(less, ids, windows);
  }

  method CoveredFiles<T(!new, ==)>(windows: seq<seq<T>>) returns (covered: set<T>)
    ensures forall id :: id in covered <==> FileShown(windows, id)
  {
    covered := {};
    for n := 0 to |windows|
      invariant forall id :: id in covered <==> FileShown(windows[..n], id)
    {
      forall id ensures FileShown(windows[..n + 1], id) <==> FileShown(windows[..n], id) || id in windows[n] {
        var more := windows[..n + 1];
        assert more[n] == windows[n] && forall i :: 0 <= i < n ==> more[i] == windows[..n][i];
      }
      covered := covered + Elements(windows[n]);
    }
    assert windows[..|windows|] == windows;
  }

  method ChunkSpare<T(!new, ==)>(less: (T, T) -> bool, known: set<T>, spare: seq<T>, windows: seq<seq<T>>) returns (all: seq<seq<T>>)
    requires StrictTotalOrder(less) && Ascending(less, spare) && forall id :: id in spare ==> id in known
    requires forall i :: 0 <= i < |windows| ==> IsWindow(less, known, windows[i])
    ensures windows <= all && forall i :: 0 <= i < |all| ==> IsWindow(less, known, all[i])
    ensures forall id :: id in spare ==> FileShown(all, id)
    ensures all == windows + Fours(spare)
  {
    all := windows;
    var rest := spare;
    while |rest| > 0
      invariant all + Fours(rest) == windows + Fours(spare)
      invariant windows <= all && forall i :: 0 <= i < |all| ==> IsWindow(less, known, all[i])
      invariant Ascending(less, rest) && forall id :: id in rest ==> id in known
      invariant forall id :: id in spare ==> id in rest || FileShown(all, id)
      decreases |rest|
    {
      var n := if 4 < |rest| then 4 else |rest|;
      AscendingDistinct(less, rest[..n]);
      assert IsWindow(less, known, rest[..n]);
      ghost var before := all;
      all := all + [rest[..n]];
      FoursStep(rest, n);
      assert before + ([rest[..n]] + Fours(rest[n..])) == all + Fours(rest[n..]);
      forall id | id in spare ensures id in rest[n..] || FileShown(all, id) {
        if FileShown(before, id) {
          var i :| 0 <= i < |before| && id in before[i];
          assert id in all[i];
        } else {
          assert rest == rest[..n] + rest[n..];
          assert id in rest[..n] ==> id in all[|before|];
        }
      }
      rest := rest[n..];
    }
  }

  lemma FoursStep<T>(s: seq<T>, n: nat)
    requires |s| > 0 && n == if 4 < |s| then 4 else |s|
    ensures Fours(s) == [s[..n]] + Fours(s[n..])
  {
    if |s| <= 4 {
      assert s[..n] == s && s[n..] == [];
    }
  }

  /** How the windows are chosen: all files at once, or a greedy cover of the edges and then the spare files. */
  ghost predicate AsPlanned<T(!new)>(less: (T, T) -> bool, graph: Graph<T>, windows: seq<seq<T>>)
  {
    var ids := Sort(less, graph.nodes);
    if |graph.nodes| <= 4 then windows == [ids]
    else exists pairs, cover {:trigger GreedyCover(less, ids, pairs, cover)} ::
      (forall p :: p in pairs <==> WantedPair(less, graph.edges, p)) && GreedyCover(less, ids, pairs, cover)
      && windows == cover + Fours(Spare(ids, cover))
  }

  /** What initialWindows promises: small valid windows that show every file and every wanted pair. */
  ghost predicate ShowsGraph<T(!new)>(less: (T, T) -> bool, graph: Graph<T>, windows: seq<seq<T>>)
  {
    && (forall i :: 0 <= i < |windows| ==> IsWindow(less, Elements(graph.nodes), windows[i]))
    && (forall id :: id in graph.nodes ==> FileShown(windows, id))
    && (forall p :: WantedPair(less, graph.edges, p) && p.0 in graph.nodes && p.1 in graph.nodes ==> PairShown(windows, p))
  }

  /** Some edge names a file that is not among the nodes. */
  ghost predicate StrayEndpoint<T(!new)>(graph: Graph<T>)
  {
    exists i :: 0 <= i < |graph.edges| && (graph.edges[i].source !in graph.nodes || graph.edges[i].target !in graph.nodes)
  }

  lemma WantedAreOrdered<T(!new)>(less: (T, T) -> bool, graph: Graph<T>, ids: seq<T>, p: (T, T))
    requires StrictTotalOrder(less) && !StrayEndpoint(graph) && (forall id :: id in ids <==> id in graph.nodes)
    requires WantedPair(less, graph.edges, p)
    ensures p.0 in ids && p.1 in ids && less(p.0, p.1)
  {
    var i :| 0 <= i < |graph.edges| && graph.edges[i].source != graph.edges[i].target && !graph.edges[i].proximity
            && p == Key(less, graph.edges[i].source, graph.edges[i].target);
    assert graph.edges[i].source in graph.nodes && graph.edges[i].target in graph.nodes;
  }

  lemma ShownEarlier<T(!new)>(windows: seq<seq<T>>, all: seq<seq<T>>, p: (T, T))
    requires windows <= all && PairShown(windows, p)
    ensures PairShown(all, p)
  {
    var i :| 0 <= i < |windows| && InWindow(windows[i], p);
    assert all[i] == windows[i];
  }

  /** More than four files: a greedy cover of the edges, then the spare files. */
  method CoverGraph<T(!new, ==)>(less: (T, T) -> bool, graph: Graph<T>, ids: seq<T>) returns (plan: Plan<T>)
    requires StrictTotalOrder(less) && Ascending(less, ids) && ids == Sort(less, graph.nodes) && |graph.nodes| > 4
    requires forall id :: id in ids <==> id in graph.nodes
    ensures plan.UnknownEndpoint? || plan.Planned?
    ensures plan.UnknownEndpoint? <==> StrayEndpoint(graph)
    ensures plan.Planned? ==> ShowsGraph(less, graph, plan.windows) && AsPlanned(less, graph, plan.windows)
  {
    var ok, pairs := CollectPairs(less, Elements(ids), graph.edges);
    if !ok {
      return UnknownEndpoint;
    }
    forall p | p in pairs ensures p.0 in ids && p.1 in ids && less(p.0, p.1) {
      WantedAreOrdered(less, graph, ids, p);
    }
    var windows := CoverPairs(less, ids, pairs);
    var all := ShowSpare(less, ids, windows);
    forall p | p in pairs ensures PairShown(all, p) {
      ShownEarlier(windows, all, p);
    }
    assert Elements(ids) == Elements(graph.nodes);
    plan := Planned(all);
  }

  method InitialWindows<T(!new, ==)>(less: (T, T) -> bool, blank: T, graph: Graph<T>) returns (plan: Plan<T>)
    requires StrictTotalOrder(less)
    ensures plan.InvalidNodes? <==> !ValidIds(blank, graph.nodes)
    ensures plan.EmptyGraph? <==> graph.nodes == []
    ensures plan.UnknownEndpoint? <==> ValidIds(blank, graph.nodes) && |graph.nodes| > 4 && StrayEndpoint(graph)
    ensures plan.Planned? ==> ShowsGraph(less, graph, plan.windows) && AsPlanned(less, graph, plan.windows)
  {
    var ok := CheckSelected(blank, graph.nodes);
    if !ok {
      return InvalidNodes;
    }
    SortAscending(less, graph.nodes);
    SortLength(less, graph.nodes);
    var ids := Sort(less, graph.nodes);
    assert Elements(ids) == Elements(graph.nodes);
    if |ids| <= 4 {
      if |ids| == 0 {
        return EmptyGraph;
      }
      AscendingDistinct(less, ids);
      OneWindow(less, graph, ids);
      return Planned([ids]);
    }
    plan := CoverGraph(less, graph, ids);
  }

  lemma OneWindow<T(!new)>(less: (T, T) -> bool, graph: Graph<T>, ids: seq<T>)
    requires IsWindow(less, Elements(graph.nodes), ids) && forall id :: id in graph.nodes ==> id in ids
    ensures ShowsGraph(less, graph, [ids])
  {
    forall id | id in graph.nodes ensures FileShown([ids], id) { assert id in [ids][0]; }
    forall p: (T, T) | p.0 in graph.nodes && p.1 in graph.nodes ensures PairShown([ids], p) { assert InWindow([ids][0], p); }
  }

  // ---------------------------------------------------------------- bridge and audit windows

  /** The number of open pairs between id and the files of w. */
  function OpenLinks<T(==)>(unknown: seq<(T, T)>, w: seq<T>, id: T): nat
  {
    if unknown == [] then 0
    else
      var u := unknown[|unknown| - 1];
      OpenLinks(unknown[..|unknown| - 1], w, id) + if (u.0 == id && u.1 in w) || (u.1 == id && u.0 in w) then 1 else 0
  }

  ghost predicate OpenBetween<T(!new)>(u: (T, T), w: seq<T>, id: T) { (u.0 == id && u.1 in w) || (u.1 == id && u.0 in w) }

  /** Where the first n open pairs join id with the window. */
  ghost function OpenPlaces<T(!new)>(unknown: seq<(T, T)>, w: seq<T>, id: T, n: nat): set<int>
    requires n <= |unknown|
  {
    set k | 0 <= k < n && OpenBetween(unknown[k], w, id)
  }

  /** The score of a class head: how many open pairs join it with the window. */
  lemma {:induction false} OpenLinksCount<T(!new)>(unknown: seq<(T, T)>, w: seq<T>, id: T, n: nat)
    requires n <= |unknown|
    ensures OpenLinks(unknown[..n], w, id) == |OpenPlaces(unknown, w, id, n)|
  {
    if n > 0 {
      OpenLinksCount(unknown, w, id, n - 1);
      assert unknown[..n][..n - 1] == unknown[..n - 1] && unknown[..n][n - 1] == unknown[n - 1];
      OpenPlacesStep(unknown, w, id, n - 1);
    }
  }

  lemma OpenPlacesStep<T(!new)>(unknown: seq<(T, T)>, w: seq<T>, id: T, n: nat)
    requires n < |unknown|
    ensures |OpenPlaces(unknown, w, id, n + 1)| == |OpenPlaces(unknown, w, id, n)| + if OpenBetween(unknown[n], w, id) then 1 else 0
  {
    assert OpenPlaces(unknown, w, id, n + 1) == OpenPlaces(unknown, w, id, n) + if OpenBetween(unknown[n], w, id) then {n} else {};
  }

  lemma OpenScoreCounts<T(!new)>(unknown: seq<(T, T)>, w: seq<T>, id: T)
    ensures OpenScore(unknown)(w, id) == |OpenPlaces(unknown, w, id, |unknown|)|
  {
    OpenLinksCount(unknown, w, id, |unknown|);
    assert unknown[..|unknown|] == unknown;
  }

  function OpenScore<T(==)>(unknown: seq<(T, T)>): (seq<T>, T) -> nat { (w: seq<T>, id: T) => OpenLinks(unknown, w, id) }

  /** Shows the first open pair together with the class heads most entangled with it. */
  method BridgeWindow<T(!new, ==)>(less: (T, T) -> bool, p: Partition<T>) returns (w: seq<T>)
    requires StrictTotalOrder(less)
    requires forall g :: 0 <= g < |p.groups| ==> p.groups[g] != []
    requires p.unknown != [] ==>
      var q := p.unknown[0];
      q.0 != q.1 && (exists g :: 0 <= g < |p.groups| && p.groups[g][0] == q.0) && exists g :: 0 <= g < |p.groups| && p.groups[g][0] == q.1
    ensures p.unknown == [] <==> w == []
    ensures p.unknown != [] ==>
      && IsWindow(less, Elements(Heads(p.groups)), w) && InWindow(w, p.unknown[0])
      && GreedyWindow(less, Heads(p.groups), p.unknown[0].0, p.unknown[0].1, w, OpenScore(p.unknown))
  {
    if |p.unknown| == 0 {
      return [];
    }
    var q := p.unknown[0];
    var heads := Heads(p.groups);
    var chosen := Extend(heads, q.0, q.1, OpenScore(p.unknown));
    SortedWindow(less, Elements(heads), chosen);
    w := Sort(less, chosen);
    assert chosen[..2] == [q.0, q.1];
    assert chosen[0] in w && chosen[1] in w;
  }

  function Heads<T>(groups: seq<seq<T>>): (heads: seq<T>)
    requires forall g :: 0 <= g < |groups| ==> groups[g] != []
    ensures |heads| == |groups| && forall g :: 0 <= g < |groups| ==> heads[g] == groups[g][0]
  {
    seq(|groups|, g requires 0 <= g < |groups| => groups[g][0])
  }

  /** The pairs shown in one window by the answers so far. */
  ghost function SeenPairs<T(!new)>(less: (T, T) -> bool, results: seq<Window<T>>): set<(T, T)>
  {
    if results == [] then {}
    else SeenPairs(less, results[..|results| - 1]) + PairsOf(less, results[|results| - 1])
  }

  /** The number of files of w never shown together with id. */
  function FreshLinks<T(==)>(less: (T, T) -> bool, observed: set<(T, T)>, w: seq<T>, id: T): nat
  {
    if w == [] then 0
    else FreshLinks(less, observed, w[..|w| - 1], id) + if Key(less, id, w[|w| - 1]) !in observed then 1 else 0
  }

  /** The score of a file: with how many files of the window it was never shown. */
  lemma {:induction false} FreshLinksCount<T(!new)>(less: (T, T) -> bool, observed: set<(T, T)>, w: seq<T>, id: T)
    requires StrictTotalOrder(less) && Sequences.Distinct(w) && id !in w && forall p :: p in observed ==> less(p.0, p.1)
    ensures FreshLinks(less, observed, w, id) == |Strangers(observed, w, id)|
  {
    if w != [] {
      FreshLinksCount(less, observed, w[..|w| - 1], id);
      LastPartner(less, observed, w, id);
    }
  }

  lemma {:induction false} SeenOrdered<T(!new)>(less: (T, T) -> bool, results: seq<Window<T>>, p: (T, T))
    requires p in SeenPairs(less, results)
    ensures less(p.0, p.1) && exists i :: 0 <= i < |results| && p.0 in results[i].ids && p.1 in results[i].ids
  {
    var n := |results| - 1;
    if p in SeenPairs(less, results[..n]) {
      SeenOrdered(less, results[..n], p);
      assert forall i :: 0 <= i < n ==> results[..n][i] == results[i];
    }
  }

  method ObservedPairs<T(!new, ==)>(less: (T, T) -> bool, results: seq<Window<T>>) returns (observed: set<(T, T)>)
    requires StrictTotalOrder(less) && forall i :: 0 <= i < |results| ==> Sequences.Distinct(results[i].ids)
    ensures observed == SeenPairs(less, results)
  {
    observed := {};
    for n := 0 to |results|
      invariant observed == SeenPairs(less, results[..n])
    {
      observed := AddPairs(less, results[n], observed);
      assert results[..n + 1][..n] == results[..n];
    }
    assert results[..|results|] == results;
  }

  method AddPairs<T(!new, ==)>(less: (T, T) -> bool, r: Window<T>, before: set<(T, T)>) returns (observed: set<(T, T)>)
    requires StrictTotalOrder(less) && Sequences.Distinct(r.ids)
    ensures observed == before + PairsOf(less, r)
  {
    observed := before;
    for i := 0 to |r.ids|
      invariant observed == before + Rows(less, r.ids, i)
    {
      for j := i + 1 to |r.ids|
        invariant observed == before + Rows(less, r.ids, i) + Row(less, r.ids, i, j)
      {
        observed := observed + {Key(less, r.ids[i], r.ids[j])};
      }
    }
    RowsArePairs(less, r);
  }

  /** A window around the first pair of files that no window has shown, if there is one. */
  function FreshScore<T(==)>(less: (T, T) -> bool, observed: set<(T, T)>): (seq<T>, T) -> nat
  {
    (w: seq<T>, id: T) => FreshLinks(less, observed, w, id)
  }

  /** A pair not shown together, and all pairs before it were. */
  ghost predicate FirstUnseen<T(!new)>(less: (T, T) -> bool, nodes: seq<T>, results: seq<Window<T>>, p: (T, T))
  {
    && p.0 in nodes && p.1 in nodes && less(p.0, p.1) && p !in SeenPairs(less, results)
    && forall q: (T, T) :: q.0 in nodes && q.1 in nodes && less(q.0, q.1) && PairLess(less, q, p) ==> q in SeenPairs(less, results)
  }

  /** The greedy window around two files. */
  method WindowAround<T(!new, ==)>(less: (T, T) -> bool, nodes: seq<T>, observed: set<(T, T)>, i: nat, j: nat) returns (w: seq<T>)
    requires StrictTotalOrder(less) && Ascending(less, Sort(less, nodes)) && (forall x :: x in Sort(less, nodes) <==> x in nodes)
    requires i < j < |Sort(less, nodes)|
    ensures var ids := Sort(less, nodes);
            && w != [] && IsWindow(less, Elements(nodes), w) && InWindow(w, (ids[i], ids[j]))
            && GreedyWindow(less, ids, ids[i], ids[j], w, FreshScore(less, observed))
  {
    var ids := Sort(less, nodes);
    var chosen := Extend(ids, ids[i], ids[j], FreshScore(less, observed));
    SortedWindow(less, Elements(nodes), chosen);
    w := Sort(less, chosen);
    assert chosen[..2] == [ids[i], ids[j]];
    assert chosen[0] in w && chosen[1] in w;
  }

  method AuditWindow<T(!new, ==)>(less: (T, T) -> bool, nodes: seq<T>, results: seq<Window<T>>) returns (w: seq<T>)
    requires StrictTotalOrder(less) && Sequences.Distinct(nodes) && forall i :: 0 <= i < |results| ==> Sequences.Distinct(results[i].ids)
    ensures w == [] ==> forall a, b :: a in nodes && b in nodes && less(a, b) ==> (a, b) in SeenPairs(less, results)
    ensures w != [] ==> IsWindow(less, Elements(nodes), w)
                        && exists p: (T, T) :: FirstUnseen(less, nodes, results, p) && InWindow(w, p)
                             && GreedyWindow(less, Sort(less, nodes), p.0, p.1, w, FreshScore(less, SeenPairs(less, results)))
  {
    SortAscending(less, nodes);
    var ids := Sort(less, nodes);
    var observed := ObservedPairs(less, results);
    for i := 0 to |ids|
      invariant forall x, y :: 0 <= x < i && x < y < |ids| ==> (ids[x], ids[y]) in observed
    {
      for j := i + 1 to |ids|
        invariant forall x, y :: 0 <= x < i && x < y < |ids| ==> (ids[x], ids[y]) in observed
        invariant forall y :: i < y < j ==> (ids[i], ids[y]) in observed
      {
        var p := (ids[i], ids[j]);
        if p !in observed {
          FirstIsFirst(less, nodes, results, ids, i, j);
          w := WindowAround(less, nodes, observed, i, j);
          return;
        }
      }
    }
    w := [];
    forall a, b | a in nodes && b in nodes && less(a, b) ensures (a, b) in observed {
      var x :| 0 <= x < |ids| && ids[x] == a;
      var y :| 0 <= y < |ids| && ids[y] == b;
    }
  }

  /** The nested search over sorted files meets the pairs in lexicographic order. */
  lemma FirstIsFirst<T(!new)>(less: (T, T) -> bool, nodes: seq<T>, results: seq<Window<T>>, ids: seq<T>, i: nat, j: nat)
    requires StrictTotalOrder(less) && Ascending(less, ids) && (forall x :: x in ids <==> x in nodes)
    requires i < j < |ids| && (ids[i], ids[j]) !in SeenPairs(less, results)
    requires forall x, y :: 0 <= x < i && x < y < |ids| ==> (ids[x], ids[y]) in SeenPairs(less, results)
    requires forall y :: i < y < j ==> (ids[i], ids[y]) in SeenPairs(less, results)
    ensures FirstUnseen(less, nodes, results, (ids[i], ids[j]))
  {
    assert ids[i] in ids && ids[j] in ids;
    forall q: (T, T) | q.0 in nodes && q.1 in nodes && less(q.0, q.1) && PairLess(less, q, (ids[i], ids[j]))
      ensures q in SeenPairs(less, results)
    {
      var x :| 0 <= x < |ids| && ids[x] == q.0;
      var y :| 0 <= y < |ids| && ids[y] == q.1;
      Ordered(less, ids, x, i);
      Ordered(less, ids, x, y);
      Ordered(less, ids, y, j);
      assert q == (ids[x], ids[y]);
    }
  }

  lemma Ordered<T(!new)>(less: (T, T) -> bool, ids: seq<T>, x: nat, y: nat)
    requires Ascending(less, ids) && x < |ids| && y < |ids|
    ensures (x < y ==> less(ids[x], ids[y])) && (y < x ==> less(ids[y], ids[x]))
  {
  }
}
