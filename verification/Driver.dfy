/**
 The query loop of tools/benchmark146/main.go:198-261. Every window is answered truthfully from
 one hidden partition of the files; the loop returns exactly that partition, and needs at most
 one bridge or audit window per pair of files.
 */
module Driver {
  import opened Sorting
  import opened Reconciliation
  import opened Windows
  import Sequences
  import Strings

  datatype Strategy = GraphOnly | Bridge | Audited
  datatype Stop = Complete | WindowBudget | BadGraph | Unresolved(reason: Reason)

  // ---------------------------------------------------------------- counting pairs of files

  ghost function AllPairs<T(!new)>(less: (T, T) -> bool, files: set<T>): set<(T, T)>
  {
    set a, b | a in files && b in files && less(a, b) :: (a, b)
  }

  ghost function PairsWith<T(!new)>(less: (T, T) -> bool, x: T, files: set<T>): set<(T, T)>
  {
    set y | y in files :: Key(less, x, y)
  }

  lemma {:induction false} PairsWithCount<T(!new)>(less: (T, T) -> bool, x: T, files: set<T>)
    requires StrictTotalOrder(less) && x !in files
    ensures |PairsWith(less, x, files)| == |files|
  {
    if files != {} {
      var y :| y in files;
      PairsWithCount(less, x, files - {y});
      assert PairsWith(less, x, files) == PairsWith(less, x, files - {y}) + {Key(less, x, y)};
      assert Key(less, x, y) !in PairsWith(less, x, files - {y});
    }
  }

  lemma PairsSplit<T(!new)>(less: (T, T) -> bool, x: T, rest: set<T>)
    requires StrictTotalOrder(less) && x !in rest
    ensures AllPairs(less, rest + {x}) == AllPairs(less, rest) + PairsWith(less, x, rest)
    ensures AllPairs(less, rest) !! PairsWith(less, x, rest)
  {
    forall p | p in AllPairs(less, rest + {x}) ensures p in AllPairs(less, rest) + PairsWith(less, x, rest) {
      if p.0 == x {
        assert p == Key(less, x, p.1) && p.1 in rest;
      } else if p.1 == x {
        assert p == Key(less, x, p.0) && p.0 in rest;
      }
    }
  }

  /** The number of pairs of n files. */
  function PairCount(n: nat): nat
  {
    if n == 0 then 0 else PairCount(n - 1) + (n - 1)
  }

  lemma {:induction false} PairCountClosed(n: nat)
    ensures PairCount(n) == n * (n - 1) / 2
  {
    if 0 < n {
      PairCountClosed(n - 1);
      assert n * (n - 1) == (n - 1) * (n - 2) + 2 * (n - 1);
    }
  }

  lemma {:induction false} AllPairsCount<T(!new)>(less: (T, T) -> bool, files: set<T>)
    requires StrictTotalOrder(less)
    ensures |AllPairs(less, files)| == PairCount(|files|)
  {
    if files != {} {
      var x :| x in files;
      AllPairsCount(less, files - {x});
      PairsGrow(less, x, files - {x});
      PutBack(files, x);
    }
  }

  lemma PutBack<T>(s: set<T>, x: T)
    requires x in s
    ensures s - {x} + {x} == s && |s| == |s - {x}| + 1
  {
  }

  lemma PairsGrow<T(!new)>(less: (T, T) -> bool, x: T, rest: set<T>)
    requires StrictTotalOrder(less) && x !in rest
    ensures |AllPairs(less, rest + {x})| == |AllPairs(less, rest)| + |rest|
  {
    PairsWithCount(less, x, rest);
    PairsSplit(less, x, rest);
  }

  // ---------------------------------------------------------------- the loop

  /** The answers so far: acceptable windows, answered truthfully. */
  ghost predicate TruthfulAnswers<T(!new)>(less: (T, T) -> bool, truth: map<T, T>, results: seq<Window<T>>)
  {
    forall i :: 0 <= i < |results| ==>
      IsWindow(less, truth.Keys, results[i].ids) && WellFormed(truth.Keys, results[i]) && Agrees(truth, results[i])
  }

  /** Truthful answers always leave the hidden partition possible, so they never contradict. */
  lemma TruthIsPartition<T(!new)>(less: (T, T) -> bool, truth: map<T, T>, results: seq<Window<T>>)
    requires TruthfulAnswers(less, truth, results)
    ensures IsPartition(truth.Keys, results, truth)
    ensures !NoPartition(truth.Keys, results)
  {
    assert IsPartition(truth.Keys, results, truth);
  }

  /** Asks the windows in turn until the budget is spent. */
  method AskAll<T(!new, ==)>(less: (T, T) -> bool, blank: T, ids: seq<T>, truth: map<T, T>, windows: seq<seq<T>>,
                             before: seq<Window<T>>, maxWindows: nat)
    returns (spent: bool, results: seq<Window<T>>)
    requires StrictTotalOrder(less) && ValidIds(blank, ids) && Elements(ids) == truth.Keys
    requires TruthfulAnswers(less, truth, before) && |before| <= maxWindows
    requires forall i :: 0 <= i < |windows| ==> IsWindow(less, truth.Keys, windows[i])
    ensures TruthfulAnswers(less, truth, results) && |results| <= maxWindows
    ensures before <= results
    ensures spent <==> maxWindows < |before| + |windows|
    ensures spent ==> |results| == maxWindows
    ensures !spent ==> |results| == |before| + |windows|
    ensures |results| <= |before| + |windows| && forall i :: 0 <= i < |results| - |before| ==> results[|before| + i].ids == windows[i]
  {
    results := before;
    for n := 0 to |windows|
      invariant TruthfulAnswers(less, truth, results)
      invariant before <= results && |results| == |before| + n <= maxWindows
      invariant forall i :: 0 <= i < n ==> results[|before| + i].ids == windows[i]
    {
      if |results| >= maxWindows {
        return true, results;
      }
      var r := AskOne(less, blank, ids, truth, windows[n], results);
      results := results + [r];
    }
    spent := false;
  }

  /** One answer, after which reconcile finds no contradiction. */
  method AskOne<T(!new, ==)>(less: (T, T) -> bool, blank: T, ids: seq<T>, truth: map<T, T>, window: seq<T>, before: seq<Window<T>>)
    returns (r: Window<T>)
    requires StrictTotalOrder(less) && ValidIds(blank, ids) && Elements(ids) == truth.Keys
    requires TruthfulAnswers(less, truth, before) && IsWindow(less, truth.Keys, window)
    ensures r.ids == window && TruthfulAnswers(less, truth, before + [r])
  {
    r := Local(less, truth, window);
    TruthfulMore(less, truth, before, r);
    TruthIsPartition(less, truth, before + [r]);
    ghost var roots, heads;
    var partial: Partition<T>;
    partial, roots, heads := Reconciliation.Reconcile(less, blank, ids, before + [r]);
    assert !IsContradiction(partial.reason);
  }

  lemma TruthfulMore<T(!new)>(less: (T, T) -> bool, truth: map<T, T>, before: seq<Window<T>>, r: Window<T>)
    requires TruthfulAnswers(less, truth, before)
    requires IsWindow(less, truth.Keys, r.ids) && WellFormed(truth.Keys, r) && Agrees(truth, r)
    ensures TruthfulAnswers(less, truth, before + [r])
  {
  }

  // ---------------------------------------------------------------- progress

  lemma {:induction false} SeenIff<T(!new)>(less: (T, T) -> bool, results: seq<Window<T>>, p: (T, T))
    ensures p in SeenPairs(less, results) <==> exists i :: 0 <= i < |results| && p in PairsOf(less, results[i])
  {
    if results != [] {
      var n := |results| - 1;
      SeenIff(less, results[..n], p);
      assert forall i :: 0 <= i < n ==> results[..n][i] == results[i];
    }
  }

  /** The pairs of files no window has shown. */
  ghost function Unseen<T(!new)>(less: (T, T) -> bool, files: set<T>, results: seq<Window<T>>): set<(T, T)>
  {
    AllPairs(less, files) - SeenPairs(less, results)
  }

  lemma UnseenShrinks<T(!new)>(less: (T, T) -> bool, files: set<T>, before: seq<Window<T>>, after: seq<Window<T>>)
    requires before <= after
    ensures Unseen(less, files, after) <= Unseen(less, files, before)
  {
    forall p | p in SeenPairs(less, before) ensures p in SeenPairs(less, after) {
      SeenIff(less, before, p);
      SeenIff(less, after, p);
      var i :| 0 <= i < |before| && p in PairsOf(less, before[i]);
      assert after[i] == before[i];
    }
  }

  /** Asking a window with an unseen pair leaves fewer unseen pairs. */
  lemma Progress<T(!new)>(less: (T, T) -> bool, files: set<T>, before: seq<Window<T>>, after: seq<Window<T>>, p: (T, T))
    requires before <= after && |after| == |before| + 1
    requires p in Unseen(less, files, before) && InWindow(after[|before|].ids, p)
    ensures |Unseen(less, files, after)| < |Unseen(less, files, before)|
  {
    UnseenShrinks(less, files, before, after);
    assert p in PairsOf(less, after[|before|]);
    SeenIff(less, after, p);
    SubsetCardinality(Unseen(less, files, after), Unseen(less, files, before) - {p});
  }

  /** An open pair of reconcile has not been seen. */
  lemma OpenPairUnseen<T(!new)>(less: (T, T) -> bool, ids: seq<T>, results: seq<Window<T>>, heads: seq<T>, q: (T, T))
    requires OpenPair(less, ids, results, heads, q)
    ensures q in Unseen(less, Elements(ids), results)
  {
    SeenIff(less, results, q);
  }

  // ---------------------------------------------------------------- the driver

  /** The window asked next: around the first open pair, or, for the audit of a settled partition, around the first unseen one. */
  ghost predicate NextAfter<T(!new)>(less: (T, T) -> bool, nodes: seq<T>, strategy: Strategy, results: seq<Window<T>>, w: seq<T>)
  {
    exists p :: Reconciled(less, nodes, results, p) && Chosen(less, nodes, strategy, results, p, w)
  }

  /** The partition is what reconcile makes of the answers. */
  ghost predicate Reconciled<T(!new)>(less: (T, T) -> bool, nodes: seq<T>, results: seq<Window<T>>, p: Partition<T>)
  {
    exists roots, heads :: Combined(less, Sort(less, nodes), results, p, roots, heads)
  }

  ghost predicate Chosen<T(!new)>(less: (T, T) -> bool, nodes: seq<T>, strategy: Strategy, results: seq<Window<T>>, p: Partition<T>, w: seq<T>)
  {
    if p.unknown == [] then strategy.Audited? && AuditsFirst(less, nodes, results, w)
    else !strategy.GraphOnly? && BridgesFirst(less, p, w)
  }

  ghost predicate AuditsFirst<T(!new)>(less: (T, T) -> bool, nodes: seq<T>, results: seq<Window<T>>, w: seq<T>)
  {
    exists q: (T, T) :: FirstUnseen(less, nodes, results, q) && InWindow(w, q)
                        && GreedyWindow(less, Sort(less, nodes), q.0, q.1, w, FreshScore(less, SeenPairs(less, results)))
  }

  ghost predicate BridgesFirst<T(!new)>(less: (T, T) -> bool, p: Partition<T>, w: seq<T>)
  {
    && p.unknown != [] && (forall g :: 0 <= g < |p.groups| ==> p.groups[g] != [])
    && GreedyWindow(less, Heads(p.groups), p.unknown[0].0, p.unknown[0].1, w, OpenScore(p.unknown))
  }

  /** The initial windows come first, and every later one is chosen by what was answered before it. */
  ghost predicate Guided<T(!new)>(less: (T, T) -> bool, nodes: seq<T>, strategy: Strategy, initial: seq<seq<T>>, results: seq<Window<T>>)
  {
    forall n :: 0 <= n < |results| ==> GuidedAt(less, nodes, strategy, initial, results, n)
  }

  ghost predicate GuidedAt<T(!new)>(less: (T, T) -> bool, nodes: seq<T>, strategy: Strategy, initial: seq<seq<T>>, results: seq<Window<T>>, n: nat)
    requires n < |results|
  {
    if n < |initial| then results[n].ids == initial[n] else NextAfter(less, nodes, strategy, results[..n], results[n].ids)
  }

  /** The next windows: the initial plan, or one window with a pair not seen before. */
  ghost predicate Pending<T(!new)>(less: (T, T) -> bool, files: set<T>, initial: seq<seq<T>>, results: seq<Window<T>>, windows: seq<seq<T>>)
  {
    && (forall i :: 0 <= i < |windows| ==> IsWindow(less, files, windows[i]))
    && if results == [] then windows == initial
       else |windows| == 1 && exists p :: p in Unseen(less, files, results) && InWindow(windows[0], p)
  }

  /** The next windows are the ones the source asks. */
  ghost predicate Directed<T(!new)>(less: (T, T) -> bool, nodes: seq<T>, strategy: Strategy, initial: seq<seq<T>>,
                                    results: seq<Window<T>>, windows: seq<seq<T>>)
  {
    if results == [] then windows == initial else |windows| == 1 && NextAfter(less, nodes, strategy, results, windows[0])
  }

  /** Every initial window has been asked. */
  ghost predicate AskedInitial<T(!new)>(initial: seq<seq<T>>, results: seq<Window<T>>)
  {
    |initial| <= |results| && forall i :: 0 <= i < |initial| ==> results[i].ids == initial[i]
  }

  lemma InitialCovers<T(!new)>(less: (T, T) -> bool, graph: Graph<T>, initial: seq<seq<T>>, results: seq<Window<T>>)
    requires ShowsGraph(less, graph, initial) && AskedInitial(initial, results)
    ensures Covers(Elements(graph.nodes), results)
  {
    forall id | id in graph.nodes ensures Shown(results, id) {
      var i :| 0 <= i < |initial| && id in initial[i];
      assert id in results[i].ids;
    }
  }

  lemma SettledIsTruth<T(!new)>(less: (T, T) -> bool, truth: map<T, T>, results: seq<Window<T>>, roots: map<T, T>, heads: seq<T>, groups: seq<seq<T>>)
    requires StrictTotalOrder(less) && TruthfulAnswers(less, truth, results)
    requires OnlyPartition(truth.Keys, results, roots) && Classes(less, roots, heads, groups)
    ensures GroupsAre(groups, truth)
  {
    TruthIsPartition(less, truth, results);
    ClassesOfTruth(less, truth, roots, heads, groups);
  }

  lemma ClassesOfTruth<T(!new)>(less: (T, T) -> bool, truth: map<T, T>, roots: map<T, T>, heads: seq<T>, groups: seq<seq<T>>)
    requires StrictTotalOrder(less) && roots.Keys == truth.Keys
    requires SamePartition(truth.Keys, roots, truth) && Classes(less, roots, heads, groups)
    ensures GroupsAre(groups, truth)
  {
    AllInClasses(less, truth, roots, heads, groups);
    forall g, h, a, b | 0 <= g < |groups| && 0 <= h < |groups| && a in groups[g] && b in groups[h]
      ensures a in truth && b in truth && (g == h <==> truth[a] == truth[b])
    {
      TruthTellsApart(less, truth, roots, heads, groups, g, h, a, b);
    }
  }

  lemma AllInClasses<T(!new)>(less: (T, T) -> bool, truth: map<T, T>, roots: map<T, T>, heads: seq<T>, groups: seq<seq<T>>)
    requires roots.Keys == truth.Keys && Classes(less, roots, heads, groups)
    ensures forall id :: id in truth ==> exists g :: 0 <= g < |groups| && id in groups[g]
  {
    forall id | id in truth ensures exists g :: 0 <= g < |groups| && id in groups[g] {
      assert id in roots.Keys;
      var g := ClassOf(less, roots, heads, groups, id);
    }
  }

  lemma TruthTellsApart<T(!new)>(less: (T, T) -> bool, truth: map<T, T>, roots: map<T, T>, heads: seq<T>, groups: seq<seq<T>>,
                                 g: nat, h: nat, a: T, b: T)
    requires StrictTotalOrder(less) && roots.Keys == truth.Keys && SamePartition(truth.Keys, roots, truth)
    requires Classes(less, roots, heads, groups) && g < |groups| && h < |groups| && a in groups[g] && b in groups[h]
    ensures a in truth && b in truth && (g == h <==> truth[a] == truth[b])
  {
    TwoClasses(less, roots, heads, groups, g, h, a, b);
    assert a in truth.Keys && b in truth.Keys;
  }

  lemma ClassOf<T(!new)>(less: (T, T) -> bool, roots: map<T, T>, heads: seq<T>, groups: seq<seq<T>>, id: T) returns (g: nat)
    requires Classes(less, roots, heads, groups) && id in roots
    ensures g < |groups| && id in groups[g]
  {
    g :| 0 <= g < |heads| && heads[g] == roots[id];
    assert IsClass(less, roots, heads[g], groups[g]);
  }

  lemma TwoClasses<T(!new)>(less: (T, T) -> bool, roots: map<T, T>, heads: seq<T>, groups: seq<seq<T>>, g: nat, h: nat, a: T, b: T)
    requires StrictTotalOrder(less) && Classes(less, roots, heads, groups) && g < |heads| && h < |heads| && a in groups[g] && b in groups[h]
    ensures a in roots && b in roots && (g == h <==> roots[a] == roots[b])
  {
    assert IsClass(less, roots, heads[g], groups[g]) && IsClass(less, roots, heads[h], groups[h]);
    assert g < h ==> less(heads[g], heads[h]);
    assert h < g ==> less(heads[h], heads[g]);
  }

  /** What stopping means: the hidden partition, or (graph-only) an admitted ambiguity. */
  ghost predicate Verdict<T(!new)>(less: (T, T) -> bool, truth: map<T, T>, strategy: Strategy, results: seq<Window<T>>,
                                   stop: Stop, groups: seq<seq<T>>)
  {
    if stop.Complete? then
      GroupsAre(groups, truth) && (strategy.Audited? ==> AllPairs(less, truth.Keys) <= SeenPairs(less, results))
    else
      strategy.GraphOnly? && stop == Unresolved(UnobservedGroupRelation) && SeveralPartitions(truth.Keys, results)
  }

  /** The answers given and the pairs still unseen stay within the initial windows plus one per pair. */
  ghost predicate Accounted<T(!new)>(less: (T, T) -> bool, files: set<T>, initial: seq<seq<T>>, results: seq<Window<T>>)
  {
    results != [] ==> AskedInitial(initial, results) && |results| + |Unseen(less, files, results)| <= |initial| + |AllPairs(less, files)|
  }

  /** One round after the windows are answered: stop, or choose the next windows. */
  method Decide<T(!new, ==)>(less: (T, T) -> bool, blank: T, graph: Graph<T>, truth: map<T, T>, strategy: Strategy,
                             initial: seq<seq<T>>, results: seq<Window<T>>)
    returns (done: bool, stop: Stop, groups: seq<seq<T>>, windows: seq<seq<T>>)
    requires StrictTotalOrder(less) && ValidIds(blank, graph.nodes) && Elements(graph.nodes) == truth.Keys
    requires TruthfulAnswers(less, truth, results) && ShowsGraph(less, graph, initial) && AskedInitial(initial, results) && results != []
    ensures done ==> Verdict(less, truth, strategy, results, stop, groups)
    ensures !done ==> Pending(less, truth.Keys, initial, results, windows) && Directed(less, graph.nodes, strategy, initial, results, windows)
  {
    var p := ReconcileTruthful(less, blank, graph, truth, initial, results);
    var settled := p.reason.Settled?;
    done, groups, windows := settled || strategy.GraphOnly?, p.groups, [];
    stop := if settled then Complete else Unresolved(UnobservedGroupRelation);
    if settled && strategy.Audited? {
      done, windows := AuditRound(less, graph, truth, results, p);
    } else if !settled && !strategy.GraphOnly? {
      windows := BridgeRound(less, graph.nodes, truth.Keys, strategy, results, p);
    }
  }

  method NextAudit<T(!new, ==)>(less: (T, T) -> bool, graph: Graph<T>, truth: map<T, T>, results: seq<Window<T>>)
    returns (done: bool, windows: seq<seq<T>>)
    requires StrictTotalOrder(less) && Sequences.Distinct(graph.nodes) && Elements(graph.nodes) == truth.Keys
    requires TruthfulAnswers(less, truth, results) && results != []
    ensures done ==> AllPairs(less, truth.Keys) <= SeenPairs(less, results)
    ensures !done ==> Pending(less, truth.Keys, [], results, windows) && AuditsFirst(less, graph.nodes, results, windows[0])
  {
    var w := AuditWindow(less, graph.nodes, results);
    windows := [w];
    done := |w| == 0;
    if !done {
      AuditShowsUnseen(less, graph.nodes, results, w);
    }
  }

  /** The audit of a settled partition. */
  method AuditRound<T(!new, ==)>(less: (T, T) -> bool, graph: Graph<T>, truth: map<T, T>, results: seq<Window<T>>, ghost p: Partition<T>)
    returns (done: bool, windows: seq<seq<T>>)
    requires StrictTotalOrder(less) && Sequences.Distinct(graph.nodes) && Elements(graph.nodes) == truth.Keys
    requires TruthfulAnswers(less, truth, results) && results != []
    requires Reconciled(less, graph.nodes, results, p) && p.unknown == []
    ensures done ==> AllPairs(less, truth.Keys) <= SeenPairs(less, results)
    ensures !done ==> Pending(less, truth.Keys, [], results, windows) && Directed(less, graph.nodes, Audited, [], results, windows)
  {
    done, windows := NextAudit(less, graph, truth, results);
    if !done {
      AuditIsNext(less, graph.nodes, results, windows[0], p);
    }
  }

  lemma AuditShowsUnseen<T(!new)>(less: (T, T) -> bool, nodes: seq<T>, results: seq<Window<T>>, w: seq<T>)
    requires AuditsFirst(less, nodes, results, w)
    ensures exists q :: q in Unseen(less, Elements(nodes), results) && InWindow(w, q)
  {
    var q: (T, T) :| FirstUnseen(less, nodes, results, q) && InWindow(w, q)
                     && GreedyWindow(less, Sort(less, nodes), q.0, q.1, w, FreshScore(less, SeenPairs(less, results)));
    assert q in Unseen(less, Elements(nodes), results);
  }

  lemma AuditIsNext<T(!new)>(less: (T, T) -> bool, nodes: seq<T>, results: seq<Window<T>>, w: seq<T>, p: Partition<T>)
    requires Reconciled(less, nodes, results, p) && p.unknown == [] && AuditsFirst(less, nodes, results, w)
    ensures NextAfter(less, nodes, Audited, results, w)
  {
    assert Chosen(less, nodes, Audited, results, p, w);
  }

  /** With truthful answers to the initial windows, reconcile either settles on the truth or leaves pairs open. */
  method ReconcileTruthful<T(!new, ==)>(less: (T, T) -> bool, blank: T, graph: Graph<T>, truth: map<T, T>,
                                        initial: seq<seq<T>>, results: seq<Window<T>>)
    returns (p: Partition<T>)
    requires StrictTotalOrder(less) && ValidIds(blank, graph.nodes) && Elements(graph.nodes) == truth.Keys
    requires TruthfulAnswers(less, truth, results) && ShowsGraph(less, graph, initial) && AskedInitial(initial, results)
    ensures p.reason.Settled? || p.reason.UnobservedGroupRelation?
    ensures Reconciled(less, graph.nodes, results, p)
    ensures p.reason.Settled? ==> p.unknown == [] && GroupsAre(p.groups, truth)
    ensures p.reason.UnobservedGroupRelation? ==> Bridgeable(less, truth.Keys, results, p) && SeveralPartitions(truth.Keys, results)
  {
    SortAscending(less, graph.nodes);
    var ids := Sort(less, graph.nodes);
    AscendingDistinct(less, ids);
    assert Elements(ids) == truth.Keys;
    InitialCovers(less, graph, initial, results);
    TruthIsPartition(less, truth, results);
    ghost var roots, heads;
    p, roots, heads := Reconciliation.Reconcile(less, blank, ids, results);
    if p.reason.Settled? {
      SettledIsTruth(less, truth, results, roots, heads, p.groups);
    } else {
      OpenPairBridges(less, ids, results, p, roots, heads);
    }
  }

  ghost predicate HeadOf<T(!new)>(groups: seq<seq<T>>, id: T)
  {
    exists g :: 0 <= g < |groups| && |groups[g]| > 0 && groups[g][0] == id
  }

  /** The first open pair is unseen and joins two class heads. */
  ghost predicate Bridgeable<T(!new)>(less: (T, T) -> bool, files: set<T>, results: seq<Window<T>>, p: Partition<T>)
  {
    && |p.unknown| > 0 && p.unknown[0] in Unseen(less, files, results)
    && (forall g :: 0 <= g < |p.groups| ==> |p.groups[g]| > 0 && p.groups[g][0] in files)
    && HeadOf(p.groups, p.unknown[0].0) && HeadOf(p.groups, p.unknown[0].1)
  }

  lemma OpenPairBridges<T(!new)>(less: (T, T) -> bool, ids: seq<T>, results: seq<Window<T>>, p: Partition<T>, roots: map<T, T>, heads: seq<T>)
    requires Combined(less, ids, results, p, roots, heads) && p.reason.UnobservedGroupRelation?
    ensures Bridgeable(less, Elements(ids), results, p)
  {
    var q := p.unknown[0];
    OpenPairUnseen(less, ids, results, heads, q);
    forall g | 0 <= g < |p.groups| ensures |p.groups[g]| > 0 && p.groups[g][0] == heads[g] && heads[g] in ids {
      assert IsClass(less, roots, heads[g], p.groups[g]);
      HeadIsRoot(less, roots, heads, p.groups, g);
    }
    var i, j :| 0 <= i < j < |heads| && q == (heads[i], heads[j]);
    assert p.groups[i][0] == q.0 && p.groups[j][0] == q.1;
  }

  method NextBridge<T(!new, ==)>(less: (T, T) -> bool, files: set<T>, results: seq<Window<T>>, p: Partition<T>) returns (windows: seq<seq<T>>)
    requires StrictTotalOrder(less) && Bridgeable(less, files, results, p) && results != []
    ensures Pending(less, files, [], results, windows) && BridgesFirst(less, p, windows[0])
  {
    var w := BridgeWindow(less, p);
    windows := [w];
    assert InWindow(w, p.unknown[0]);
  }

  /** A bridge between classes that are still open. */
  method BridgeRound<T(!new, ==)>(less: (T, T) -> bool, ghost nodes: seq<T>, files: set<T>, ghost strategy: Strategy,
                                  results: seq<Window<T>>, p: Partition<T>)
    returns (windows: seq<seq<T>>)
    requires StrictTotalOrder(less) && Bridgeable(less, files, results, p) && results != []
    requires Reconciled(less, nodes, results, p) && !strategy.GraphOnly?
    ensures Pending(less, files, [], results, windows) && Directed(less, nodes, strategy, [], results, windows)
  {
    windows := NextBridge(less, files, results, p);
    BridgeIsNext(less, nodes, strategy, results, windows[0], p);
  }

  lemma BridgeIsNext<T(!new)>(less: (T, T) -> bool, nodes: seq<T>, strategy: Strategy, results: seq<Window<T>>, w: seq<T>, p: Partition<T>)
    requires Reconciled(less, nodes, results, p) && BridgesFirst(less, p, w) && !strategy.GraphOnly?
    ensures NextAfter(less, nodes, strategy, results, w)
  {
    assert Chosen(less, nodes, strategy, results, p, w);
  }

  /**
   Runs a strategy within a window budget. With the bridge or audit strategy and a budget of the
   initial windows plus one per pair of files, it ends with exactly the hidden partition.
   */
  method Run<T(!new, ==)>(less: (T, T) -> bool, blank: T, graph: Graph<T>, truth: map<T, T>, strategy: Strategy, maxWindows: nat)
    returns (stop: Stop, groups: seq<seq<T>>, results: seq<Window<T>>, plan: Plan<T>)
    requires StrictTotalOrder(less) && Elements(graph.nodes) == truth.Keys
    ensures stop.BadGraph? <==> !plan.Planned?
    ensures stop.Complete? || stop.Unresolved? ==> Verdict(less, truth, strategy, results, stop, groups)
    ensures |results| <= maxWindows
    ensures plan.Planned? ==> Guided(less, graph.nodes, strategy, plan.windows, results)
    ensures stop.WindowBudget? ==> |results| == maxWindows && Unfinished(less, graph.nodes, strategy, plan, results)
    ensures plan.Planned? ==> |results| <= |plan.windows| + PairCount(|truth.Keys|)
    ensures plan.Planned? && !strategy.GraphOnly? && |plan.windows| + PairCount(|truth.Keys|) <= maxWindows ==> stop.Complete?
  {
    groups, results, stop := [], [], WindowBudget;
    plan := InitialWindows(less, blank, graph);
    if !plan.Planned? {
      return BadGraph, groups, results, plan;
    }
    AllPairsCount(less, truth.Keys);
    PlanNonEmpty(less, graph, plan.windows);
    var windows := plan.windows;
    var done := false;
    while !done
      invariant TruthfulAnswers(less, truth, results) && |results| <= maxWindows
      invariant Guided(less, graph.nodes, strategy, plan.windows, results)
      invariant !done ==> Pending(less, truth.Keys, plan.windows, results, windows)
      invariant !done ==> Directed(less, graph.nodes, strategy, plan.windows, results, windows)
      invariant Accounted(less, truth.Keys, plan.windows, results)
      invariant |results| <= |plan.windows| + |AllPairs(less, truth.Keys)|
      invariant done ==> Verdict(less, truth, strategy, results, stop, groups)
      decreases !done, |Unseen(less, truth.Keys, results)| + if results == [] then 1 else 0
    {
      ghost var before := results;
      var spent;
      spent, results := AskAll(less, blank, graph.nodes, truth, windows, results, maxWindows);
      Asked(less, truth.Keys, plan.windows, before, windows, results, spent);
      StillGuided(less, graph.nodes, strategy, plan.windows, before, windows, results);
      if spent {
        SpentUnfinished(less, graph.nodes, strategy, plan.windows, before, windows, results);
        return WindowBudget, groups, results, plan;
      }
      done, stop, groups, windows := Decide(less, blank, graph, truth, strategy, plan.windows, results);
    }
  }

  lemma PlanNonEmpty<T(!new)>(less: (T, T) -> bool, graph: Graph<T>, windows: seq<seq<T>>)
    requires graph.nodes != [] && ShowsGraph(less, graph, windows)
    ensures windows != []
  {
    assert FileShown(windows, graph.nodes[0]);
  }

  /** What one round of asking does to the set of unseen pairs. */
  lemma Asked<T(!new)>(less: (T, T) -> bool, files: set<T>, initial: seq<seq<T>>, before: seq<Window<T>>, windows: seq<seq<T>>,
                       after: seq<Window<T>>, spent: bool)
    requires Pending(less, files, initial, before, windows) && before <= after && initial != []
    requires Accounted(less, files, initial, before)
    requires spent ==> |after| < |before| + |windows|
    requires !spent ==> |after| == |before| + |windows| && forall i :: 0 <= i < |windows| ==> after[|before| + i].ids == windows[i]
    ensures |after| <= |initial| + |AllPairs(less, files)|
    ensures spent ==> |after| < |initial| + |AllPairs(less, files)|
    ensures !spent ==> after != [] && AskedInitial(initial, after) && Accounted(less, files, initial, after)
    ensures !spent ==> before == [] || |Unseen(less, files, after)| < |Unseen(less, files, before)|
    ensures |Unseen(less, files, after)| <= |Unseen(less, files, before)|
  {
    UnseenShrinks(less, files, before, after);
    SubsetCardinality(Unseen(less, files, after), Unseen(less, files, before));
    SubsetCardinality(Unseen(less, files, after), AllPairs(less, files));
    if before == [] {
      if !spent {
        forall i | 0 <= i < |initial| ensures after[i].ids == initial[i] {
          assert after[|before| + i].ids == windows[i];
        }
      }
    } else {
      var p :| p in Unseen(less, files, before) && InWindow(windows[0], p);
      SubsetCardinality({p}, Unseen(less, files, before));
      if !spent {
        assert after[|before| + 0].ids == windows[0];
        Progress(less, files, before, after, p);
      }
    }
  }

  /** The plan is not finished: an initial window is left, or another one would follow. */
  ghost predicate Unfinished<T(!new)>(less: (T, T) -> bool, nodes: seq<T>, strategy: Strategy, plan: Plan<T>, results: seq<Window<T>>)
  {
    plan.Planned? && (|results| < |plan.windows| || exists w :: NextAfter(less, nodes, strategy, results, w))
  }

  lemma StillGuided<T(!new)>(less: (T, T) -> bool, nodes: seq<T>, strategy: Strategy, initial: seq<seq<T>>, before: seq<Window<T>>,
                             windows: seq<seq<T>>, after: seq<Window<T>>)
    requires Directed(less, nodes, strategy, initial, before, windows) && before <= after && |after| <= |before| + |windows|
    requires before != [] ==> |initial| <= |before|
    requires forall i :: 0 <= i < |after| - |before| ==> after[|before| + i].ids == windows[i]
    requires Guided(less, nodes, strategy, initial, before)
    ensures Guided(less, nodes, strategy, initial, after)
  {
    forall n | 0 <= n < |after| ensures GuidedAt(less, nodes, strategy, initial, after, n) {
      if n < |before| {
        GuidedBefore(less, nodes, strategy, initial, before, after, n);
      } else {
        assert after[|before| + (n - |before|)].ids == windows[n - |before|];
        if before != [] {
          assert after[..n] == before;
        }
      }
    }
  }

  lemma GuidedBefore<T(!new)>(less: (T, T) -> bool, nodes: seq<T>, strategy: Strategy, initial: seq<seq<T>>, before: seq<Window<T>>,
                              after: seq<Window<T>>, n: nat)
    requires n < |before| && before <= after && GuidedAt(less, nodes, strategy, initial, before, n)
    ensures GuidedAt(less, nodes, strategy, initial, after, n)
  {
    assert after[..n] == before[..n] && after[n] == before[n];
  }

  lemma SpentUnfinished<T(!new)>(less: (T, T) -> bool, nodes: seq<T>, strategy: Strategy, initial: seq<seq<T>>, before: seq<Window<T>>,
                                 windows: seq<seq<T>>, after: seq<Window<T>>)
    requires Directed(less, nodes, strategy, initial, before, windows) && before <= after && |after| < |before| + |windows|
    ensures Unfinished(less, nodes, strategy, Planned(initial), after)
  {
    if before != [] {
      assert after == before;
      assert NextAfter(less, nodes, strategy, after, windows[0]);
    }
  }

  // ---------------------------------------------------------------- truthful answers

  /** The groups list the classes of the hidden partition: every file once, together exactly when they belong together. */
  ghost predicate GroupsAre<T(!new)>(groups: seq<seq<T>>, truth: map<T, T>)
  {
    && (forall g, id :: 0 <= g < |groups| && id in groups[g] ==> id in truth)
    && (forall id :: id in truth ==> exists g :: 0 <= g < |groups| && id in groups[g])
    && (forall g, h, a, b :: 0 <= g < |groups| && 0 <= h < |groups| && a in groups[g] && b in groups[h] ==>
          (g == h <==> truth[a] == truth[b]))
  }

  /** The files of w with truth c, in the order of w. */
  function SameAs<T(==, !new)>(truth: map<T, T>, w: seq<T>, c: T): (group: seq<T>)
    requires forall id :: id in w ==> id in truth
    ensures forall id :: id in group <==> id in w && truth[id] == c
    ensures Sequences.Distinct(w) ==> Sequences.Distinct(group)
  {
    if w == [] then []
    else
      var n := |w| - 1;
      assert w == w[..n] + [w[n]];
      SameAs(truth, w[..n], c) + if truth[w[n]] == c then [w[n]] else []
  }

  /** The groups are the classes of w with the given distinct values of truth. */
  ghost predicate ClassesOf<T(!new)>(truth: map<T, T>, w: seq<T>, labels: seq<T>, groups: seq<seq<T>>)
    requires forall id :: id in w ==> id in truth
  {
    && |groups| == |labels| && Sequences.Distinct(labels)
    && (forall g :: 0 <= g < |groups| ==> groups[g] == SameAs(truth, w, labels[g]))
    && (forall c :: c in labels ==> exists id :: id in w && truth[id] == c)
  }

  /** One local answer, grouping the window's files by the hidden partition. */
  method Local<T(!new, ==)>(less: (T, T) -> bool, truth: map<T, T>, w: seq<T>) returns (r: Window<T>)
    requires IsWindow(less, truth.Keys, w)
    ensures r.ids == w && WellFormed(truth.Keys, r) && Agrees(truth, r)
  {
    var groups: seq<seq<T>> := [];
    var labels: seq<T> := [];
    for n := 0 to |w|
      invariant ClassesOf(truth, w, labels, groups)
      invariant forall i :: 0 <= i < n ==> truth[w[i]] in labels
    {
      var c := truth[w[n]];
      if c !in labels {
        assert w[n] in w;
        labels := labels + [c];
        groups := groups + [SameAs(truth, w, c)];
      }
    }
    r := Window(w, groups);
    ClassesAnswer(truth, r, labels);
  }

  lemma ClassesAnswer<T(!new)>(truth: map<T, T>, r: Window<T>, labels: seq<T>)
    requires 1 <= |r.ids| <= 4 && Sequences.Distinct(r.ids) && forall id :: id in r.ids ==> id in truth
    requires ClassesOf(truth, r.ids, labels, r.groups) && forall id :: id in r.ids ==> truth[id] in labels
    ensures WellFormed(truth.Keys, r) && Agrees(truth, r)
  {
    forall g, id ensures InGroup(r, g, id) <==> 0 <= g < |labels| && id in r.ids && truth[id] == labels[g] {
    }
    forall id | id in r.ids ensures exists g :: InGroup(r, g, id) {
      var g :| 0 <= g < |labels| && labels[g] == truth[id];
      assert InGroup(r, g, id);
    }
    forall g | 0 <= g < |r.groups| ensures r.groups[g] != [] && Sequences.Distinct(r.groups[g]) {
      assert labels[g] in labels;
      var id :| id in r.ids && truth[id] == labels[g];
      assert id in r.groups[g];
    }
    forall a, b | a in r.ids && b in r.ids ensures truth[a] == truth[b] <==> SameGroup(r, a, b) {
      var g :| InGroup(r, g, a);
      assert truth[a] == truth[b] ==> InGroup(r, g, b);
    }
  }

  /** File IDs are Go strings in their own order, and an ID is not empty. */
  method RunOnFiles(graph: Graph<string>, truth: map<string, string>, strategy: Strategy, maxWindows: nat)
    returns (stop: Stop, groups: seq<seq<string>>, results: seq<Window<string>>, plan: Plan<string>)
    requires Elements(graph.nodes) == truth.Keys
    ensures stop.BadGraph? <==> !plan.Planned?
    ensures stop.Complete? || stop.Unresolved? ==> Verdict(Strings.Less, truth, strategy, results, stop, groups)
    ensures |results| <= maxWindows
    ensures plan.Planned? ==> Guided(Strings.Less, graph.nodes, strategy, plan.windows, results)
    ensures stop.WindowBudget? ==> |results| == maxWindows && Unfinished(Strings.Less, graph.nodes, strategy, plan, results)
    ensures plan.Planned? && !strategy.GraphOnly? && |plan.windows| + PairCount(|truth.Keys|) <= maxWindows ==> stop.Complete?
  {
    Strings.LessIsStrictTotalOrder();
    stop, groups, results, plan := Run(Strings.Less, "", graph, truth, strategy, maxWindows);
  }
}
