/**
 Reconciliation of local same/different answers into one partition of the files
 (tools/benchmark146/architecture.go:12-138). A partition of the files is a labelling of them;
 it agrees with the answers when, in every window, files share a part exactly when the window
 put them in one group.
 */
module Reconciliation {
  import opened Sorting
  import opened UnionFind
  import Sequences

  datatype Window<T> = Window(ids: seq<T>, groups: seq<seq<T>>)

  datatype Reason =
    | Settled
    | InvalidSelectedIds
    | InvalidWindowSize
    | UnknownOrDuplicateWindowId
    | EmptyLocalGroup
    | UnknownLocalId
    | DuplicateLocalId
    | MissingLocalId
    | ContradictoryPair
    | MissingGlobalId
    | TransitiveContradiction
    | UnobservedGroupRelation

  datatype Partition<T> = Partition(groups: seq<seq<T>>, unknown: seq<(T, T)>, reason: Reason)

  function Key<T>(less: (T, T) -> bool, a: T, b: T): (T, T)
  {
    if less(b, a) then (b, a) else (a, b)
  }

  function Failed<T>(reason: Reason): Partition<T> { Partition([], [], reason) }

  // ---------------------------------------------------------------- meaning

  ghost predicate ValidIds<T>(blank: T, ids: seq<T>)
  {
    blank !in ids && Sequences.Distinct(ids)
  }

  ghost predicate InGroup<T>(w: Window<T>, g: int, id: T)
  {
    0 <= g < |w.groups| && id in w.groups[g]
  }

  ghost predicate SameGroup<T>(w: Window<T>, a: T, b: T)
  {
    exists g :: InGroup(w, g, a) && InGroup(w, g, b)
  }

  /** At most four distinct known files, each of them in exactly one place of one non-empty group. */
  ghost predicate WellFormed<T(!new)>(known: set<T>, w: Window<T>)
  {
    && 1 <= |w.ids| <= 4
    && Sequences.Distinct(w.ids) && (forall id :: id in w.ids ==> id in known)
    && (forall g :: 0 <= g < |w.groups| ==> w.groups[g] != [] && Sequences.Distinct(w.groups[g]))
    && (forall g, id :: InGroup(w, g, id) ==> id in w.ids)
    && (forall g, h, id :: InGroup(w, g, id) && InGroup(w, h, id) ==> g == h)
    && (forall id :: id in w.ids ==> exists g :: InGroup(w, g, id))
  }

  /** The labelling puts two files of a window together exactly when the window's answer does. */
  ghost predicate Agrees<T(!new)>(part: map<T, T>, w: Window<T>)
  {
    forall a, b :: a in w.ids && b in w.ids ==> a in part && b in part && (part[a] == part[b] <==> SameGroup(w, a, b))
  }

  ghost predicate IsPartition<T(!new)>(known: set<T>, results: seq<Window<T>>, part: map<T, T>)
  {
    part.Keys == known && forall i :: 0 <= i < |results| ==> Agrees(part, results[i])
  }

  ghost predicate SamePartition<T(!new)>(known: set<T>, l: map<T, T>, m: map<T, T>)
    requires l.Keys == known && m.Keys == known
  {
    forall a, b :: a in known && b in known ==> (l[a] == l[b] <==> m[a] == m[b])
  }

  ghost predicate NoPartition<T(!new)>(known: set<T>, results: seq<Window<T>>)
  {
    forall l :: !IsPartition(known, results, l)
  }

  ghost predicate OnlyPartition<T(!new)>(known: set<T>, results: seq<Window<T>>, l: map<T, T>)
  {
    IsPartition(known, results, l) && forall m :: IsPartition(known, results, m) ==> SamePartition(known, l, m)
  }

  ghost predicate SeveralPartitions<T(!new)>(known: set<T>, results: seq<Window<T>>)
  {
    exists l, m :: IsPartition(known, results, l) && IsPartition(known, results, m) && !SamePartition(known, l, m)
  }

  // ---------------------------------------------------------------- one window

  method CheckIds<T(!new, ==)>(known: set<T>, ids: seq<T>) returns (ok: bool, supplied: set<T>)
    ensures ok <==> Sequences.Distinct(ids) && forall id :: id in ids ==> id in known
    ensures ok ==> supplied == Elements(ids)
  {
    supplied := {};
    for i := 0 to |ids|
      invariant Sequences.Distinct(ids[..i]) && supplied == Elements(ids[..i]) && supplied <= known
    {
      Sequences.TakeSnoc(ids, i);
      if ids[i] !in known || ids[i] in supplied {
        return false, supplied;
      }
      supplied := supplied + {ids[i]};
    }
    assert ids[..|ids|] == ids;
    ok := true;
  }

  /** members numbers exactly the files of the first n groups, which are in order. */
  ghost predicate Numbered<T(!new)>(w: Window<T>, supplied: set<T>, n: int, members: map<T, nat>)
  {
    && members.Keys <= supplied
    && (forall id :: id in members ==> members[id] < n && InGroup(w, members[id], id))
    && (forall g, id :: g < n && InGroup(w, g, id) ==> id in members && members[id] == g)
    && (forall g :: 0 <= g < n && g < |w.groups| ==> w.groups[g] != [] && Sequences.Distinct(w.groups[g]))
  }

  /** The files of group g among the first i join the numbering of the groups before it. */
  ghost predicate Extends<T(!new)>(members: map<T, nat>, before: map<T, nat>, files: seq<T>, g: nat)
  {
    && (forall id :: id in members <==> id in before || id in files)
    && (forall id :: id in before ==> id in members && members[id] == before[id])
    && (forall id :: id in files ==> id in members && members[id] == g)
  }

  method NumberGroup<T(!new, ==)>(w: Window<T>, supplied: set<T>, g: nat, before: map<T, nat>) returns (reason: Reason, members: map<T, nat>)
    requires g < |w.groups| && Numbered(w, supplied, g, before)
    ensures reason in {Settled, EmptyLocalGroup, UnknownLocalId, DuplicateLocalId}
    ensures reason.Settled? <==>
      && w.groups[g] != [] && Sequences.Distinct(w.groups[g])
      && forall id :: id in w.groups[g] ==> id in supplied && id !in before
    ensures reason.Settled? ==> Extends(members, before, w.groups[g], g)
  {
    var group := w.groups[g];
    members := before;
    if |group| == 0 {
      return EmptyLocalGroup, members;
    }
    for i := 0 to |group|
      invariant Sequences.Distinct(group[..i]) && forall id :: id in group[..i] ==> id in supplied && id !in before
      invariant Extends(members, before, group[..i], g)
    {
      var id := group[i];
      Sequences.TakeSnoc(group, i);
      if id !in supplied {
        return UnknownLocalId, members;
      }
      if id in members {
        return DuplicateLocalId, members;
      }
      members := members[id := g];
    }
    assert group[..|group|] == group;
    reason := Settled;
  }

  lemma NumberingGrows<T(!new)>(w: Window<T>, supplied: set<T>, g: nat, before: map<T, nat>, members: map<T, nat>)
    requires g < |w.groups| && Numbered(w, supplied, g, before)
    requires w.groups[g] != [] && Sequences.Distinct(w.groups[g]) && forall id :: id in w.groups[g] ==> id in supplied
    requires Extends(members, before, w.groups[g], g)
    ensures Numbered(w, supplied, g + 1, members)
  {
    forall id | id in members ensures members[id] < g + 1 && InGroup(w, members[id], id) {
      if id !in before {
        assert InGroup(w, g, id);
      }
    }
  }

  /** A group with a repeated file, or with a file of an earlier group, makes the window ill-formed. */
  lemma BadGroup<T(!new)>(known: set<T>, w: Window<T>, supplied: set<T>, g: nat, before: map<T, nat>)
    requires g < |w.groups| && Numbered(w, supplied, g, before) && supplied == Elements(w.ids)
    requires WellFormed(known, w)
    ensures w.groups[g] != [] && Sequences.Distinct(w.groups[g])
    ensures forall id :: id in w.groups[g] ==> id in supplied && id !in before
  {
    forall id | id in w.groups[g] ensures id in supplied && id !in before {
      assert InGroup(w, g, id);
    }
  }

  /** The numbers tell which files of the window the answer puts together. */
  ghost predicate Numbers<T(!new)>(w: Window<T>, members: map<T, nat>)
  {
    && Sequences.Distinct(w.ids)
    && (forall a :: a in w.ids ==> a in members)
    && (forall a, b {:trigger SameGroup(w, a, b)} :: a in w.ids && b in w.ids ==> (SameGroup(w, a, b) <==> members[a] == members[b]))
  }

  /** Validates a window and numbers its files by group. */
  method CheckWindow<T(!new, ==)>(known: set<T>, w: Window<T>) returns (reason: Reason, members: map<T, nat>)
    ensures reason.Settled? <==> WellFormed(known, w)
    ensures reason in {Settled, InvalidWindowSize, UnknownOrDuplicateWindowId, EmptyLocalGroup, UnknownLocalId, DuplicateLocalId, MissingLocalId}
    ensures reason.Settled? ==> Numbers(w, members)
  {
    members := map[];
    if |w.ids| == 0 || |w.ids| > 4 {
      return InvalidWindowSize, members;
    }
    var ok, supplied := CheckIds(known, w.ids);
    if !ok {
      return UnknownOrDuplicateWindowId, members;
    }
    for g := 0 to |w.groups|
      invariant Numbered(w, supplied, g, members)
    {
      var problem, extended := NumberGroup(w, supplied, g, members);
      if problem != Settled {
        if WellFormed(known, w) {
          BadGroup(known, w, supplied, g, members);
        }
        return problem, members;
      }
      NumberingGrows(w, supplied, g, members, extended);
      members := extended;
    }
    if |members| != |supplied| {
      assert members.Keys != supplied;
      var id :| id in supplied && id !in members;
      assert forall g :: !InGroup(w, g, id);
      return MissingLocalId, members;
    }
    SameCardinality(members.Keys, supplied);
    AllNumbered(known, w, members);
    return Settled, members;
  }

  lemma AllNumbered<T(!new)>(known: set<T>, w: Window<T>, members: map<T, nat>)
    requires 1 <= |w.ids| <= 4 && Sequences.Distinct(w.ids) && forall id :: id in w.ids ==> id in known
    requires Numbered(w, Elements(w.ids), |w.groups|, members) && members.Keys == Elements(w.ids)
    ensures WellFormed(known, w) && Numbers(w, members)
  {
    forall a, b | a in w.ids && b in w.ids ensures SameGroup(w, a, b) <==> members[a] == members[b] {
      assert InGroup(w, members[a], a) && InGroup(w, members[b], b);
    }
    forall g, id | InGroup(w, g, id) ensures id in w.ids {
      assert id in members;
    }
    forall id | id in w.ids ensures exists g :: InGroup(w, g, id) {
      assert InGroup(w, members[id], id);
    }
  }

  function Elements<T>(xs: seq<T>): set<T> { set x | x in xs }

  lemma SameCardinality<T>(a: set<T>, b: set<T>)
    requires a <= b && |a| == |b|
    ensures a == b
  {
    if b - a != {} {
      var x :| x in b - a;
      assert a <= b - {x};
      SubsetCardinality(a, b - {x});
    }
  }

  lemma {:induction false} SubsetCardinality<T>(a: set<T>, b: set<T>)
    requires a <= b
    ensures |a| <= |b|
  {
    if a != {} {
      var x :| x in a;
      SubsetCardinality(a - {x}, b - {x});
    }
  }

  // ---------------------------------------------------------------- pairwise observations

  /** The pairs of files a window shows together, each once, smaller file first. */
  ghost function PairsOf<T(!new)>(less: (T, T) -> bool, w: Window<T>): set<(T, T)>
  {
    set a, b | a in w.ids && b in w.ids && less(a, b) :: (a, b)
  }

  /** Answers of w about the pairs seen, added to what was known before. */
  ghost predicate Answered<T(!new)>(w: Window<T>, before: map<(T, T), bool>, seen: set<(T, T)>, after: map<(T, T), bool>)
  {
    && after.Keys == before.Keys + seen
    && (forall p :: p in before ==> after[p] == before[p])
    && (forall p :: p in seen ==> after[p] == SameGroup(w, p.0, p.1))
  }

  /** The keys of file number x with the files numbered x+1..n-1. */
  ghost function Row<T(!new)>(less: (T, T) -> bool, ids: seq<T>, x: nat, n: nat): set<(T, T)>
    requires x < |ids| && n <= |ids|
  {
    if n <= x + 1 then {} else Row(less, ids, x, n - 1) + {Key(less, ids[x], ids[n - 1])}
  }

  ghost function Rows<T(!new)>(less: (T, T) -> bool, ids: seq<T>, i: nat): set<(T, T)>
    requires i <= |ids|
  {
    if i == 0 then {} else Rows(less, ids, i - 1) + Row(less, ids, i - 1, |ids|)
  }

  lemma {:induction false} InRow<T(!new)>(less: (T, T) -> bool, ids: seq<T>, x: nat, y: nat, n: nat)
    requires x < y < n <= |ids|
    ensures Key(less, ids[x], ids[y]) in Row(less, ids, x, n)
  {
    if y < n - 1 {
      InRow(less, ids, x, y, n - 1);
    }
  }

  lemma {:induction false} InRows<T(!new)>(less: (T, T) -> bool, ids: seq<T>, x: nat, i: nat)
    requires x < i <= |ids|
    ensures Row(less, ids, x, |ids|) <= Rows(less, ids, i)
  {
    if x < i - 1 {
      InRows(less, ids, x, i - 1);
    }
  }

  lemma {:induction false} RowShown<T(!new)>(less: (T, T) -> bool, w: Window<T>, x: nat, n: nat)
    requires StrictTotalOrder(less) && Sequences.Distinct(w.ids) && x < |w.ids| && n <= |w.ids|
    ensures Row(less, w.ids, x, n) <= PairsOf(less, w)
  {
    if x + 1 < n {
      RowShown(less, w, x, n - 1);
    }
  }

  lemma {:induction false} RowsShown<T(!new)>(less: (T, T) -> bool, w: Window<T>, i: nat)
    requires StrictTotalOrder(less) && Sequences.Distinct(w.ids) && i <= |w.ids|
    ensures Rows(less, w.ids, i) <= PairsOf(less, w)
  {
    if 0 < i {
      RowsShown(less, w, i - 1);
      RowShown(less, w, i - 1, |w.ids|);
    }
  }

  /** The nested loops over i < j visit exactly the pairs the window shows. */
  lemma RowsArePairs<T(!new)>(less: (T, T) -> bool, w: Window<T>)
    requires StrictTotalOrder(less) && Sequences.Distinct(w.ids)
    ensures Rows(less, w.ids, |w.ids|) == PairsOf(less, w)
  {
    RowsShown(less, w, |w.ids|);
    forall p | p in PairsOf(less, w) ensures p in Rows(less, w.ids, |w.ids|) {
      var x :| 0 <= x < |w.ids| && w.ids[x] == p.0;
      var y :| 0 <= y < |w.ids| && w.ids[y] == p.1;
      var low, high := if x < y then x else y, if x < y then y else x;
      InRow(less, w.ids, low, high, |w.ids|);
      InRows(less, w.ids, low, |w.ids|);
    }
  }

  lemma ObserveStep<T(!new)>(less: (T, T) -> bool, w: Window<T>, members: map<T, nat>,
                             before: map<(T, T), bool>, after: map<(T, T), bool>, i: nat, j: nat)
    requires StrictTotalOrder(less) && Numbers(w, members) && i < j < |w.ids|
    requires Answered(w, before, Rows(less, w.ids, i) + Row(less, w.ids, i, j), after)
    ensures var p, same := Key(less, w.ids[i], w.ids[j]), members[w.ids[i]] == members[w.ids[j]];
            if p in after && after[p] != same
            then p in PairsOf(less, w) && p in before && before[p] != SameGroup(w, p.0, p.1)
            else Answered(w, before, Rows(less, w.ids, i) + Row(less, w.ids, i, j + 1), after[p := same])
  {
    var p, same := Key(less, w.ids[i], w.ids[j]), members[w.ids[i]] == members[w.ids[j]];
    assert SameGroup(w, p.0, p.1) == same;
    var seen := Rows(less, w.ids, i) + Row(less, w.ids, i, j);
    assert Rows(less, w.ids, i) + Row(less, w.ids, i, j + 1) == seen + {p};
  }

  method Observe<T(!new, ==)>(less: (T, T) -> bool, w: Window<T>, members: map<T, nat>, before: map<(T, T), bool>)
    returns (ok: bool, after: map<(T, T), bool>)
    requires StrictTotalOrder(less) && Numbers(w, members)
    ensures ok ==> Answered(w, before, PairsOf(less, w), after)
    ensures !ok ==> exists p :: Reversed(less, w, before, p)
  {
    after := before;
    for i := 0 to |w.ids|
      invariant Answered(w, before, Rows(less, w.ids, i), after)
    {
      ghost var p;
      ok, after, p := ObserveRow(less, w, members, before, after, i);
      if !ok {
        return;
      }
    }
    RowsArePairs(less, w);
    ok := true;
  }

  /** A pair of w that was answered the other way before. */
  ghost predicate Reversed<T(!new)>(less: (T, T) -> bool, w: Window<T>, before: map<(T, T), bool>, p: (T, T))
  {
    p in PairsOf(less, w) && p in before && before[p] != SameGroup(w, p.0, p.1)
  }

  /** The rows before i and row i up to file number j are answered. */
  ghost predicate RowSoFar<T(!new)>(less: (T, T) -> bool, w: Window<T>, before: map<(T, T), bool>, i: nat, j: nat, after: map<(T, T), bool>)
    requires i < |w.ids| && j <= |w.ids|
  {
    Answered(w, before, Rows(less, w.ids, i) + Row(less, w.ids, i, j), after)
  }

  lemma RowBegins<T(!new)>(less: (T, T) -> bool, w: Window<T>, before: map<(T, T), bool>, i: nat, after: map<(T, T), bool>)
    requires i < |w.ids|
    ensures Answered(w, before, Rows(less, w.ids, i), after) <==> RowSoFar(less, w, before, i, i + 1, after)
    ensures RowSoFar(less, w, before, i, |w.ids|, after) <==> Answered(w, before, Rows(less, w.ids, i + 1), after)
  {
    assert Rows(less, w.ids, i) + {} == Rows(less, w.ids, i);
  }

  /** One pair of files. */
  method ObservePair<T(!new, ==)>(less: (T, T) -> bool, w: Window<T>, members: map<T, nat>, ghost before: map<(T, T), bool>,
                                  so: map<(T, T), bool>, i: nat, j: nat)
    returns (ok: bool, after: map<(T, T), bool>)
    requires StrictTotalOrder(less) && Numbers(w, members) && i < j < |w.ids| && RowSoFar(less, w, before, i, j, so)
    ensures ok ==> RowSoFar(less, w, before, i, j + 1, after)
    ensures !ok ==> Reversed(less, w, before, Key(less, w.ids[i], w.ids[j]))
  {
    var p := Key(less, w.ids[i], w.ids[j]);
    var same := members[w.ids[i]] == members[w.ids[j]];
    ObserveStep(less, w, members, before, so, i, j);
    ok := !(p in so && so[p] != same);
    after := if ok then so[p := same] else so;
  }

  /** The pairs of file number i with the later files. */
  method ObserveRow<T(!new, ==)>(less: (T, T) -> bool, w: Window<T>, members: map<T, nat>, ghost before: map<(T, T), bool>,
                                 so: map<(T, T), bool>, i: nat)
    returns (ok: bool, after: map<(T, T), bool>, ghost reversed: (T, T))
    requires StrictTotalOrder(less) && Numbers(w, members) && i < |w.ids|
    requires Answered(w, before, Rows(less, w.ids, i), so)
    ensures ok ==> Answered(w, before, Rows(less, w.ids, i + 1), after)
    ensures !ok ==> Reversed(less, w, before, reversed)
  {
    ok, after, reversed := true, so, (w.ids[i], w.ids[i]);
    RowBegins(less, w, before, i, after);
    for j := i + 1 to |w.ids|
      invariant ok && RowSoFar(less, w, before, i, j, after)
    {
      reversed := Key(less, w.ids[i], w.ids[j]);
      ok, after := ObservePair(less, w, members, before, after, i, j);
      if !ok {
        return;
      }
    }
    RowBegins(less, w, before, i, after);
  }

  /** obs holds the answers of a window. */
  ghost predicate Holds<T(!new)>(less: (T, T) -> bool, w: Window<T>, obs: map<(T, T), bool>)
  {
    forall p :: p in PairsOf(less, w) ==> p in obs && obs[p] == SameGroup(w, p.0, p.1)
  }

  /** obs holds exactly the answers of the windows. */
  ghost predicate Records<T(!new)>(less: (T, T) -> bool, results: seq<Window<T>>, obs: map<(T, T), bool>)
  {
    AllHold(less, results, obs) && AllShown(less, results, obs)
  }

  ghost predicate AllHold<T(!new)>(less: (T, T) -> bool, results: seq<Window<T>>, obs: map<(T, T), bool>)
  {
    forall i :: 0 <= i < |results| ==> Holds(less, results[i], obs)
  }

  ghost predicate AllShown<T(!new)>(less: (T, T) -> bool, results: seq<Window<T>>, obs: map<(T, T), bool>)
  {
    forall p :: p in obs ==> ShownIn(less, results, p)
  }

  lemma RecordsGrow<T(!new)>(less: (T, T) -> bool, results: seq<Window<T>>, n: nat, before: map<(T, T), bool>, after: map<(T, T), bool>)
    requires n < |results| && Records(less, results[..n], before)
    requires Answered(results[n], before, PairsOf(less, results[n]), after)
    ensures Records(less, results[..n + 1], after)
  {
    AllShownMore(less, results, n, before, after);
    AllHoldMore(less, results, n, before, after);
  }

  lemma AllShownMore<T(!new)>(less: (T, T) -> bool, results: seq<Window<T>>, n: nat, before: map<(T, T), bool>, after: map<(T, T), bool>)
    requires n < |results| && AllShown(less, results[..n], before)
    requires Answered(results[n], before, PairsOf(less, results[n]), after)
    ensures AllShown(less, results[..n + 1], after)
  {
    forall p | p in after ensures ShownIn(less, results[..n + 1], p) {
      EarlierOrNew(less, results, n, p);
    }
  }

  lemma AllHoldMore<T(!new)>(less: (T, T) -> bool, results: seq<Window<T>>, n: nat, before: map<(T, T), bool>, after: map<(T, T), bool>)
    requires n < |results| && AllHold(less, results[..n], before)
    requires Answered(results[n], before, PairsOf(less, results[n]), after)
    ensures AllHold(less, results[..n + 1], after)
  {
    forall i | 0 <= i <= n ensures Holds(less, results[i], after) {
      if i < n {
        assert results[i] == results[..n][i];
        StillHolds(less, results[i], results[n], before, after);
      }
    }
  }

  lemma StillHolds<T(!new)>(less: (T, T) -> bool, v: Window<T>, w: Window<T>, before: map<(T, T), bool>, after: map<(T, T), bool>)
    requires Holds(less, v, before) && Answered(w, before, PairsOf(less, w), after)
    ensures Holds(less, v, after)
  {
  }

  /** Some window shows the pair. */
  ghost predicate ShownIn<T(!new)>(less: (T, T) -> bool, results: seq<Window<T>>, p: (T, T))
  {
    exists i :: 0 <= i < |results| && p in PairsOf(less, results[i])
  }

  lemma EarlierOrNew<T(!new)>(less: (T, T) -> bool, results: seq<Window<T>>, n: nat, p: (T, T))
    requires n < |results|
    ensures ShownIn(less, results[..n + 1], p) <==> ShownIn(less, results[..n], p) || p in PairsOf(less, results[n])
  {
    var more := results[..n + 1];
    assert more[n] == results[n] && forall i :: 0 <= i < n ==> more[i] == results[..n][i];
    if ShownIn(less, results[..n], p) {
      var i :| 0 <= i < n && p in PairsOf(less, results[..n][i]);
      assert p in PairsOf(less, more[i]);
    }
    if ShownIn(less, more, p) {
      var i :| 0 <= i < n + 1 && p in PairsOf(less, more[i]);
      assert i < n ==> p in PairsOf(less, results[..n][i]);
    }
  }

  /** A labelling of the files that separates and joins the observed pairs as observed. */
  ghost predicate Respects<T(!new)>(known: set<T>, obs: map<(T, T), bool>, part: map<T, T>)
  {
    part.Keys == known && forall p :: p in obs ==> p.0 in part && p.1 in part && (part[p.0] == part[p.1] <==> obs[p])
  }

  /** Agreeing with every window is respecting every observed pair. */
  lemma PartitionIsRespect<T(!new)>(less: (T, T) -> bool, known: set<T>, results: seq<Window<T>>, obs: map<(T, T), bool>, part: map<T, T>)
    requires StrictTotalOrder(less) && Records(less, results, obs)
    requires forall i :: 0 <= i < |results| ==> WellFormed(known, results[i])
    ensures IsPartition(known, results, part) <==> Respects(known, obs, part)
  {
    if IsPartition(known, results, part) {
      forall p | p in obs ensures p.0 in part && p.1 in part && (part[p.0] == part[p.1] <==> obs[p]) {
        var i :| 0 <= i < |results| && p in PairsOf(less, results[i]);
        assert Agrees(part, results[i]);
      }
    }
    if Respects(known, obs, part) {
      forall i | 0 <= i < |results| ensures Agrees(part, results[i]) {
        RespectAgrees(less, known, results[i], obs, part);
      }
    }
  }

  lemma RespectAgrees<T(!new)>(less: (T, T) -> bool, known: set<T>, w: Window<T>, obs: map<(T, T), bool>, part: map<T, T>)
    requires StrictTotalOrder(less) && WellFormed(known, w) && Respects(known, obs, part)
    requires Holds(less, w, obs)
    ensures Agrees(part, w)
  {
    forall a, b | a in w.ids && b in w.ids ensures a in part && b in part && (part[a] == part[b] <==> SameGroup(w, a, b)) {
      if a == b {
        var g :| InGroup(w, g, a);
        assert SameGroup(w, a, b);
      } else if less(a, b) {
        assert (a, b) in PairsOf(less, w);
      } else {
        assert (b, a) in PairsOf(less, w);
      }
    }
  }

  // ---------------------------------------------------------------- joining what was observed together

  /** roots lists the root of every file of the forest. */
  ghost predicate IsRoots<T(!new)>(less: (T, T) -> bool, p: map<T, T>, roots: map<T, T>)
    requires StrictTotalOrder(less)
  {
    Forest(less, p) && roots.Keys == p.Keys && forall k {:trigger roots[k]} :: k in p ==> roots[k] == Root(less, p, k)
  }

  lemma RootsExist<T(!new)>(less: (T, T) -> bool, p: map<T, T>) returns (roots: map<T, T>)
    requires StrictTotalOrder(less) && Forest(less, p)
    ensures IsRoots(less, p, roots)
  {
    roots := map k | k in p :: Root(less, p, k);
  }

  ghost predicate WithRoot<T(!new)>(l: map<T, T>, roots: map<T, T>, k: T)
    requires k in roots
  {
    k in l && roots[k] in l && l[k] == l[roots[k]]
  }

  /** Every labelling that respects the observations joins each file with its root. */
  ghost predicate Forced<T(!new)>(known: set<T>, obs: map<(T, T), bool>, roots: map<T, T>)
  {
    forall l, k {:trigger Respects(known, obs, l), WithRoot(l, roots, k)} ::
      Respects(known, obs, l) && k in roots ==> WithRoot(l, roots, k)
  }

  ghost predicate Joined<T(!new)>(obs: map<(T, T), bool>, done: seq<(T, T)>, roots: map<T, T>)
  {
    forall p :: p in done && p in obs && obs[p] ==> p.0 in roots && p.1 in roots && roots[p.0] == roots[p.1]
  }

  /** Files observed together have one root. */
  ghost predicate AllJoined<T(!new)>(obs: map<(T, T), bool>, roots: map<T, T>)
  {
    forall p :: p in obs && obs[p] ==> p.0 in roots && p.1 in roots && roots[p.0] == roots[p.1]
  }

  lemma UnionStep<T(!new)>(less: (T, T) -> bool, known: set<T>, obs: map<(T, T), bool>, done: seq<(T, T)>, p: (T, T),
                           before: map<T, T>, after: map<T, T>)
    requires StrictTotalOrder(less) && before.Keys == after.Keys == known
    requires p in obs && obs[p] && p.0 in known && p.1 in known
    requires forall k :: k in known ==> before[k] in known
    requires var a, b := Min(less, before[p.0], before[p.1]), Max(less, before[p.0], before[p.1]);
             forall k :: k in known ==> after[k] == if before[k] == b then a else before[k]
    requires Forced(known, obs, before) && Joined(obs, done, before)
    ensures Forced(known, obs, after) && Joined(obs, done + [p], after)
  {
    var a, b := Min(less, before[p.0], before[p.1]), Max(less, before[p.0], before[p.1]);
    forall l, k | Respects(known, obs, l) && k in after ensures WithRoot(l, after, k) {
      assert WithRoot(l, before, p.0) && WithRoot(l, before, p.1) && WithRoot(l, before, k);
      assert l[p.0] == l[p.1];
    }
  }

  lemma UnionRoots<T(!new)>(less: (T, T) -> bool, known: set<T>, obs: map<(T, T), bool>, done: seq<(T, T)>, p: (T, T),
                            parent: map<T, T>, before: map<T, T>, merged: map<T, T>, after: map<T, T>)
    requires StrictTotalOrder(less) && IsRoots(less, parent, before) && IsRoots(less, merged, after)
    requires parent.Keys == merged.Keys == known && p in obs && obs[p] && p.0 in known && p.1 in known
    requires var rx, ry := Root(less, parent, p.0), Root(less, parent, p.1);
             forall k {:trigger Root(less, merged, k)} :: k in parent ==>
              Root(less, merged, k) == Merged(less, parent, Min(less, rx, ry), Max(less, rx, ry), k)
    requires Forced(known, obs, before) && Joined(obs, done, before)
    ensures Forced(known, obs, after) && Joined(obs, done + [p], after)
  {
    UnionStep(less, known, obs, done, p, before, after);
  }

  lemma InitiallyAlone<T(!new)>(less: (T, T) -> bool, known: set<T>, obs: map<(T, T), bool>, parent: map<T, T>)
    requires StrictTotalOrder(less) && parent.Keys == known && forall id :: id in known ==> parent[id] == id
    ensures Merging(less, known, obs, [], parent, parent)
  {
    forall k | k in parent ensures Edge(less, parent, k) {}
  }

  /** The forest reflects the positive answers among those visited, and nothing else. */
  ghost predicate Merging<T(!new)>(less: (T, T) -> bool, known: set<T>, obs: map<(T, T), bool>, done: seq<(T, T)>,
                                   parent: map<T, T>, roots: map<T, T>)
    requires StrictTotalOrder(less)
  {
    && IsRoots(less, parent, roots) && parent.Keys == known
    && Forced(known, obs, roots) && Joined(obs, done, roots)
  }

  method MergeObservation<T(!new, ==)>(less: (T, T) -> bool, known: set<T>, obs: map<(T, T), bool>, ghost done: seq<(T, T)>, p: (T, T),
                                       parent: map<T, T>, ghost before: map<T, T>)
    returns (merged: map<T, T>, ghost after: map<T, T>)
    requires StrictTotalOrder(less) && p in obs && p.0 in known && p.1 in known
    requires Merging(less, known, obs, done, parent, before)
    ensures Merging(less, known, obs, done + [p], merged, after)
  {
    merged, after := parent, before;
    if obs[p] {
      merged := Union(less, parent, p.0, p.1);
      after := RootsExist(less, merged);
      UnionRoots(less, known, obs, done, p, parent, before, merged, after);
    }
  }

  /** Ranging over the observations in whatever order, the positive ones are merged. */
  method MergePositives<T(!new, ==)>(less: (T, T) -> bool, known: set<T>, obs: map<(T, T), bool>)
    returns (parent: map<T, T>, ghost roots: map<T, T>)
    requires StrictTotalOrder(less) && forall p :: p in obs ==> p.0 in known && p.1 in known
    ensures Merging(less, known, obs, [], parent, roots) && AllJoined(obs, roots)
  {
    parent := map id | id in known :: id;
    roots := parent;
    InitiallyAlone(less, known, obs, parent);
    var order := Range(obs.Keys);
    for i := 0 to |order|
      invariant Merging(less, known, obs, order[..i], parent, roots)
    {
      Sequences.TakeSnoc(order, i);
      parent, roots := MergeObservation(less, known, obs, order[..i], order[i], parent, roots);
    }
    assert order[..|order|] == order;
    forall p | p in obs && obs[p] ensures p.0 in roots && p.1 in roots && roots[p.0] == roots[p.1] {
      assert p in order;
    }
  }

  // ---------------------------------------------------------------- separating what was observed apart

  /** Some answer told two files of these roots apart. */
  ghost predicate ToldApart<T(!new)>(less: (T, T) -> bool, obs: map<(T, T), bool>, roots: map<T, T>, q: (T, T))
    requires forall p :: p in obs ==> p.0 in roots && p.1 in roots
  {
    exists p :: p in obs && !obs[p] && q == Key(less, roots[p.0], roots[p.1])
  }

  /** negative holds exactly the pairs of roots between which some answer said "different". */
  ghost predicate Separated<T(!new)>(less: (T, T) -> bool, obs: map<(T, T), bool>, done: seq<(T, T)>, roots: map<T, T>, negative: set<(T, T)>)
    requires forall p :: p in obs ==> p.0 in roots && p.1 in roots
  {
    && (forall p :: p in done && p in obs && !obs[p] ==> roots[p.0] != roots[p.1] && Key(less, roots[p.0], roots[p.1]) in negative)
    && (forall q {:trigger ToldApart(less, obs, roots, q)} :: q in negative ==> ToldApart(less, obs, roots, q))
  }

  method CheckNegatives<T(!new, ==)>(less: (T, T) -> bool, obs: map<(T, T), bool>, forest: map<T, T>, ghost roots: map<T, T>)
    returns (ok: bool, negative: set<(T, T)>, parent: map<T, T>)
    requires StrictTotalOrder(less) && IsRoots(less, forest, roots)
    requires forall p :: p in obs ==> p.0 in roots && p.1 in roots
    ensures IsRoots(less, parent, roots)
    ensures ok ==> AllSeparated(less, obs, roots, negative)
    ensures !ok ==> exists p :: p in obs && !obs[p] && roots[p.0] == roots[p.1]
  {
    parent := forest;
    negative := {};
    var order := Range(obs.Keys);
    for i := 0 to |order|
      invariant IsRoots(less, parent, roots)
      invariant Separated(less, obs, order[..i], roots, negative)
    {
      var p := order[i];
      Sequences.TakeSnoc(order, i);
      if !obs[p] {
        var a, first := Find(less, parent, p.0);
        var b, second := Find(less, first, p.1);
        parent := second;
        if a == b {
          return false, negative, parent;
        }
        negative := negative + {Key(less, a, b)};
      }
    }
    assert order[..|order|] == order;
    ok := true;
  }

  ghost predicate AllSeparated<T(!new)>(less: (T, T) -> bool, obs: map<(T, T), bool>, roots: map<T, T>, negative: set<(T, T)>)
    requires forall p :: p in obs ==> p.0 in roots && p.1 in roots
  {
    && (forall p :: p in obs && !obs[p] ==> roots[p.0] != roots[p.1] && Key(less, roots[p.0], roots[p.1]) in negative)
    && (forall q {:trigger ToldApart(less, obs, roots, q)} :: q in negative ==> ToldApart(less, obs, roots, q))
  }

  // ---------------------------------------------------------------- the three verdicts

  /** Positive merging has contradicted a negative answer: no partition respects both. */
  lemma ContradictionMeansNone<T(!new)>(known: set<T>, obs: map<(T, T), bool>, roots: map<T, T>, p: (T, T))
    requires Forced(known, obs, roots) && roots.Keys == known
    requires p in obs && !obs[p] && p.0 in roots && p.1 in roots && roots[p.0] == roots[p.1]
    ensures forall l :: !Respects(known, obs, l)
  {
    forall l ensures !Respects(known, obs, l) {
      ForcedAt(known, obs, roots, l, p.0);
      ForcedAt(known, obs, roots, l, p.1);
    }
  }

  lemma ForcedAt<T(!new)>(known: set<T>, obs: map<(T, T), bool>, roots: map<T, T>, l: map<T, T>, k: T)
    requires Forced(known, obs, roots) && k in roots
    ensures Respects(known, obs, l) ==> WithRoot(l, roots, k)
  {
  }

  lemma RootsRespect<T(!new)>(less: (T, T) -> bool, known: set<T>, obs: map<(T, T), bool>, roots: map<T, T>, negative: set<(T, T)>)
    requires roots.Keys == known && forall p :: p in obs ==> p.0 in known && p.1 in known
    requires AllJoined(obs, roots) && AllSeparated(less, obs, roots, negative)
    ensures Respects(known, obs, roots)
  {
  }

  /** An answer between two classes keeps all their files apart in every partition. */
  lemma SeparatedClasses<T(!new)>(less: (T, T) -> bool, known: set<T>, obs: map<(T, T), bool>, roots: map<T, T>, negative: set<(T, T)>,
                                  l: map<T, T>, a: T, b: T)
    requires StrictTotalOrder(less) && roots.Keys == known && forall p :: p in obs ==> p.0 in known && p.1 in known
    requires Forced(known, obs, roots) && AllSeparated(less, obs, roots, negative) && Respects(known, obs, l)
    requires a in known && b in known && Key(less, roots[a], roots[b]) in negative
    ensures l[a] != l[b]
  {
    assert ToldApart(less, obs, roots, Key(less, roots[a], roots[b]));
    var p :| p in obs && !obs[p] && Key(less, roots[a], roots[b]) == Key(less, roots[p.0], roots[p.1]);
    ForcedAt(known, obs, roots, l, a);
    ForcedAt(known, obs, roots, l, b);
    ForcedAt(known, obs, roots, l, p.0);
    ForcedAt(known, obs, roots, l, p.1);
    assert l[p.0] != l[p.1];
  }

  ghost predicate Apart<T(!new)>(less: (T, T) -> bool, roots: map<T, T>, negative: set<(T, T)>, a: T, b: T)
    requires a in roots && b in roots
  {
    Key(less, roots[a], roots[b]) in negative
  }

  lemma SharedRoot<T(!new)>(known: set<T>, obs: map<(T, T), bool>, roots: map<T, T>, l: map<T, T>, a: T, b: T)
    requires Forced(known, obs, roots) && Respects(known, obs, l) && a in roots && b in roots && roots[a] == roots[b]
    ensures a in l && b in l && l[a] == l[b]
  {
    ForcedAt(known, obs, roots, l, a);
    ForcedAt(known, obs, roots, l, b);
  }

  /** When every two roots are separated by an answer, the roots give the only partition. */
  lemma SeparatedRootsAreUnique<T(!new)>(less: (T, T) -> bool, known: set<T>, obs: map<(T, T), bool>, roots: map<T, T>,
                                         negative: set<(T, T)>, l: map<T, T>)
    requires StrictTotalOrder(less) && roots.Keys == known && forall p :: p in obs ==> p.0 in known && p.1 in known
    requires Forced(known, obs, roots) && AllSeparated(less, obs, roots, negative) && Respects(known, obs, l)
    requires forall a, b {:trigger Apart(less, roots, negative, a, b)} ::
               a in known && b in known && roots[a] != roots[b] ==> Apart(less, roots, negative, a, b)
    ensures SamePartition(known, roots, l)
  {
    forall a, b | a in known && b in known ensures roots[a] == roots[b] <==> l[a] == l[b] {
      if roots[a] == roots[b] {
        SharedRoot(known, obs, roots, l, a, b);
      } else {
        assert Apart(less, roots, negative, a, b);
        SeparatedClasses(less, known, obs, roots, negative, l, a, b);
      }
    }
  }

  ghost function MergeClasses<T(!new)>(roots: map<T, T>, a: T, b: T): map<T, T>
  {
    map k | k in roots :: if roots[k] == b then a else roots[k]
  }

  /** Two roots that no answer separates may be merged: there is a second partition. */
  lemma UnseparatedRootsMayMerge<T(!new)>(less: (T, T) -> bool, known: set<T>, obs: map<(T, T), bool>, roots: map<T, T>,
                                          negative: set<(T, T)>, a: T, b: T)
    requires StrictTotalOrder(less) && roots.Keys == known && forall p :: p in obs ==> p.0 in known && p.1 in known
    requires AllJoined(obs, roots) && AllSeparated(less, obs, roots, negative)
    requires a in known && b in known && roots[a] == a && roots[b] == b && a != b && Key(less, a, b) !in negative
    ensures Respects(known, obs, MergeClasses(roots, a, b))
    ensures !SamePartition(known, roots, MergeClasses(roots, a, b))
  {
    var m := MergeClasses(roots, a, b);
    assert m[a] == m[b];
  }

  // ---------------------------------------------------------------- listing the classes

  /** The files placed so far, each in the bucket of its root. */
  ghost predicate Buckets<T(!new)>(done: seq<T>, roots: map<T, T>, buckets: map<T, seq<T>>)
  {
    && (forall k :: k in done ==> k in roots && roots[k] in buckets && k in buckets[roots[k]])
    && (forall r :: r in buckets ==> buckets[r] != [] && Sequences.Distinct(buckets[r]))
    && (forall r, k :: r in buckets && k in buckets[r] ==> k in done && k in roots && roots[k] == r)
  }

  lemma BucketStep<T(!new)>(done: seq<T>, id: T, roots: map<T, T>, buckets: map<T, seq<T>>, root: T)
    requires Buckets(done, roots, buckets) && id !in done && id in roots && roots[id] == root
    ensures Buckets(done + [id], roots, buckets[root := (if root in buckets then buckets[root] else []) + [id]])
  {
  }

  method FillBuckets<T(!new, ==)>(less: (T, T) -> bool, ids: seq<T>, forest: map<T, T>, ghost roots: map<T, T>)
    returns (buckets: map<T, seq<T>>)
    requires StrictTotalOrder(less) && IsRoots(less, forest, roots) && Sequences.Distinct(ids)
    requires forall id :: id in ids ==> id in forest
    ensures Buckets(ids, roots, buckets)
  {
    buckets := map[];
    var parent := forest;
    for i := 0 to |ids|
      invariant IsRoots(less, parent, roots)
      invariant Buckets(ids[..i], roots, buckets)
    {
      var root, updated := Find(less, parent, ids[i]);
      parent := updated;
      Sequences.TakeSnoc(ids, i);
      BucketStep(ids[..i], ids[i], roots, buckets, root);
      buckets := buckets[root := (if root in buckets then buckets[root] else []) + [ids[i]]];
    }
    assert ids[..|ids|] == ids;
  }

  /** The files with root r, ascending, led by r. */
  ghost predicate IsClass<T(!new)>(less: (T, T) -> bool, roots: map<T, T>, r: T, group: seq<T>)
  {
    && group != [] && group[0] == r && Ascending(less, group)
    && forall k :: k in group <==> k in roots && roots[k] == r
  }

  /** Every class once, in the ascending order of the roots. */
  ghost predicate Classes<T(!new)>(less: (T, T) -> bool, roots: map<T, T>, heads: seq<T>, groups: seq<seq<T>>)
  {
    && |groups| == |heads| && Ascending(less, heads)
    && (forall g :: 0 <= g < |groups| ==> IsClass(less, roots, heads[g], groups[g]))
    && (forall k :: k in roots ==> roots[k] in heads)
  }

  /** A class sorted ascending starts with its root, because a root comes before its files. */
  lemma RootLeads<T(!new)>(less: (T, T) -> bool, forest: map<T, T>, roots: map<T, T>, r: T, group: seq<T>)
    requires StrictTotalOrder(less) && IsRoots(less, forest, roots) && Ascending(less, group) && group != []
    requires forall k :: k in group <==> k in roots && roots[k] == r
    requires r in roots && roots[r] == r
    ensures group[0] == r
  {
    assert r in group;
    assert group[0] in group;
    assert roots[group[0]] == Root(less, forest, group[0]);
  }

  method ListClasses<T(!new, ==)>(less: (T, T) -> bool, ids: seq<T>, forest: map<T, T>, ghost roots: map<T, T>)
    returns (groups: seq<seq<T>>, heads: seq<T>)
    requires StrictTotalOrder(less) && IsRoots(less, forest, roots) && Sequences.Distinct(ids)
    requires forall id :: id in ids <==> id in forest
    ensures Classes(less, roots, heads, groups)
  {
    var buckets := FillBuckets(less, ids, forest, roots);
    var keys := Range(buckets.Keys);
    SortAscending(less, keys);
    heads := Sort(less, keys);
    groups := [];
    for g := 0 to |heads|
      invariant |groups| == g
      invariant forall h :: 0 <= h < g ==> IsClass(less, roots, heads[h], groups[h])
    {
      assert heads[g] in buckets;
      BucketIsClass(less, ids, forest, roots, buckets, heads[g]);
      groups := groups + [Sort(less, buckets[heads[g]])];
    }
  }

  lemma BucketIsClass<T(!new)>(less: (T, T) -> bool, ids: seq<T>, forest: map<T, T>, roots: map<T, T>, buckets: map<T, seq<T>>, r: T)
    requires StrictTotalOrder(less) && IsRoots(less, forest, roots) && Buckets(ids, roots, buckets) && r in buckets
    requires forall id :: id in ids <==> id in forest
    ensures IsClass(less, roots, r, Sort(less, buckets[r]))
  {
    var group := Sort(less, buckets[r]);
    SortAscending(less, buckets[r]);
    assert buckets[r][0] in group;
    var k := buckets[r][0];
    assert roots[k] == r && r == Root(less, forest, k);
    assert roots[r] == Root(less, forest, r);
    RootLeads(less, forest, roots, r, group);
  }

  ghost predicate HeadPair<T(!new)>(heads: seq<T>, q: (T, T)) { exists i, j :: 0 <= i < j < |heads| && q == (heads[i], heads[j]) }

  /** Lexicographic order of pairs. */
  predicate PairLess<T(==)>(less: (T, T) -> bool, p: (T, T), q: (T, T))
  {
    if p.0 != q.0 then less(p.0, q.0) else less(p.1, q.1)
  }

  lemma PairLessOrder<T(!new)>(less: (T, T) -> bool)
    requires StrictTotalOrder(less)
    ensures StrictTotalOrder((p: (T, T), q: (T, T)) => PairLess(less, p, q))
  {
  }

  /** The heads after i and before j that no answer has told apart from it, as pairs. */
  ghost function OpenRow<T(!new)>(less: (T, T) -> bool, heads: seq<T>, negative: set<(T, T)>, i: nat, j: nat): seq<(T, T)>
    requires i < |heads| && j <= |heads|
  {
    if j <= i + 1 then []
    else OpenRow(less, heads, negative, i, j - 1) + if Key(less, heads[i], heads[j - 1]) in negative then [] else [(heads[i], heads[j - 1])]
  }

  ghost function OpenRows<T(!new)>(less: (T, T) -> bool, heads: seq<T>, negative: set<(T, T)>, i: nat): seq<(T, T)>
    requires i <= |heads|
  {
    if i == 0 then [] else OpenRows(less, heads, negative, i - 1) + OpenRow(less, heads, negative, i - 1, |heads|)
  }

  /** No answer has told the heads i and k apart. */
  ghost predicate Untold<T(!new)>(less: (T, T) -> bool, heads: seq<T>, negative: set<(T, T)>, i: int, k: int)
    requires 0 <= i < |heads| && 0 <= k < |heads|
  {
    Key(less, heads[i], heads[k]) !in negative
  }

  lemma {:induction false} OpenRowMembers<T(!new)>(less: (T, T) -> bool, heads: seq<T>, negative: set<(T, T)>, i: nat, j: nat, q: (T, T))
    requires i < |heads| && j <= |heads|
    ensures q in OpenRow(less, heads, negative, i, j) <==> exists k :: i < k < j && q == (heads[i], heads[k]) && Untold(less, heads, negative, i, k)
  {
    if i + 1 < j {
      OpenRowMembers(less, heads, negative, i, j - 1, q);
      assert Untold(less, heads, negative, i, j - 1) <==> Key(less, heads[i], heads[j - 1]) !in negative;
    }
  }

  ghost predicate OpenAt<T(!new)>(less: (T, T) -> bool, heads: seq<T>, negative: set<(T, T)>, x: int, k: int, q: (T, T))
  {
    0 <= x < k < |heads| && q == (heads[x], heads[k]) && Untold(less, heads, negative, x, k)
  }

  /** The rows before i hold the open pairs of the heads before i. */
  ghost predicate RowsHold<T(!new)>(less: (T, T) -> bool, heads: seq<T>, negative: set<(T, T)>, i: nat, q: (T, T))
    requires i <= |heads|
  {
    q in OpenRows(less, heads, negative, i) <==> exists x, k :: x < i && OpenAt(less, heads, negative, x, k, q)
  }

  lemma RowHolds<T(!new)>(less: (T, T) -> bool, heads: seq<T>, negative: set<(T, T)>, i: nat, q: (T, T))
    requires i < |heads| && RowsHold(less, heads, negative, i, q)
    ensures RowsHold(less, heads, negative, i + 1, q)
  {
    OpenRowMembers(less, heads, negative, i, |heads|, q);
    if k :| i < k < |heads| && q == (heads[i], heads[k]) && Untold(less, heads, negative, i, k) {
      assert OpenAt(less, heads, negative, i, k, q);
    }
    if x, k :| x < i + 1 && OpenAt(less, heads, negative, x, k, q) {
      assert x < i || q in OpenRow(less, heads, negative, i, |heads|);
    }
  }

  lemma NoRowHolds<T(!new)>(less: (T, T) -> bool, heads: seq<T>, negative: set<(T, T)>, q: (T, T))
    ensures RowsHold(less, heads, negative, 0, q)
  {
  }

  lemma OpenRowsMembers<T(!new)>(less: (T, T) -> bool, heads: seq<T>, negative: set<(T, T)>, i: nat, q: (T, T))
    requires i <= |heads|
    ensures RowsHold(less, heads, negative, i, q)
  {
    NoRowHolds(less, heads, negative, q);
    for n := 0 to i
      invariant RowsHold(less, heads, negative, n, q)
    {
      RowHolds(less, heads, negative, n, q);
    }
  }

  /** Pairs in lexicographic order. */
  ghost predicate PairsAscend<T(!new)>(less: (T, T) -> bool, pairs: seq<(T, T)>)
  {
    forall i, j :: 0 <= i < j < |pairs| ==> PairLess(less, pairs[i], pairs[j])
  }

  lemma PairsAppend<T(!new)>(less: (T, T) -> bool, a: seq<(T, T)>, b: seq<(T, T)>)
    requires PairsAscend(less, a) && PairsAscend(less, b)
    requires forall i, j :: 0 <= i < |a| && 0 <= j < |b| ==> PairLess(less, a[i], b[j])
    ensures PairsAscend(less, a + b)
  {
    var c := a + b;
    forall i, j | 0 <= i < j < |c| ensures PairLess(less, c[i], c[j]) {
      assert c[i] == if i < |a| then a[i] else b[i - |a|];
      assert c[j] == if j < |a| then a[j] else b[j - |a|];
    }
  }

  lemma {:induction false} OpenRowAscends<T(!new)>(less: (T, T) -> bool, heads: seq<T>, negative: set<(T, T)>, i: nat, j: nat)
    requires i < |heads| && j <= |heads| && Ascending(less, heads)
    ensures PairsAscend(less, OpenRow(less, heads, negative, i, j))
  {
    if i + 1 < j {
      OpenRowAscends(less, heads, negative, i, j - 1);
      var before, last := OpenRow(less, heads, negative, i, j - 1), (heads[i], heads[j - 1]);
      forall x | 0 <= x < |before| ensures PairLess(less, before[x], last) {
        OpenRowMembers(less, heads, negative, i, j - 1, before[x]);
      }
      PairsAppend(less, before, [last]);
    }
  }

  lemma RowAscends<T(!new)>(less: (T, T) -> bool, heads: seq<T>, negative: set<(T, T)>, i: nat)
    requires i < |heads| && StrictTotalOrder(less) && Ascending(less, heads) && PairsAscend(less, OpenRows(less, heads, negative, i))
    ensures PairsAscend(less, OpenRows(less, heads, negative, i + 1))
  {
    OpenRowAscends(less, heads, negative, i, |heads|);
    var before, row := OpenRows(less, heads, negative, i), OpenRow(less, heads, negative, i, |heads|);
    forall x, y | 0 <= x < |before| && 0 <= y < |row| ensures PairLess(less, before[x], row[y]) {
      RowsInOrder(less, heads, negative, i, before[x], row[y]);
    }
    PairsAppend(less, before, row);
  }

  lemma OpenRowsAscend<T(!new)>(less: (T, T) -> bool, heads: seq<T>, negative: set<(T, T)>, i: nat)
    requires i <= |heads| && StrictTotalOrder(less) && Ascending(less, heads)
    ensures PairsAscend(less, OpenRows(less, heads, negative, i))
  {
    for n := 0 to i
      invariant PairsAscend(less, OpenRows(less, heads, negative, n))
    {
      RowAscends(less, heads, negative, n);
    }
  }

  lemma RowsInOrder<T(!new)>(less: (T, T) -> bool, heads: seq<T>, negative: set<(T, T)>, i: nat, p: (T, T), q: (T, T))
    requires i < |heads| && StrictTotalOrder(less) && Ascending(less, heads)
    requires p in OpenRows(less, heads, negative, i) && q in OpenRow(less, heads, negative, i, |heads|)
    ensures PairLess(less, p, q)
  {
    OpenRowsMembers(less, heads, negative, i, p);
    OpenRowMembers(less, heads, negative, i, |heads|, q);
    var x, k :| x < i && OpenAt(less, heads, negative, x, k, p);
    assert less(heads[x], heads[i]);
  }

  method UnknownWith<T(!new, ==)>(less: (T, T) -> bool, heads: seq<T>, negative: set<(T, T)>, i: nat) returns (unknown: seq<(T, T)>)
    requires i < |heads|
    ensures unknown == OpenRow(less, heads, negative, i, |heads|)
  {
    unknown := [];
    for j := i + 1 to |heads|
      invariant unknown == OpenRow(less, heads, negative, i, j)
    {
      if Key(less, heads[i], heads[j]) !in negative {
        unknown := unknown + [(heads[i], heads[j])];
      }
    }
  }

  /** The pairs of class heads that no answer has told apart, in order. */
  method UnknownPairs<T(!new, ==)>(less: (T, T) -> bool, heads: seq<T>, negative: set<(T, T)>) returns (unknown: seq<(T, T)>)
    requires StrictTotalOrder(less) && Ascending(less, heads)
    ensures forall q :: q in unknown <==> exists i, j :: OpenAt(less, heads, negative, i, j, q)
    ensures PairsAscend(less, unknown)
  {
    unknown := [];
    for i := 0 to |heads|
      invariant unknown == OpenRows(less, heads, negative, i)
    {
      var row := UnknownWith(less, heads, negative, i);
      unknown := unknown + row;
    }
    OpenRowsAscend(less, heads, negative, |heads|);
    forall q ensures q in unknown <==> exists i, j :: OpenAt(less, heads, negative, i, j, q) {
      OpenRowsMembers(less, heads, negative, |heads|, q);
    }
  }

  // ---------------------------------------------------------------- what stays open

  /** Some answer puts a file of v and a file of w into different groups of one window. */
  ghost predicate ToldDifferent<T(!new)>(results: seq<Window<T>>, v: seq<T>, w: seq<T>)
  {
    exists r, a, b :: 0 <= r < |results| && a in v && b in w && AnsweredApart(results[r], a, b)
  }

  ghost predicate AnsweredApart<T(!new)>(w: Window<T>, a: T, b: T) { a in w.ids && b in w.ids && !SameGroup(w, a, b) }

  /** The pair of the first files of two groups is listed exactly when no answer tells the groups apart. */
  ghost predicate ListedExactly<T(!new)>(results: seq<Window<T>>, groups: seq<seq<T>>, unknown: seq<(T, T)>, i: int, j: int)
    requires 0 <= i < |groups| && 0 <= j < |groups| && |groups[i]| > 0 && |groups[j]| > 0
  {
    (groups[i][0], groups[j][0]) in unknown <==> !ToldDifferent(results, groups[i], groups[j])
  }

  /** The open pairs are those of all groups that no answer tells apart, in lexicographic order. */
  ghost predicate OpenPairsExact<T(!new)>(less: (T, T) -> bool, results: seq<Window<T>>, groups: seq<seq<T>>, unknown: seq<(T, T)>)
  {
    && (forall g :: 0 <= g < |groups| ==> |groups[g]| > 0)
    && (forall i, j :: 0 <= i < j < |groups| ==> ListedExactly(results, groups, unknown, i, j))
    && (forall q :: q in unknown ==> exists i, j :: 0 <= i < j < |groups| && q == (groups[i][0], groups[j][0]))
    && PairsAscend(less, unknown)
  }

  /** The files of v are those with root x. */
  ghost predicate HasRoot<T(!new)>(roots: map<T, T>, v: seq<T>, x: T) { forall k :: k in v <==> k in roots && roots[k] == x }

  /** Two class heads are told apart exactly when some answer tells files of the two classes apart. */
  lemma ToldByAnswer<T(!new)>(less: (T, T) -> bool, known: set<T>, results: seq<Window<T>>, obs: map<(T, T), bool>, roots: map<T, T>,
                              negative: set<(T, T)>, v: seq<T>, w: seq<T>, x: T, y: T)
    requires StrictTotalOrder(less) && AllWellFormed(known, results) && Records(less, results, obs)
    requires roots.Keys == known && forall p :: p in obs ==> p.0 in known && p.1 in known
    requires AllSeparated(less, obs, roots, negative) && HasRoot(roots, v, x) && HasRoot(roots, w, y) && less(x, y)
    ensures Key(less, x, y) in negative <==> ToldDifferent(results, v, w)
  {
    if Key(less, x, y) in negative {
      AnswerFor(less, results, obs, roots, negative, v, w, x, y);
    }
    if ToldDifferent(results, v, w) {
      var r, a, b :| 0 <= r < |results| && a in v && b in w && AnsweredApart(results[r], a, b);
      AnswerTells(less, results, obs, roots, negative, results[r], a, b);
      assert roots[a] == x && roots[b] == y;
    }
  }

  lemma AnswerFor<T(!new)>(less: (T, T) -> bool, results: seq<Window<T>>, obs: map<(T, T), bool>, roots: map<T, T>,
                           negative: set<(T, T)>, v: seq<T>, w: seq<T>, x: T, y: T)
    requires StrictTotalOrder(less) && Records(less, results, obs) && forall p :: p in obs ==> p.0 in roots && p.1 in roots
    requires AllSeparated(less, obs, roots, negative) && HasRoot(roots, v, x) && HasRoot(roots, w, y) && less(x, y)
    requires Key(less, x, y) in negative
    ensures ToldDifferent(results, v, w)
  {
    assert ToldApart(less, obs, roots, Key(less, x, y));
    var p :| p in obs && !obs[p] && Key(less, x, y) == Key(less, roots[p.0], roots[p.1]);
    ApartInWindow(less, results, obs, p);
    var r :| 0 <= r < |results| && AnsweredApart(results[r], p.0, p.1) && AnsweredApart(results[r], p.1, p.0);
    assert (p.0 in v && p.1 in w) || (p.1 in v && p.0 in w);
  }

  lemma AnswerTells<T(!new)>(less: (T, T) -> bool, results: seq<Window<T>>, obs: map<(T, T), bool>, roots: map<T, T>,
                             negative: set<(T, T)>, w: Window<T>, a: T, b: T)
    requires StrictTotalOrder(less) && Records(less, results, obs) && forall p :: p in obs ==> p.0 in roots && p.1 in roots
    requires AllSeparated(less, obs, roots, negative) && w in results && AnsweredApart(w, a, b) && a in roots && b in roots && a != b
    ensures Key(less, roots[a], roots[b]) in negative
  {
    var r :| 0 <= r < |results| && results[r] == w;
    assert Holds(less, results[r], obs);
    var p := Key(less, a, b);
    assert p in PairsOf(less, w) && obs[p] == SameGroup(w, p.0, p.1);
    assert SameGroup(w, a, b) == SameGroup(w, b, a);
    assert Key(less, roots[a], roots[b]) == Key(less, roots[b], roots[a]);
  }

  /** A pair observed apart was answered apart in some window, both ways round. */
  lemma ApartInWindow<T(!new)>(less: (T, T) -> bool, results: seq<Window<T>>, obs: map<(T, T), bool>, p: (T, T))
    requires Records(less, results, obs) && p in obs && !obs[p]
    ensures exists r :: 0 <= r < |results| && AnsweredApart(results[r], p.0, p.1) && AnsweredApart(results[r], p.1, p.0)
  {
    assert ShownIn(less, results, p);
    var r :| 0 <= r < |results| && p in PairsOf(less, results[r]);
    assert Holds(less, results[r], obs);
    assert AnsweredApart(results[r], p.0, p.1) && AnsweredApart(results[r], p.1, p.0);
  }

  lemma UnknownIsExact<T(!new)>(less: (T, T) -> bool, known: set<T>, results: seq<Window<T>>, obs: map<(T, T), bool>, roots: map<T, T>,
                                negative: set<(T, T)>, heads: seq<T>, groups: seq<seq<T>>, unknown: seq<(T, T)>)
    requires StrictTotalOrder(less) && AllWellFormed(known, results) && Records(less, results, obs)
    requires roots.Keys == known && forall p :: p in obs ==> p.0 in known && p.1 in known
    requires AllSeparated(less, obs, roots, negative) && Classes(less, roots, heads, groups)
    requires forall q :: q in unknown <==> exists i, j :: OpenAt(less, heads, negative, i, j, q)
    requires PairsAscend(less, unknown)
    ensures OpenPairsExact(less, results, groups, unknown)
  {
    forall g | 0 <= g < |groups| ensures |groups[g]| > 0 && groups[g][0] == heads[g] {
      assert IsClass(less, roots, heads[g], groups[g]);
    }
    forall i, j | 0 <= i < j < |groups| ensures ListedExactly(results, groups, unknown, i, j) {
      assert IsClass(less, roots, heads[i], groups[i]) && IsClass(less, roots, heads[j], groups[j]);
      ToldByAnswer(less, known, results, obs, roots, negative, groups[i], groups[j], heads[i], heads[j]);
      ListedOnce(less, heads, negative, unknown, i, j);
    }
    forall q | q in unknown ensures exists i, j :: 0 <= i < j < |groups| && q == (groups[i][0], groups[j][0]) {
      var i, j :| OpenAt(less, heads, negative, i, j, q);
    }
  }

  lemma OpenFacts<T(!new)>(less: (T, T) -> bool, heads: seq<T>, negative: set<(T, T)>, unknown: seq<(T, T)>)
    requires StrictTotalOrder(less) && Ascending(less, heads)
    requires forall q :: q in unknown <==> exists i, j :: OpenAt(less, heads, negative, i, j, q)
    ensures forall q :: q in unknown ==> exists i, j :: 0 <= i < j < |heads| && q == (heads[i], heads[j])
    ensures forall i, j :: 0 <= i < j < |heads| ==> ((heads[i], heads[j]) in unknown || Key(less, heads[i], heads[j]) in negative)
    ensures forall q :: q in unknown ==> Key(less, q.0, q.1) !in negative
  {
    forall q | q in unknown
      ensures (exists i, j :: 0 <= i < j < |heads| && q == (heads[i], heads[j])) && Key(less, q.0, q.1) !in negative
    {
      var i, j :| OpenAt(less, heads, negative, i, j, q);
    }
    forall i, j | 0 <= i < j < |heads| ensures (heads[i], heads[j]) in unknown || Key(less, heads[i], heads[j]) in negative {
      ListedOnce(less, heads, negative, unknown, i, j);
    }
  }

  lemma ListedOnce<T(!new)>(less: (T, T) -> bool, heads: seq<T>, negative: set<(T, T)>, unknown: seq<(T, T)>, i: nat, j: nat)
    requires StrictTotalOrder(less) && Ascending(less, heads) && i < j < |heads|
    requires forall q :: q in unknown <==> exists i, j :: OpenAt(less, heads, negative, i, j, q)
    ensures (heads[i], heads[j]) in unknown <==> Key(less, heads[i], heads[j]) !in negative
  {
    var q := (heads[i], heads[j]);
    if Key(less, heads[i], heads[j]) !in negative {
      assert OpenAt(less, heads, negative, i, j, q);
    }
    if x, k :| OpenAt(less, heads, negative, x, k, q) {
      HeadsDiffer(less, heads, x, i);
      HeadsDiffer(less, heads, k, j);
    }
  }

  lemma HeadsDiffer<T(!new)>(less: (T, T) -> bool, heads: seq<T>, i: int, j: int)
    requires StrictTotalOrder(less) && Ascending(less, heads) && 0 <= i < |heads| && 0 <= j < |heads|
    ensures heads[i] == heads[j] ==> i == j
  {
    assert i < j ==> less(heads[i], heads[j]);
    assert j < i ==> less(heads[j], heads[i]);
  }

  // ---------------------------------------------------------------- reconcile

  predicate IsContradiction(r: Reason) { r.ContradictoryPair? || r.TransitiveContradiction? }

  predicate IsMalformed(r: Reason)
  {
    r in {InvalidWindowSize, UnknownOrDuplicateWindowId, EmptyLocalGroup, UnknownLocalId, DuplicateLocalId, MissingLocalId}
  }

  ghost predicate AllWellFormed<T(!new)>(known: set<T>, results: seq<Window<T>>)
  {
    forall i :: 0 <= i < |results| ==> WellFormed(known, results[i])
  }

  ghost predicate Shown<T(!new)>(results: seq<Window<T>>, id: T)
  {
    exists i :: 0 <= i < |results| && id in results[i].ids
  }

  /** Every file appears in some window. */
  ghost predicate Covers<T(!new)>(known: set<T>, results: seq<Window<T>>)
  {
    forall id :: id in known ==> Shown(results, id)
  }

  lemma {:induction false} DistinctCardinality<T>(xs: seq<T>)
    requires Sequences.Distinct(xs)
    ensures |Elements(xs)| == |xs|
  {
    if xs != [] {
      var n := |xs| - 1;
      DistinctCardinality(xs[..n]);
      assert Elements(xs) == Elements(xs[..n]) + {xs[n]};
      assert xs[n] !in xs[..n];
    }
  }

  /** The three verdicts exclude one another. */
  lemma VerdictsExclusive<T(!new)>(known: set<T>, results: seq<Window<T>>, l: map<T, T>)
    ensures OnlyPartition(known, results, l) ==> !NoPartition(known, results) && !SeveralPartitions(known, results)
    ensures SeveralPartitions(known, results) ==> !NoPartition(known, results)
  {
  }

  /** The roots are a partition; it is the only one exactly when no pair of classes is left open. */
  lemma Verdict<T(!new)>(less: (T, T) -> bool, known: set<T>, results: seq<Window<T>>, obs: map<(T, T), bool>, roots: map<T, T>,
                         negative: set<(T, T)>, heads: seq<T>, groups: seq<seq<T>>, unknown: seq<(T, T)>)
    requires StrictTotalOrder(less) && AllWellFormed(known, results) && Records(less, results, obs)
    requires roots.Keys == known && forall p :: p in obs ==> p.0 in known && p.1 in known
    requires Forced(known, obs, roots) && AllJoined(obs, roots) && AllSeparated(less, obs, roots, negative)
    requires Classes(less, roots, heads, groups)
    requires forall q :: q in unknown ==> exists i, j :: 0 <= i < j < |heads| && q == (heads[i], heads[j])
    requires forall i, j :: 0 <= i < j < |heads| ==> ((heads[i], heads[j]) in unknown || Key(less, heads[i], heads[j]) in negative)
    requires forall q :: q in unknown ==> Key(less, q.0, q.1) !in negative
    ensures IsPartition(known, results, roots)
    ensures unknown == [] ==> OnlyPartition(known, results, roots)
    ensures unknown != [] ==> SeveralPartitions(known, results)
  {
    RootsRespect(less, known, obs, roots, negative);
    PartitionIsRespect(less, known, results, obs, roots);
    if unknown == [] {
      forall a, b | a in known && b in known && roots[a] != roots[b] ensures Apart(less, roots, negative, a, b) {
        var i :| 0 <= i < |heads| && heads[i] == roots[a];
        var j :| 0 <= j < |heads| && heads[j] == roots[b];
        assert Key(less, heads[i], heads[j]) == Key(less, heads[j], heads[i]);
      }
      forall m | IsPartition(known, results, m) ensures SamePartition(known, roots, m) {
        PartitionIsRespect(less, known, results, obs, m);
        SeparatedRootsAreUnique(less, known, obs, roots, negative, m);
      }
    } else {
      assert unknown[0] in unknown;
      OpenPairMeansSeveral(less, known, results, obs, roots, negative, heads, groups, unknown[0]);
    }
  }

  /** The head of a class is a file of the class, and its own root. */
  lemma HeadIsRoot<T(!new)>(less: (T, T) -> bool, roots: map<T, T>, heads: seq<T>, groups: seq<seq<T>>, g: nat)
    requires Classes(less, roots, heads, groups) && g < |heads|
    ensures heads[g] in roots && roots[heads[g]] == heads[g]
  {
    assert IsClass(less, roots, heads[g], groups[g]);
    assert groups[g][0] in groups[g];
  }

  lemma OpenPairMeansSeveral<T(!new)>(less: (T, T) -> bool, known: set<T>, results: seq<Window<T>>, obs: map<(T, T), bool>, roots: map<T, T>,
                                      negative: set<(T, T)>, heads: seq<T>, groups: seq<seq<T>>, q: (T, T))
    requires StrictTotalOrder(less) && AllWellFormed(known, results) && Records(less, results, obs)
    requires roots.Keys == known && forall p :: p in obs ==> p.0 in known && p.1 in known
    requires AllJoined(obs, roots) && AllSeparated(less, obs, roots, negative) && IsPartition(known, results, roots)
    requires Classes(less, roots, heads, groups)
    requires exists i, j :: 0 <= i < j < |heads| && q == (heads[i], heads[j])
    requires Key(less, q.0, q.1) !in negative
    ensures SeveralPartitions(known, results)
  {
    var i, j :| 0 <= i < j < |heads| && q == (heads[i], heads[j]);
    HeadIsRoot(less, roots, heads, groups, i);
    HeadIsRoot(less, roots, heads, groups, j);
    UnseparatedRootsMayMerge(less, known, obs, roots, negative, q.0, q.1);
    PartitionIsRespect(less, known, results, obs, MergeClasses(roots, q.0, q.1));
  }

  lemma ObservedKnown<T(!new)>(less: (T, T) -> bool, known: set<T>, results: seq<Window<T>>, obs: map<(T, T), bool>)
    requires AllWellFormed(known, results) && Records(less, results, obs)
    ensures forall p :: p in obs ==> p.0 in known && p.1 in known && less(p.0, p.1)
  {
    forall p | p in obs ensures p.0 in known && p.1 in known && less(p.0, p.1) {
      var i :| 0 <= i < |results| && p in PairsOf(less, results[i]);
      assert WellFormed(known, results[i]);
    }
  }

  /** A pair of class heads that no answer separates was never shown in one window. */
  lemma OpenPairUnobserved<T(!new)>(less: (T, T) -> bool, known: set<T>, obs: map<(T, T), bool>, roots: map<T, T>,
                                    negative: set<(T, T)>, heads: seq<T>, groups: seq<seq<T>>, q: (T, T))
    requires StrictTotalOrder(less) && roots.Keys == known && forall p :: p in obs ==> p.0 in known && p.1 in known
    requires AllJoined(obs, roots) && AllSeparated(less, obs, roots, negative)
    requires Classes(less, roots, heads, groups)
    requires exists i, j :: 0 <= i < j < |heads| && q == (heads[i], heads[j])
    requires Key(less, q.0, q.1) !in negative
    ensures q.0 in known && q.1 in known && less(q.0, q.1) && q !in obs
  {
    var i, j :| 0 <= i < j < |heads| && q == (heads[i], heads[j]);
    HeadIsRoot(less, roots, heads, groups, i);
    HeadIsRoot(less, roots, heads, groups, j);
  }

  /** The windows read so far are well-formed; observed and obs are what they show and answer. */
  ghost predicate ReadSoFar<T(!new)>(less: (T, T) -> bool, known: set<T>, read: seq<Window<T>>, observed: set<T>, obs: map<(T, T), bool>)
  {
    AllWellFormed(known, read) && Records(less, read, obs) && ShowsExactly(read, observed)
  }

  ghost predicate ShowsExactly<T(!new)>(read: seq<Window<T>>, observed: set<T>) { forall id :: id in observed <==> Shown(read, id) }

  lemma ReadOneMore<T(!new)>(less: (T, T) -> bool, known: set<T>, results: seq<Window<T>>, n: nat,
                             observed: set<T>, obs: map<(T, T), bool>, extended: map<(T, T), bool>)
    requires n < |results| && ReadSoFar(less, known, results[..n], observed, obs) && WellFormed(known, results[n])
    requires Answered(results[n], obs, PairsOf(less, results[n]), extended)
    ensures ReadSoFar(less, known, results[..n + 1], observed + Elements(results[n].ids), extended)
  {
    RecordsGrow(less, results, n, obs, extended);
    ShowsMore(results, n, observed);
    WellFormedMore(known, results, n);
  }

  lemma WellFormedMore<T(!new)>(known: set<T>, results: seq<Window<T>>, n: nat)
    requires n < |results| && AllWellFormed(known, results[..n]) && WellFormed(known, results[n])
    ensures AllWellFormed(known, results[..n + 1])
  {
    forall i | 0 <= i <= n ensures WellFormed(known, results[i]) {
      assert i < n ==> results[i] == results[..n][i];
    }
  }

  lemma ShowsMore<T(!new)>(results: seq<Window<T>>, n: nat, observed: set<T>)
    requires n < |results| && ShowsExactly(results[..n], observed)
    ensures ShowsExactly(results[..n + 1], observed + Elements(results[n].ids))
  {
    forall id ensures id in observed + Elements(results[n].ids) <==> Shown(results[..n + 1], id) {
      ShownEarlierOrNow(results, n, id);
    }
  }

  lemma ShownEarlierOrNow<T(!new)>(results: seq<Window<T>>, n: nat, id: T)
    requires n < |results|
    ensures Shown(results[..n + 1], id) <==> Shown(results[..n], id) || id in results[n].ids
  {
    var more := results[..n + 1];
    assert more[n] == results[n] && forall i :: 0 <= i < n ==> more[i] == results[..n][i];
    if Shown(results[..n], id) {
      var i :| 0 <= i < n && id in results[..n][i].ids;
      assert id in more[i].ids;
    }
    if Shown(more, id) {
      var i :| 0 <= i < n + 1 && id in more[i].ids;
      assert i < n ==> id in results[..n][i].ids;
    }
  }

  /** w contradicts an earlier answer about some pair. */
  ghost predicate Clashes<T(!new)>(less: (T, T) -> bool, w: Window<T>, obs: map<(T, T), bool>)
  {
    exists p :: Reversed(less, w, obs, p)
  }

  lemma OppositeAnswers<T(!new)>(less: (T, T) -> bool, l: map<T, T>, v: Window<T>, w: Window<T>, p: (T, T))
    requires p in PairsOf(less, v) && p in PairsOf(less, w) && SameGroup(v, p.0, p.1) != SameGroup(w, p.0, p.1)
    ensures !(Agrees(l, v) && Agrees(l, w))
  {
  }

  /** Two windows that disagree about a pair admit no partition. */
  lemma ClashMeansNone<T(!new)>(less: (T, T) -> bool, known: set<T>, results: seq<Window<T>>, n: nat, before: map<(T, T), bool>)
    requires n < |results| && Records(less, results[..n], before)
    requires Clashes(less, results[n], before)
    ensures NoPartition(known, results)
  {
    var p :| Reversed(less, results[n], before, p);
    assert ShownIn(less, results[..n], p);
    var i :| 0 <= i < n && p in PairsOf(less, results[..n][i]);
    var v := results[..n][i];
    assert v == results[i];
    forall l ensures !IsPartition(known, results, l) {
      OppositeAnswers(less, l, v, results[n], p);
    }
  }

  method ReadWindow<T(!new, ==)>(less: (T, T) -> bool, known: set<T>, w: Window<T>, obs: map<(T, T), bool>)
    returns (reason: Reason, extended: map<(T, T), bool>)
    requires StrictTotalOrder(less)
    ensures reason.Settled? || reason.ContradictoryPair? || IsMalformed(reason)
    ensures WellFormed(known, w) <==> !IsMalformed(reason)
    ensures reason.Settled? ==> Answered(w, obs, PairsOf(less, w), extended)
    ensures reason.ContradictoryPair? ==> Clashes(less, w, obs)
  {
    extended := obs;
    var members;
    reason, members := CheckWindow(known, w);
    if reason.Settled? {
      var ok;
      ok, extended := Observe(less, w, members, obs);
      if !ok {
        reason := ContradictoryPair;
      }
    }
  }

  /** Reads the windows in turn; stops at the first malformed or contradicting one. */
  method ReadWindows<T(!new, ==)>(less: (T, T) -> bool, known: set<T>, results: seq<Window<T>>)
    returns (reason: Reason, observed: set<T>, obs: map<(T, T), bool>)
    requires StrictTotalOrder(less)
    ensures reason.Settled? || reason.ContradictoryPair? || IsMalformed(reason)
    ensures reason.Settled? ==> ReadSoFar(less, known, results, observed, obs)
    ensures reason.ContradictoryPair? ==> NoPartition(known, results)
    ensures IsMalformed(reason) ==> !AllWellFormed(known, results)
  {
    observed := {};
    obs := map[];
    for i := 0 to |results|
      invariant ReadSoFar(less, known, results[..i], observed, obs)
    {
      var extended;
      reason, extended := ReadWindow(less, known, results[i], obs);
      if IsMalformed(reason) {
        return;
      }
      if reason.ContradictoryPair? {
        ClashMeansNone(less, known, results, i, obs);
        return;
      }
      ReadOneMore(less, known, results, i, observed, obs, extended);
      observed := observed + Elements(results[i].ids);
      obs := extended;
    }
    assert results[..|results|] == results;
    reason := Settled;
  }

  /** Counting the files shown decides whether every file is shown. */
  lemma ShownCount<T(!new)>(less: (T, T) -> bool, ids: seq<T>, results: seq<Window<T>>, observed: set<T>, obs: map<(T, T), bool>)
    requires Sequences.Distinct(ids) && ReadSoFar(less, Elements(ids), results, observed, obs)
    ensures |observed| == |ids| <==> Covers(Elements(ids), results)
  {
    DistinctCardinality(ids);
    forall id | id in observed ensures id in Elements(ids) {
      var i :| 0 <= i < |results| && id in results[i].ids;
      assert WellFormed(Elements(ids), results[i]);
    }
    if |observed| == |ids| {
      SameCardinality(observed, Elements(ids));
    }
    if Covers(Elements(ids), results) {
      forall id | id in Elements(ids) ensures id in observed {
        var i :| 0 <= i < |results| && id in results[i].ids;
      }
      assert observed == Elements(ids);
    }
  }

  /** A pair left open: two class heads that were never shown in one window. */
  ghost predicate OpenPair<T(!new)>(less: (T, T) -> bool, ids: seq<T>, results: seq<Window<T>>, heads: seq<T>, q: (T, T))
  {
    && (exists i, j :: 0 <= i < j < |heads| && q == (heads[i], heads[j]))
    && q.0 in ids && q.1 in ids && less(q.0, q.1)
    && forall i :: 0 <= i < |results| ==> q !in PairsOf(less, results[i])
  }

  /**
   The groups are a partition that agrees with every answer; it is the only one when no pair is
   left open, and otherwise one of several.
   */
  ghost predicate Combined<T(!new)>(less: (T, T) -> bool, ids: seq<T>, results: seq<Window<T>>, out: Partition<T>,
                                    roots: map<T, T>, heads: seq<T>)
  {
    && Classes(less, roots, heads, out.groups)
    && (if out.unknown == []
        then out.reason.Settled? && OnlyPartition(Elements(ids), results, roots)
        else out.reason.UnobservedGroupRelation? && IsPartition(Elements(ids), results, roots) && SeveralPartitions(Elements(ids), results))
    && ArePairsOpen(less, ids, results, heads, out.unknown)
    && OpenPairsExact(less, results, out.groups, out.unknown)
  }

  ghost predicate ArePairsOpen<T(!new)>(less: (T, T) -> bool, ids: seq<T>, results: seq<Window<T>>, heads: seq<T>, unknown: seq<(T, T)>)
  {
    forall i :: 0 <= i < |unknown| ==> OpenPair(less, ids, results, heads, unknown[i])
  }

  method CheckSelected<T(!new, ==)>(blank: T, ids: seq<T>) returns (ok: bool)
    ensures ok <==> ValidIds(blank, ids)
  {
    var parents: map<T, T> := map[];
    for i := 0 to |ids|
      invariant ValidIds(blank, ids[..i]) && parents.Keys == Elements(ids[..i])
    {
      Sequences.TakeSnoc(ids, i);
      if ids[i] == blank || ids[i] in parents {
        return false;
      }
      parents := parents[ids[i] := ids[i]];
    }
    assert ids[..|ids|] == ids;
    ok := true;
  }

  /** What each reason says about the answers. */
  ghost predicate Outcome<T(!new)>(less: (T, T) -> bool, ids: seq<T>, results: seq<Window<T>>, out: Partition<T>,
                                   roots: map<T, T>, heads: seq<T>)
  {
    var known := Elements(ids);
    match out.reason
    case InvalidSelectedIds => false
    case MissingGlobalId => AllWellFormed(known, results) && !Covers(known, results)
    case ContradictoryPair => NoPartition(known, results)
    case TransitiveContradiction => NoPartition(known, results)
    case Settled => AllWellFormed(known, results) && Covers(known, results) && Combined(less, ids, results, out, roots, heads)
    case UnobservedGroupRelation => AllWellFormed(known, results) && Covers(known, results) && Combined(less, ids, results, out, roots, heads)
    case _ => !AllWellFormed(known, results)
  }

  method ReconcileKnown<T(!new, ==)>(less: (T, T) -> bool, ids: seq<T>, results: seq<Window<T>>)
    returns (out: Partition<T>, ghost roots: map<T, T>, ghost heads: seq<T>)
    requires StrictTotalOrder(less) && Sequences.Distinct(ids)
    ensures Outcome(less, ids, results, out, roots, heads)
  {
    roots, heads := map[], [];
    var problem, observed, obs := ReadWindows(less, Elements(ids), results);
    if problem != Settled {
      out := Failed(problem);
    } else {
      ShownCount(less, ids, results, observed, obs);
      if |observed| != |ids| {
        out := Failed(MissingGlobalId);
      } else {
        out, roots, heads := Combine(less, ids, results, obs);
      }
    }
  }

  method Reconcile<T(!new, ==)>(less: (T, T) -> bool, blank: T, ids: seq<T>, results: seq<Window<T>>)
    returns (out: Partition<T>, ghost roots: map<T, T>, ghost heads: seq<T>)
    requires StrictTotalOrder(less)
    ensures out.reason.InvalidSelectedIds? <==> !ValidIds(blank, ids)
    ensures ValidIds(blank, ids) ==> Outcome(less, ids, results, out, roots, heads)
  {
    roots, heads := map[], [];
    var ok := CheckSelected(blank, ids);
    if ok {
      out, roots, heads := ReconcileKnown(less, ids, results);
    } else {
      out := Failed(InvalidSelectedIds);
    }
  }

  /** What remains once the windows are read: merge, separate, list, and look for open pairs. */
  method Combine<T(!new, ==)>(less: (T, T) -> bool, ids: seq<T>, results: seq<Window<T>>, obs: map<(T, T), bool>)
    returns (out: Partition<T>, ghost roots: map<T, T>, ghost heads: seq<T>)
    requires StrictTotalOrder(less) && Sequences.Distinct(ids) && AllWellFormed(Elements(ids), results) && Records(less, results, obs)
    ensures out.reason in {Settled, TransitiveContradiction, UnobservedGroupRelation}
    ensures out.reason.TransitiveContradiction? ==> NoPartition(Elements(ids), results)
    ensures !out.reason.TransitiveContradiction? ==> Combined(less, ids, results, out, roots, heads)
  {
    heads := [];
    var known := Elements(ids);
    ObservedKnown(less, known, results, obs);
    var parent;
    parent, roots := MergePositives(less, known, obs);
    var ok, negative, compressed := CheckNegatives(less, obs, parent, roots);
    if !ok {
      ghost var p :| p in obs && !obs[p] && roots[p.0] == roots[p.1];
      ContradictionMeansNone(known, obs, roots, p);
      forall l ensures !IsPartition(known, results, l) {
        PartitionIsRespect(less, known, results, obs, l);
      }
      return Failed(TransitiveContradiction), roots, heads;
    }
    var groups, order := ListClasses(less, ids, compressed, roots);
    var unknown := UnknownPairs(less, order, negative);
    heads := order;
    out := Partition(groups, unknown, if |unknown| > 0 then UnobservedGroupRelation else Settled);
    CombinedIs(less, ids, results, obs, roots, negative, heads, groups, unknown);
  }

  lemma CombinedIs<T(!new)>(less: (T, T) -> bool, ids: seq<T>, results: seq<Window<T>>, obs: map<(T, T), bool>, roots: map<T, T>,
                            negative: set<(T, T)>, heads: seq<T>, groups: seq<seq<T>>, unknown: seq<(T, T)>)
    requires StrictTotalOrder(less) && AllWellFormed(Elements(ids), results) && Records(less, results, obs)
    requires roots.Keys == Elements(ids) && forall p :: p in obs ==> p.0 in roots && p.1 in roots
    requires Forced(Elements(ids), obs, roots) && AllJoined(obs, roots) && AllSeparated(less, obs, roots, negative)
    requires Classes(less, roots, heads, groups) && PairsAscend(less, unknown)
    requires forall q :: q in unknown <==> exists i, j :: OpenAt(less, heads, negative, i, j, q)
    ensures Combined(less, ids, results, Partition(groups, unknown, if |unknown| > 0 then UnobservedGroupRelation else Settled), roots, heads)
  {
    var known := Elements(ids);
    UnknownIsExact(less, known, results, obs, roots, negative, heads, groups, unknown);
    OpenFacts(less, heads, negative, unknown);
    Verdict(less, known, results, obs, roots, negative, heads, groups, unknown);
    AllOpen(less, ids, results, obs, roots, negative, heads, groups, unknown);
  }

  lemma AllOpen<T(!new)>(less: (T, T) -> bool, ids: seq<T>, results: seq<Window<T>>, obs: map<(T, T), bool>, roots: map<T, T>,
                         negative: set<(T, T)>, heads: seq<T>, groups: seq<seq<T>>, unknown: seq<(T, T)>)
    requires StrictTotalOrder(less) && roots.Keys == Elements(ids) && Records(less, results, obs)
    requires forall p :: p in obs ==> p.0 in roots && p.1 in roots
    requires AllJoined(obs, roots) && AllSeparated(less, obs, roots, negative) && Classes(less, roots, heads, groups)
    requires forall q :: q in unknown ==> exists i, j :: 0 <= i < j < |heads| && q == (heads[i], heads[j])
    requires forall q :: q in unknown ==> Key(less, q.0, q.1) !in negative
    ensures ArePairsOpen(less, ids, results, heads, unknown)
  {
    forall i | 0 <= i < |unknown| ensures OpenPair(less, ids, results, heads, unknown[i]) {
      assert unknown[i] in unknown;
      OpenPairUnobserved(less, Elements(ids), obs, roots, negative, heads, groups, unknown[i]);
      NotShown(less, results, obs, unknown[i]);
    }
  }

  lemma NotShown<T(!new)>(less: (T, T) -> bool, results: seq<Window<T>>, obs: map<(T, T), bool>, q: (T, T))
    requires Records(less, results, obs) && q !in obs
    ensures forall i :: 0 <= i < |results| ==> q !in PairsOf(less, results[i])
  {
    forall i | 0 <= i < |results| ensures q !in PairsOf(less, results[i]) {
      assert Holds(less, results[i], obs);
    }
  }

  /**
   For well-formed answers that show every file, the reason tells exactly how many partitions
   agree with all of them: none, one, or several.
   */
  method ReconcileExactly<T(!new, ==)>(less: (T, T) -> bool, blank: T, ids: seq<T>, results: seq<Window<T>>) returns (out: Partition<T>)
    requires StrictTotalOrder(less) && ValidIds(blank, ids)
    requires AllWellFormed(Elements(ids), results) && Covers(Elements(ids), results)
    ensures IsContradiction(out.reason) <==> NoPartition(Elements(ids), results)
    ensures out.reason.Settled? <==> exists l :: OnlyPartition(Elements(ids), results, l)
    ensures out.reason.UnobservedGroupRelation? <==> SeveralPartitions(Elements(ids), results)
  {
    ghost var roots, heads;
    out, roots, heads := Reconcile(less, blank, ids, results);
    VerdictsExclusive(Elements(ids), results, roots);
    if exists l :: OnlyPartition(Elements(ids), results, l) {
      ghost var l :| OnlyPartition(Elements(ids), results, l);
      VerdictsExclusive(Elements(ids), results, l);
    }
  }
}
