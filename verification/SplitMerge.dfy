/**
 Cross-file evidence against a unique match (internal/historyattribution/mapping.go): one-sided
 fragments that lie, whole and apart from each other, inside a block of the other side.
 */
module SplitMerge {
  import opened DiffBlocks
  import opened BlockAttribution

  // ---------------------------------------------------------------- contained fragments

  /** The edited lines without the markers of a missing newline. */
  function ContentLines(b: Block): seq<Edit>
  {
    if b == [] then [] else ContentLines(b[..|b| - 1]) + if b[|b| - 1].NoNewline? then [] else [b[|b| - 1]]
  }

  predicate SingleDirection(lines: seq<Edit>)
  {
    |lines| > 0 && forall i :: 0 <= i < |lines| ==> lines[i].Removal? == lines[0].Removal?
  }

  predicate OccursAt(a: seq<Edit>, b: seq<Edit>, s: int) { 0 <= s && s + |b| <= |a| && a[s..s + |b|] == b }

  /** Where b first occurs in a. */
  ghost predicate FirstAt(a: seq<Edit>, b: seq<Edit>, s: int)
  {
    |b| > 0 && OccursAt(a, b, s) && forall t :: 0 <= t < s ==> !OccursAt(a, b, t)
  }

  ghost predicate Contains(a: seq<Edit>, b: seq<Edit>) { |b| > 0 && exists s :: OccursAt(a, b, s) }

  /** The comparison stops at the first difference. */
  method SameFrom(a: seq<Edit>, b: seq<Edit>, start: nat) returns (same: bool)
    requires start + |b| <= |a|
    ensures same == OccursAt(a, b, start)
  {
    for j := 0 to |b|
      invariant forall k :: 0 <= k < j ==> a[start + k] == b[k]
    {
      if a[start + j] != b[j] {
        assert a[start..start + |b|][j] != b[j];
        return false;
      }
    }
    same := true;
  }

  method ContainedLines(a: seq<Edit>, b: seq<Edit>) returns (start: nat, end: nat, found: bool)
    ensures found <==> Contains(a, b)
    ensures found ==> FirstAt(a, b, start) && end == start + |b|
  {
    if |b| == 0 || |b| > |a| {
      return 0, 0, false;
    }
    start := 0;
    while start + |b| <= |a|
      invariant forall t :: 0 <= t < start ==> !OccursAt(a, b, t)
      decreases |a| - start
    {
      var equal := SameFrom(a, b, start);
      if equal {
        return start, start + |b|, true;
      }
      start := start + 1;
    }
    return 0, 0, false;
  }

  lemma FirstIsUnique(a: seq<Edit>, b: seq<Edit>, s: int, t: int)
    requires FirstAt(a, b, s) && FirstAt(a, b, t)
    ensures s == t
  {
  }

  datatype Fragment = Fragment(path: Path, lines: seq<Edit>)

  /** The first occurrences of both parts inside the whole do not overlap. */
  ghost predicate ApartIn(whole: seq<Edit>, a: seq<Edit>, b: seq<Edit>)
  {
    exists s, t :: FirstAt(whole, a, s) && FirstAt(whole, b, t) && (s + |a| <= t || t + |b| <= s)
  }

  /** Two fragments of different paths, apart inside the whole. */
  ghost predicate Pair(whole: seq<Edit>, parts: seq<Fragment>, i: int, j: int)
  {
    0 <= i < |parts| && 0 <= j < |parts| && parts[i].path != parts[j].path && ApartIn(whole, parts[i].lines, parts[j].lines)
  }

  lemma PairIsSymmetric(whole: seq<Edit>, parts: seq<Fragment>, i: int, j: int)
    requires Pair(whole, parts, i, j)
    ensures Pair(whole, parts, j, i)
  {
    var s, t :| FirstAt(whole, parts[i].lines, s) && FirstAt(whole, parts[j].lines, t)
                && (s + |parts[i].lines| <= t || t + |parts[j].lines| <= s);
    assert FirstAt(whole, parts[j].lines, t) && FirstAt(whole, parts[i].lines, s);
  }

  datatype Located = Located(index: nat, start: nat, end: nat)

  ghost predicate IsLocated(whole: seq<Edit>, parts: seq<Fragment>, l: Located)
  {
    l.index < |parts| && FirstAt(whole, parts[l.index].lines, l.start) && l.end == l.start + |parts[l.index].lines|
  }

  /** All parts inside the whole, each with its first range; the pre-filter drops none of them. */
  method ContainedParts(whole: seq<Edit>, parts: seq<Fragment>) returns (found: seq<Located>)
    requires SingleDirection(whole)
    ensures forall k :: 0 <= k < |found| ==> IsLocated(whole, parts, found[k])
    ensures forall k, l :: 0 <= k < l < |found| ==> found[k].index < found[l].index
    ensures forall i {:trigger parts[i]} :: 0 <= i < |parts| && Contains(whole, parts[i].lines) ==>
              exists k :: 0 <= k < |found| && found[k].index == i
  {
    found := [];
    for i := 0 to |parts|
      invariant forall k :: 0 <= k < |found| ==> IsLocated(whole, parts, found[k]) && found[k].index < i
      invariant forall k, l :: 0 <= k < l < |found| ==> found[k].index < found[l].index
      invariant forall j {:trigger parts[j]} :: 0 <= j < i && Contains(whole, parts[j].lines) ==> exists k :: 0 <= k < |found| && found[k].index == j
    {
      var part := parts[i].lines;
      ghost var before := found;
      assert Contains(whole, part) ==> 0 < |part| <= |whole| && part[0].Removal? == whole[0].Removal?;
      if |part| == 0 || |part| > |whole| || part[0].Removal? != whole[0].Removal? {
        continue;
      }
      var start, end, contained := ContainedLines(whole, part);
      if contained {
        found := found + [Located(i, start, end)];
        assert found[|before|].index == i;
        assert forall k :: 0 <= k < |before| ==> found[k] == before[k];
      }
    }
  }

  /** The later fragments that form a pair with the one at place k. */
  method PairsFrom(whole: seq<Edit>, parts: seq<Fragment>, found: seq<Located>, k: nat) returns (pairs: seq<(int, int)>)
    requires k < |found| && forall l :: 0 <= l < |found| ==> IsLocated(whole, parts, found[l])
    ensures forall p :: p in pairs ==> Pair(whole, parts, p.0, p.1)
    ensures forall l {:trigger Listed(found, pairs, k, l)} :: k < l < |found| && PairAt(whole, parts, found, k, l) ==> Listed(found, pairs, k, l)
  {
    pairs := [];
    for l := k + 1 to |found|
      invariant forall p :: p in pairs ==> Pair(whole, parts, p.0, p.1)
      invariant forall j {:trigger Listed(found, pairs, k, j)} :: k < j < l && PairAt(whole, parts, found, k, j) ==> Listed(found, pairs, k, j)
    {
      var a, b := found[k], found[l];
      PairOfLocated(whole, parts, found, k, l);
      ghost var before := pairs;
      if parts[a.index].path != parts[b.index].path && (a.end <= b.start || b.end <= a.start) {
        pairs := pairs + [(a.index, b.index)];
      }
      forall j | k < j < l + 1 && PairAt(whole, parts, found, k, j) ensures Listed(found, pairs, k, j) {
        assert j < l ==> Listed(found, before, k, j);
      }
    }
  }

  ghost predicate Listed(found: seq<Located>, pairs: seq<(int, int)>, k: int, l: int)
    requires 0 <= k < |found| && 0 <= l < |found|
  {
    (found[k].index, found[l].index) in pairs
  }

  /** All pairs of different paths whose ranges in the whole are apart, as pairs of indices. */
  method PairsWithin(whole: seq<Edit>, parts: seq<Fragment>) returns (pairs: seq<(int, int)>)
    requires SingleDirection(whole)
    ensures forall p :: p in pairs ==> Pair(whole, parts, p.0, p.1)
    ensures forall i, j :: Pair(whole, parts, i, j) ==> (i, j) in pairs || (j, i) in pairs
  {
    var found := ContainedParts(whole, parts);
    pairs := [];
    for k := 0 to |found|
      invariant forall p :: p in pairs ==> Pair(whole, parts, p.0, p.1)
      invariant forall m, l {:trigger Listed(found, pairs, m, l)} ::
        0 <= m < k && m < l < |found| && PairAt(whole, parts, found, m, l) ==> Listed(found, pairs, m, l)
    {
      var row := PairsFrom(whole, parts, found, k);
      forall m, l | 0 <= m <= k && m < l < |found| && PairAt(whole, parts, found, m, l) ensures Listed(found, pairs + row, m, l) {
        assert m < k ==> Listed(found, pairs, m, l);
        assert m == k ==> Listed(found, row, m, l);
      }
      pairs := pairs + row;
    }
    forall m, l | 0 <= m < l < |found| && PairAt(whole, parts, found, m, l) ensures (found[m].index, found[l].index) in pairs {
      assert Listed(found, pairs, m, l);
    }
    AllPairsFound(whole, parts, found, pairs);
  }

  ghost predicate PairAt(whole: seq<Edit>, parts: seq<Fragment>, found: seq<Located>, k: nat, l: nat)
    requires k < |found| && l < |found|
  {
    Pair(whole, parts, found[k].index, found[l].index)
  }

  lemma PairOfLocated(whole: seq<Edit>, parts: seq<Fragment>, found: seq<Located>, k: nat, l: nat)
    requires k < |found| && l < |found| && IsLocated(whole, parts, found[k]) && IsLocated(whole, parts, found[l])
    ensures PairAt(whole, parts, found, k, l) <==>
              parts[found[k].index].path != parts[found[l].index].path && (found[k].end <= found[l].start || found[l].end <= found[k].start)
  {
    var a, b := parts[found[k].index].lines, parts[found[l].index].lines;
    if s, t :| FirstAt(whole, a, s) && FirstAt(whole, b, t) && (s + |a| <= t || t + |b| <= s) {
      FirstIsUnique(whole, a, s, found[k].start);
      FirstIsUnique(whole, b, t, found[l].start);
    }
  }

  lemma AllPairsFound(whole: seq<Edit>, parts: seq<Fragment>, found: seq<Located>, pairs: seq<(int, int)>)
    requires forall i {:trigger parts[i]} :: 0 <= i < |parts| && Contains(whole, parts[i].lines) ==>
               exists k :: 0 <= k < |found| && found[k].index == i
    requires forall m, l :: 0 <= m < l < |found| && PairAt(whole, parts, found, m, l) ==> (found[m].index, found[l].index) in pairs
    ensures forall i, j :: Pair(whole, parts, i, j) ==> (i, j) in pairs || (j, i) in pairs
  {
    forall i, j | Pair(whole, parts, i, j) ensures (i, j) in pairs || (j, i) in pairs {
      PairIsSymmetric(whole, parts, i, j);
      assert Contains(whole, parts[i].lines) && Contains(whole, parts[j].lines);
      var k :| 0 <= k < |found| && found[k].index == i;
      var l :| 0 <= l < |found| && found[l].index == j;
      assert PairAt(whole, parts, found, k, l) && PairAt(whole, parts, found, l, k);
    }
  }

  // ---------------------------------------------------------------- marking results

  /** A one-sided block of the current diff, and the attribution it belongs to. */
  datatype Current = Current(fragment: Fragment, result: nat)

  /** A one-sided block of a recorded operation. */
  datatype Past = Past(fragment: Fragment, candidate: Candidate)

  datatype Sides = Sides(current: seq<Current>, history: seq<Past>)

  function CurrentParts(s: Sides): seq<Fragment> { seq(|s.current|, i requires 0 <= i < |s.current| => s.current[i].fragment) }

  function PastParts(s: Sides): seq<Fragment> { seq(|s.history|, i requires 0 <= i < |s.history| => s.history[i].fragment) }

  ghost predicate OneSided(s: Sides)
  {
    && (forall i :: 0 <= i < |s.current| ==> SingleDirection(s.current[i].fragment.lines))
    && (forall i :: 0 <= i < |s.history| ==> SingleDirection(s.history[i].fragment.lines))
  }

  /** Fragments of two current paths lie apart in one recorded block. */
  ghost predicate IsSplit(s: Sides, h: int, i: int, j: int)
  {
    0 <= h < |s.history| && Pair(s.history[h].fragment.lines, CurrentParts(s), i, j)
  }

  /** Recorded fragments of two paths lie apart in one current block. */
  ghost predicate IsMerge(s: Sides, c: int, i: int, j: int)
  {
    0 <= c < |s.current| && Pair(s.current[c].fragment.lines, PastParts(s), i, j)
  }

  ghost predicate SplitLink(s: Sides, r: nat, candidate: Candidate)
  {
    exists h, i, j :: IsSplit(s, h, i, j) && s.current[i].result == r && s.history[h].candidate == candidate
  }

  ghost predicate MergeLink(s: Sides, r: nat, candidate: Candidate)
  {
    exists c, i, j :: IsMerge(s, c, i, j) && s.current[c].result == r && s.history[i].candidate == candidate
  }

  /** The candidate is a reason to doubt the attribution. */
  ghost predicate Linked(s: Sides, r: nat, candidate: Candidate) { SplitLink(s, r, candidate) || MergeLink(s, r, candidate) }

  /** No pair of fragments speaks against the attribution. */
  ghost predicate Unopposed(s: Sides, r: nat) { forall candidate :: !Linked(s, r, candidate) }

  /** An attribution after it was marked with the given candidates; failed ones are left alone. */
  ghost predicate Marked(before: Attribution, after: Attribution, doubts: set<Candidate>)
  {
    if before.status == Failed || doubts == {} then after == before
    else
      && after.path == before.path && after.block == before.block && after.status == Ambiguous
      && (forall x :: x in after.reasons <==> x in before.reasons || x == BlockAttribution.SplitMerge)
      && (forall c :: c in after.candidates <==> c in before.candidates || c in doubts)
      && after.singleTurn == OneTurn(after.candidates)
  }

  method Mark(before: Attribution, candidate: Candidate) returns (after: Attribution)
    ensures Marked(before, after, {candidate})
    ensures forall original, doubts :: Marked(original, before, doubts) ==> Marked(original, after, doubts + {candidate})
  {
    if before.status == Failed {
      return before;
    }
    var reasons := AddReason(before.reasons, BlockAttribution.SplitMerge);
    var candidates := if candidate in before.candidates then before.candidates else before.candidates + [candidate];
    after := before.(reasons := reasons, status := Ambiguous, candidates := candidates, singleTurn := OneTurn(candidates));
  }

  /** The candidates among the marks made so far for one attribution. */
  function DoubtsOf(marks: set<(nat, Candidate)>, r: nat): set<Candidate> { set m | m in marks && m.0 == r :: m.1 }

  ghost predicate AllMarked(before: seq<Attribution>, after: seq<Attribution>, marks: set<(nat, Candidate)>)
  {
    |after| == |before| && forall r :: 0 <= r < |before| ==> Marked(before[r], after[r], DoubtsOf(marks, r))
  }

  method MarkResult(ghost before: seq<Attribution>, results: seq<Attribution>, ghost marks: set<(nat, Candidate)>, r: nat, candidate: Candidate)
    returns (after: seq<Attribution>)
    requires AllMarked(before, results, marks) && r < |before|
    ensures AllMarked(before, after, marks + {(r, candidate)})
  {
    var marked := Mark(results[r], candidate);
    after := results[r := marked];
    forall k | 0 <= k < |before| ensures Marked(before[k], after[k], DoubtsOf(marks + {(r, candidate)}, k)) {
      DoubtsGrow(marks, r, candidate, k);
    }
  }

  lemma DoubtsGrow(marks: set<(nat, Candidate)>, r: nat, candidate: Candidate, k: nat)
    ensures DoubtsOf(marks + {(r, candidate)}, k) == if k == r then DoubtsOf(marks, k) + {candidate} else DoubtsOf(marks, k)
  {
    var more := marks + {(r, candidate)};
    assert (r, candidate) in more;
    forall c ensures c in DoubtsOf(more, k) <==> c in DoubtsOf(marks, k) || (k == r && c == candidate) {
      assert c in DoubtsOf(marks, k) ==> (k, c) in marks;
      assert c in DoubtsOf(more, k) ==> (k, c) in more;
      assert (k, c) in marks ==> (k, c) in more;
    }
  }

  /** The marks that one recorded block gives, or one current block takes. */
  method Apply(ghost before: seq<Attribution>, results: seq<Attribution>, ghost marks: set<(nat, Candidate)>, targets: seq<(nat, Candidate)>)
    returns (after: seq<Attribution>, ghost marks': set<(nat, Candidate)>)
    requires AllMarked(before, results, marks) && forall t :: t in targets ==> t.0 < |before|
    ensures AllMarked(before, after, marks') && forall m :: m in marks' <==> m in marks || m in targets
  {
    after, marks' := results, marks;
    for k := 0 to |targets|
      invariant AllMarked(before, after, marks') && forall m :: m in marks' <==> m in marks || m in targets[..k]
    {
      assert targets[..k + 1] == targets[..k] + [targets[k]];
      after := MarkResult(before, after, marks', targets[k].0, targets[k].1);
      marks' := marks' + {(targets[k].0, targets[k].1)};
    }
    assert targets[..|targets|] == targets;
  }

  ghost predicate SplitMark(s: Sides, h: int, m: (nat, Candidate))
  {
    exists i, j :: IsSplit(s, h, i, j) && s.current[i].result == m.0 && s.history[h].candidate == m.1
  }

  ghost predicate MergeMark(s: Sides, c: int, m: (nat, Candidate))
  {
    exists i, j :: IsMerge(s, c, i, j) && s.current[c].result == m.0 && s.history[i].candidate == m.1
  }

  /** The two marks of a pair. */
  predicate SplitMarkOf(s: Sides, h: nat, p: (int, int), m: (nat, Candidate))
    requires h < |s.history|
  {
    && 0 <= p.0 < |s.current| && 0 <= p.1 < |s.current|
    && (m == (s.current[p.0].result, s.history[h].candidate) || m == (s.current[p.1].result, s.history[h].candidate))
  }

  method SplitMarksOf(s: Sides, h: nat, pairs: seq<(int, int)>) returns (targets: seq<(nat, Candidate)>)
    requires h < |s.history| && forall l :: 0 <= l < |pairs| ==> 0 <= pairs[l].0 < |s.current| && 0 <= pairs[l].1 < |s.current|
    ensures forall m :: m in targets <==> exists l :: 0 <= l < |pairs| && SplitMarkOf(s, h, pairs[l], m)
  {
    targets := [];
    for k := 0 to |pairs|
      invariant forall m :: m in targets <==> exists l :: 0 <= l < k && SplitMarkOf(s, h, pairs[l], m)
    {
      var p := pairs[k];
      targets := targets + [(s.current[p.0].result, s.history[h].candidate), (s.current[p.1].result, s.history[h].candidate)];
    }
  }

  lemma SplitMarkOfPair(s: Sides, h: nat, p: (int, int), m: (nat, Candidate))
    requires h < |s.history| && Pair(s.history[h].fragment.lines, CurrentParts(s), p.0, p.1) && SplitMarkOf(s, h, p, m)
    ensures SplitMark(s, h, m)
  {
    PairIsSymmetric(s.history[h].fragment.lines, CurrentParts(s), p.0, p.1);
    assert IsSplit(s, h, p.0, p.1) && IsSplit(s, h, p.1, p.0);
  }

  lemma PairOfSplitMark(s: Sides, h: nat, m: (nat, Candidate)) returns (p: (int, int))
    requires h < |s.history| && SplitMark(s, h, m)
    ensures Pair(s.history[h].fragment.lines, CurrentParts(s), p.0, p.1) && SplitMarkOf(s, h, p, m) && SplitMarkOf(s, h, (p.1, p.0), m)
  {
    var i, j :| IsSplit(s, h, i, j) && s.current[i].result == m.0 && s.history[h].candidate == m.1;
    p := (i, j);
  }

  /** The attributions a recorded block casts doubt on. */
  method SplitTargets(s: Sides, h: nat) returns (targets: seq<(nat, Candidate)>)
    requires OneSided(s) && h < |s.history|
    ensures forall m :: m in targets <==> SplitMark(s, h, m)
  {
    var pairs := PairsWithin(s.history[h].fragment.lines, CurrentParts(s));
    assert forall l :: 0 <= l < |pairs| ==> pairs[l] in pairs;
    targets := SplitMarksOf(s, h, pairs);
    forall m | m in targets ensures SplitMark(s, h, m) {
      var l :| 0 <= l < |pairs| && SplitMarkOf(s, h, pairs[l], m);
      SplitMarkOfPair(s, h, pairs[l], m);
    }
    forall m | SplitMark(s, h, m) ensures m in targets {
      var p := PairOfSplitMark(s, h, m);
      var q := if (p.0, p.1) in pairs then p else (p.1, p.0);
      var l :| 0 <= l < |pairs| && pairs[l] == q;
    }
  }

  /** The two marks of a pair. */
  predicate MergeMarkOf(s: Sides, c: nat, p: (int, int), m: (nat, Candidate))
    requires c < |s.current|
  {
    && 0 <= p.0 < |s.history| && 0 <= p.1 < |s.history|
    && (m == (s.current[c].result, s.history[p.0].candidate) || m == (s.current[c].result, s.history[p.1].candidate))
  }

  method MergeMarksOf(s: Sides, c: nat, pairs: seq<(int, int)>) returns (targets: seq<(nat, Candidate)>)
    requires c < |s.current| && forall l :: 0 <= l < |pairs| ==> 0 <= pairs[l].0 < |s.history| && 0 <= pairs[l].1 < |s.history|
    ensures forall m :: m in targets <==> exists l :: 0 <= l < |pairs| && MergeMarkOf(s, c, pairs[l], m)
  {
    targets := [];
    for k := 0 to |pairs|
      invariant forall m :: m in targets <==> exists l :: 0 <= l < k && MergeMarkOf(s, c, pairs[l], m)
    {
      var p := pairs[k];
      targets := targets + [(s.current[c].result, s.history[p.0].candidate), (s.current[c].result, s.history[p.1].candidate)];
    }
  }

  lemma MergeMarkOfPair(s: Sides, c: nat, p: (int, int), m: (nat, Candidate))
    requires c < |s.current| && Pair(s.current[c].fragment.lines, PastParts(s), p.0, p.1) && MergeMarkOf(s, c, p, m)
    ensures MergeMark(s, c, m)
  {
    PairIsSymmetric(s.current[c].fragment.lines, PastParts(s), p.0, p.1);
    assert IsMerge(s, c, p.0, p.1) && IsMerge(s, c, p.1, p.0);
  }

  lemma PairOfMergeMark(s: Sides, c: nat, m: (nat, Candidate)) returns (p: (int, int))
    requires c < |s.current| && MergeMark(s, c, m)
    ensures Pair(s.current[c].fragment.lines, PastParts(s), p.0, p.1) && MergeMarkOf(s, c, p, m) && MergeMarkOf(s, c, (p.1, p.0), m)
  {
    var i, j :| IsMerge(s, c, i, j) && s.current[c].result == m.0 && s.history[i].candidate == m.1;
    p := (i, j);
  }

  /** The recorded operations that cast doubt on a current block. */
  method MergeTargets(s: Sides, c: nat) returns (targets: seq<(nat, Candidate)>)
    requires OneSided(s) && c < |s.current|
    ensures forall m :: m in targets <==> MergeMark(s, c, m)
  {
    var pairs := PairsWithin(s.current[c].fragment.lines, PastParts(s));
    assert forall l :: 0 <= l < |pairs| ==> pairs[l] in pairs;
    targets := MergeMarksOf(s, c, pairs);
    forall m | m in targets ensures MergeMark(s, c, m) {
      var l :| 0 <= l < |pairs| && MergeMarkOf(s, c, pairs[l], m);
      MergeMarkOfPair(s, c, pairs[l], m);
    }
    forall m | MergeMark(s, c, m) ensures m in targets {
      var p := PairOfMergeMark(s, c, m);
      var q := if (p.0, p.1) in pairs then p else (p.1, p.0);
      var l :| 0 <= l < |pairs| && pairs[l] == q;
    }
  }

  method MarkSplitMergeEvidence(s: Sides, results: seq<Attribution>) returns (after: seq<Attribution>)
    requires OneSided(s) && forall i :: 0 <= i < |s.current| ==> s.current[i].result < |results|
    ensures |after| == |results|
    ensures forall r :: 0 <= r < |results| ==> Doubted(s, results[r], after[r], r)
    ensures forall r :: 0 <= r < |results| ==> (after[r].status == Matched <==> results[r].status == Matched && Unopposed(s, r))
    ensures forall r :: 0 <= r < |results| && results[r].status == Failed ==> after[r] == results[r]
  {
    after := results;
    ghost var marks: set<(nat, Candidate)> := {};
    for h := 0 to |s.history|
      invariant AllMarked(results, after, marks)
      invariant forall m :: m in marks <==> exists k :: 0 <= k < h && SplitMark(s, k, m)
    {
      var targets := SplitTargets(s, h);
      after, marks := Apply(results, after, marks, targets);
    }
    for c := 0 to |s.current|
      invariant AllMarked(results, after, marks)
      invariant forall m :: m in marks <==> (exists k :: 0 <= k < |s.history| && SplitMark(s, k, m)) || exists k :: 0 <= k < c && MergeMark(s, k, m)
    {
      var targets := MergeTargets(s, c);
      after, marks := Apply(results, after, marks, targets);
    }
    forall r | 0 <= r < |results| ensures Doubted(s, results[r], after[r], r) {
      assert Marked(results[r], after[r], DoubtsOf(marks, r));
      forall candidate ensures candidate in DoubtsOf(marks, r) <==> Linked(s, r, candidate) {
        LinkedMarks(s, marks, r, candidate);
      }
    }
  }

  lemma LinkedMarks(s: Sides, marks: set<(nat, Candidate)>, r: nat, candidate: Candidate)
    requires forall m :: m in marks <==>
               (exists k :: 0 <= k < |s.history| && SplitMark(s, k, m)) || exists k :: 0 <= k < |s.current| && MergeMark(s, k, m)
    ensures candidate in DoubtsOf(marks, r) <==> Linked(s, r, candidate)
  {
    var m := (r, candidate);
    assert candidate in DoubtsOf(marks, r) <==> m in marks;
    if h, i, j :| IsSplit(s, h, i, j) && s.current[i].result == r && s.history[h].candidate == candidate {
      assert SplitMark(s, h, m);
    }
    if c, i, j :| IsMerge(s, c, i, j) && s.current[c].result == r && s.history[i].candidate == candidate {
      assert MergeMark(s, c, m);
    }
  }

  /** Exactly the attributions with a split or a merge against them are marked, with all its operations. */
  ghost predicate Doubted(s: Sides, before: Attribution, after: Attribution, r: nat)
  {
    exists doubts {:trigger Marked(before, after, doubts)} ::
      Marked(before, after, doubts) && forall candidate :: candidate in doubts <==> Linked(s, r, candidate)
  }
}
