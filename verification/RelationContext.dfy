/**
 Building the candidate graph (internal/relation/graph.go:63-156) and validating the relation context
 that is made of it (internal/contextinput/relations.go:40-83).
 */
module RelationContext {
  import opened Wrappers
  import Strings
  import Sorting
  import Sequences
  import NaturalOrder
  import CandidateGraph

  datatype Kind = GitRename | PathProximity | OtherKind(name: string)

  datatype Relation = Relation(source: string, target: string, kind: Kind, reason: string, evidenceType: string)
  datatype Observation = Observation(source: string, candidates: seq<string>)
  datatype Hint = Hint(kind: Kind, files: seq<string>)

  /** What extraction delivers besides the files. */
  datatype Extracted = Extracted(relations: seq<Relation>, observations: seq<Observation>, hints: seq<Hint>)

  datatype Component = Component(id: string, files: seq<string>)

  datatype Graph = Graph(nodes: seq<string>, edges: seq<Relation>, hints: seq<Hint>, components: seq<Component>,
                         densePairs: int, candidatePairs: int, reducedPairs: int)

  datatype Refusal = EmptyId | DuplicateId | UnknownObserved | UnknownHinted | UnknownRelated

  datatype Result<T> = Ok(value: T) | Refuse(refusal: Refusal)

  // ---------------------------------------------------------------- the input

  ghost predicate ValidIds(ids: seq<string>)
  {
    (forall i :: 0 <= i < |ids| ==> |ids[i]| > 0) && Sequences.Distinct(ids)
  }

  predicate ObservationKnown(ids: seq<string>, o: Observation) { o.source in ids && forall c :: c in o.candidates ==> c in ids }

  predicate HintKnown(ids: seq<string>, h: Hint) { forall f :: f in h.files ==> f in ids }

  predicate RelationKnown(ids: seq<string>, r: Relation) { r.source in ids && r.target in ids }

  ghost predicate AllKnown(ids: seq<string>, x: Extracted)
  {
    && (forall o :: o in x.observations ==> ObservationKnown(ids, o))
    && (forall h :: h in x.hints ==> HintKnown(ids, h))
    && (forall r :: r in x.relations ==> RelationKnown(ids, r))
  }

  /** Renames of a file to itself, proximity and other self relations connect nothing. */
  predicate Connects(r: Relation) { !r.kind.PathProximity? && r.source != r.target }

  function Connecting(relations: seq<Relation>): seq<Relation>
  {
    if relations == [] then []
    else Connecting(relations[..|relations| - 1]) + if Connects(relations[|relations| - 1]) then [relations[|relations| - 1]] else []
  }

  lemma {:induction false} ConnectingMembers(relations: seq<Relation>)
    ensures forall r :: r in Connecting(relations) <==> r in relations && Connects(r)
  {
    if relations != [] {
      var n := |relations| - 1;
      ConnectingMembers(relations[..n]);
      assert relations == relations[..n] + [relations[n]];
    }
  }

  function Ends(edges: seq<Relation>): seq<(string, string)>
  {
    seq(|edges|, i requires 0 <= i < |edges| => (edges[i].source, edges[i].target))
  }

  function Digits(n: nat): string
  {
    var digits := NaturalOrder.Decimal(n);
    if n < 10 then "00" + digits else if n < 100 then "0" + digits else digits
  }

  /** C001, C002 and so on. */
  function ComponentId(k: nat): string { "C" + Digits(k) }

  function Named(comps: seq<seq<string>>): seq<Component>
  {
    seq(|comps|, k requires 0 <= k < |comps| => Component(ComponentId(k + 1), comps[k]))
  }

  lemma DigitsValue(n: nat)
    ensures NaturalOrder.AllDigits(Digits(n)) && NaturalOrder.Value(Digits(n)) == n
  {
    NaturalOrder.DecimalValue(n);
    var d := NaturalOrder.Decimal(n);
    assert ("0" + d)[1..] == d;
    assert NaturalOrder.Value("0" + d) == n;
    assert ("00" + d)[1..] == "0" + d;
  }

  lemma ComponentIdsDiffer(j: nat, k: nat)
    requires ComponentId(j) == ComponentId(k)
    ensures j == k
  {
    DigitsValue(j);
    DigitsValue(k);
    assert ComponentId(j)[1..] == Digits(j) && ComponentId(k)[1..] == Digits(k);
  }

  // ---------------------------------------------------------------- the graph

  ghost predicate IsGraph(ids: seq<string>, x: Extracted, order: (Relation, Relation) -> bool, g: Graph)
  {
    && g.nodes == Sorting.Sort(Strings.Less, ids) && g.edges == Sorting.Sort(order, Connecting(x.relations)) && g.hints == x.hints
    && (exists comps {:trigger Named(comps)} ::
          g.components == Named(comps) && CandidateGraph.Components(Strings.Less, Ends(g.edges), comps)
          && (forall f :: f in ids <==> CandidateGraph.InSome(comps, f))
          && g.reducedPairs == |CandidateGraph.CrossPairs(Strings.Less, g.nodes, comps)|)
    && g.reducedPairs == g.densePairs - g.candidatePairs && g.densePairs == CandidateGraph.PairsOf(|ids|)
  }

  method CheckIds(ids: seq<string>) returns (refusal: Option<Refusal>)
    ensures refusal.None? <==> ValidIds(ids)
  {
    for i := 0 to |ids|
      invariant ValidIds(ids[..i])
    {
      assert ids[..i + 1] == ids[..i] + [ids[i]];
      if |ids[i]| == 0 {
        return Some(EmptyId);
      }
      if ids[i] in ids[..i] {
        return Some(DuplicateId);
      }
      assert forall j :: 0 <= j < i ==> ids[..i][j] == ids[j];
    }
    assert ids[..|ids|] == ids;
    refusal := None;
  }

  method CheckReferences(ids: seq<string>, x: Extracted) returns (refusal: Option<Refusal>)
    ensures refusal.None? <==> AllKnown(ids, x)
  {
    for i := 0 to |x.observations|
      invariant forall j :: 0 <= j < i ==> ObservationKnown(ids, x.observations[j])
    {
      if !ObservationKnown(ids, x.observations[i]) {
        return Some(UnknownObserved);
      }
    }
    for i := 0 to |x.hints|
      invariant forall j :: 0 <= j < i ==> HintKnown(ids, x.hints[j])
    {
      if !HintKnown(ids, x.hints[i]) {
        return Some(UnknownHinted);
      }
    }
    for i := 0 to |x.relations|
      invariant forall j :: 0 <= j < i ==> RelationKnown(ids, x.relations[j])
    {
      if !RelationKnown(ids, x.relations[i]) {
        return Some(UnknownRelated);
      }
    }
    refusal := None;
  }

  /** order stands for the order of relations, which only arranges them. */
  method BuildGraph(ids: seq<string>, x: Extracted, order: (Relation, Relation) -> bool) returns (result: Result<Graph>)
    ensures result.Ok? <==> ValidIds(ids) && AllKnown(ids, x)
    ensures result.Ok? ==> IsGraph(ids, x, order, result.value)
  {
    var refusal := CheckIds(ids);
    if refusal.Some? {
      return Refuse(refusal.value);
    }
    refusal := CheckReferences(ids, x);
    if refusal.Some? {
      return Refuse(refusal.value);
    }
    var nodes := Sorting.Sort(Strings.Less, ids);
    var edges := Sorting.Sort(order, Connecting(x.relations));
    GraphInput(ids, x, order);
    var comps := CandidateGraph.CandidateComponents(Strings.Less, nodes, Ends(edges));
    CandidateGraph.ReducedPairCount(Strings.Less, nodes, Ends(edges), comps);
    var dense, inside := CandidateGraph.PairsOf(|nodes|), CandidateGraph.CandidatePairs(comps);
    result := Ok(Graph(nodes, edges, x.hints, Named(comps), dense, inside, dense - inside));
    assert result.value.components == Named(comps);
  }

  lemma GraphInput(ids: seq<string>, x: Extracted, order: (Relation, Relation) -> bool)
    requires ValidIds(ids) && AllKnown(ids, x)
    ensures var nodes := Sorting.Sort(Strings.Less, ids);
            && Sorting.StrictTotalOrder(Strings.Less) && Sorting.Ascending(Strings.Less, nodes) && |nodes| == |ids|
            && (forall f :: f in nodes <==> f in ids)
            && CandidateGraph.EdgesWithin(nodes, Ends(Sorting.Sort(order, Connecting(x.relations))))
  {
    Strings.LessIsStrictTotalOrder();
    Sorting.SortAscending(Strings.Less, ids);
    Sorting.SortMembers(Strings.Less, ids);
    var edges := Sorting.Sort(order, Connecting(x.relations));
    Sorting.SortMembers(order, Connecting(x.relations));
    ConnectingMembers(x.relations);
    forall e | e in Ends(edges) ensures e.0 in ids && e.1 in ids {
      var i :| 0 <= i < |edges| && Ends(edges)[i] == e;
      assert edges[i] in edges;
    }
  }

  // ---------------------------------------------------------------- the validator

  predicate EdgeValid(files: seq<string>, e: Relation)
  {
    e.source in files && e.target in files && e.source != e.target && !e.kind.PathProximity? && |e.reason| > 0 && |e.evidenceType| > 0
  }

  predicate HintValid(files: seq<string>, h: Hint) { h.kind.PathProximity? && |h.files| >= 2 && HintKnown(files, h) }

  /** Every file is in exactly one component, and components are named apart and not empty. */
  ghost predicate ComponentsValid(files: seq<string>, components: seq<Component>)
  {
    && (forall k :: 0 <= k < |components| ==> |components[k].id| > 0 && |components[k].files| > 0)
    && (forall j, k :: 0 <= j < k < |components| ==> components[j].id != components[k].id)
    && Sequences.Distinct(Members(components))
    && forall f :: f in Members(components) <==> f in files
  }

  function Members(components: seq<Component>): seq<string>
  {
    if components == [] then [] else Members(components[..|components| - 1]) + components[|components| - 1].files
  }

  ghost predicate ContextValid(files: seq<string>, g: Graph)
  {
    && ValidIds(files) && ComponentsValid(files, g.components)
    && (forall e :: e in g.edges ==> EdgeValid(files, e)) && (forall h :: h in g.hints ==> HintValid(files, h))
  }

  ghost predicate Fresh(files: seq<string>, seen: set<string>, more: seq<string>)
  {
    Sequences.Distinct(more) && forall f :: f in more ==> f in files && f !in seen
  }

  method CheckMembers(files: seq<string>, seen: set<string>, more: seq<string>) returns (ok: bool, after: set<string>)
    ensures ok <==> Fresh(files, seen, more)
    ensures ok ==> after == seen + CandidateGraph.Elements(more)
  {
    after := seen;
    for i := 0 to |more|
      invariant Fresh(files, seen, more[..i]) && after == seen + CandidateGraph.Elements(more[..i])
    {
      assert more[..i + 1] == more[..i] + [more[i]];
      assert forall j :: 0 <= j < i ==> more[..i][j] == more[j];
      if more[i] !in files || more[i] in after {
        assert more[i] in seen || more[i] in more[..i] || more[i] !in files;
        return false, after;
      }
      after := after + {more[i]};
    }
    assert more[..|more|] == more;
    ok := true;
  }

  /** The first components are valid, and these are their names and files. */
  ghost predicate Checked(files: seq<string>, components: seq<Component>, ids: set<string>, members: set<string>)
  {
    && (forall k :: 0 <= k < |components| ==> |components[k].id| > 0 && |components[k].files| > 0)
    && (forall j, k :: 0 <= j < k < |components| ==> components[j].id != components[k].id)
    && Sequences.Distinct(Members(components)) && (forall f :: f in Members(components) ==> f in files)
    && (forall id :: id in ids <==> exists k :: 0 <= k < |components| && components[k].id == id)
    && members == CandidateGraph.Elements(Members(components))
  }

  lemma DistinctConcat(a: seq<string>, b: seq<string>)
    ensures Sequences.Distinct(a + b) <==> Sequences.Distinct(a) && Sequences.Distinct(b) && forall f :: f in b ==> f !in a
    ensures CandidateGraph.Elements(a + b) == CandidateGraph.Elements(a) + CandidateGraph.Elements(b)
  {
    if Sequences.Distinct(a + b) {
      ConcatDistinct(a, b);
    } else if Sequences.Distinct(a) && Sequences.Distinct(b) && forall f :: f in b ==> f !in a {
      DistinctTogether(a, b);
    }
  }

  lemma DistinctTogether(a: seq<string>, b: seq<string>)
    requires Sequences.Distinct(a) && Sequences.Distinct(b) && forall f :: f in b ==> f !in a
    ensures Sequences.Distinct(a + b)
  {
    var c := a + b;
    forall i, j | 0 <= i < j < |c| ensures c[i] != c[j] {
      assert c[i] == if i < |a| then a[i] else b[i - |a|];
      assert c[j] == if j < |a| then a[j] else b[j - |a|];
      assert i < |a| ==> c[i] in a;
      assert j >= |a| ==> c[j] in b;
    }
  }

  lemma ConcatDistinct(a: seq<string>, b: seq<string>)
    requires Sequences.Distinct(a + b)
    ensures Sequences.Distinct(a) && Sequences.Distinct(b) && forall f :: f in b ==> f !in a
  {
    var c := a + b;
    forall i, j | 0 <= i < j < |a| ensures a[i] != a[j] {
      assert c[i] == a[i] && c[j] == a[j];
    }
    forall i, j | 0 <= i < j < |b| ensures b[i] != b[j] {
      assert c[|a| + i] == b[i] && c[|a| + j] == b[j];
    }
    forall i, j | 0 <= i < |a| && 0 <= j < |b| ensures a[i] != b[j] {
      assert c[i] == a[i] && c[|a| + j] == b[j];
    }
  }

  lemma CheckedStep(files: seq<string>, components: seq<Component>, ids: set<string>, members: set<string>, c: Component)
    requires Checked(files, components, ids, members)
    ensures MayFollow(files, ids, members, c) ==> Checked(files, components + [c], ids + {c.id}, members + CandidateGraph.Elements(c.files))
  {
    var longer := components + [c];
    assert longer[..|longer| - 1] == components && longer[|components|] == c;
    assert forall k :: 0 <= k < |components| ==> longer[k] == components[k];
    DistinctConcat(Members(components), c.files);
  }

  /** Components that stay valid when more follow were valid before. */
  lemma {:induction false} ValidPrefix(files: seq<string>, components: seq<Component>, n: nat)
    requires n <= |components|
    requires (forall k :: 0 <= k < |components| ==> |components[k].id| > 0 && |components[k].files| > 0)
    requires (forall j, k :: 0 <= j < k < |components| ==> components[j].id != components[k].id)
    requires Sequences.Distinct(Members(components)) && forall f :: f in Members(components) ==> f in files
    ensures Sequences.Distinct(Members(components[..n])) && forall f :: f in Members(components[..n]) ==> f in files
  {
    if n < |components| {
      var init := components[..|components| - 1];
      DistinctConcat(Members(init), components[|components| - 1].files);
      ValidPrefix(files, init, n);
      assert init[..n] == components[..n];
    } else {
      assert components[..n] == components;
    }
  }

  ghost predicate MayFollow(files: seq<string>, ids: set<string>, members: set<string>, c: Component)
  {
    |c.id| > 0 && c.id !in ids && |c.files| > 0 && Fresh(files, members, c.files)
  }

  lemma ValidNext(files: seq<string>, components: seq<Component>, ids: set<string>, members: set<string>, n: nat)
    requires n < |components| && Checked(files, components[..n], ids, members)
    ensures ComponentsValid(files, components) ==> MayFollow(files, ids, members, components[n])
  {
    if ComponentsValid(files, components) {
      ValidPrefix(files, components, n + 1);
      assert components[..n + 1] == components[..n] + [components[n]];
      DistinctConcat(Members(components[..n]), components[n].files);
      assert components[..n + 1][..n] == components[..n];
      assert Members(components[..n + 1]) == Members(components[..n]) + components[n].files;
    }
  }

  lemma CheckedAll(files: seq<string>, components: seq<Component>, ids: set<string>, members: set<string>)
    requires Checked(files, components, ids, members)
    ensures members <= CandidateGraph.Elements(files)
    ensures ComponentsValid(files, components) <==> members == CandidateGraph.Elements(files)
  {
    assert forall f :: f in Members(components) <==> f in members;
    assert forall f :: f in files <==> f in CandidateGraph.Elements(files);
  }

  method CheckComponents(files: seq<string>, components: seq<Component>) returns (ok: bool)
    ensures ok <==> ComponentsValid(files, components)
  {
    var ids: set<string>, members: set<string> := {}, {};
    for n := 0 to |components|
      invariant Checked(files, components[..n], ids, members)
    {
      var c := components[n];
      ValidNext(files, components, ids, members, n);
      CheckedStep(files, components[..n], ids, members, c);
      assert components[..n + 1] == components[..n] + [c];
      if |c.id| == 0 || c.id in ids || |c.files| == 0 {
        return false;
      }
      ids := ids + {c.id};
      ok, members := CheckMembers(files, members, c.files);
      if !ok {
        return;
      }
    }
    assert components[..|components|] == components;
    CheckedAll(files, components, ids, members);
    var all := CandidateGraph.Elements(files);
    ok := |members| == |all|;
    SameSize(members, all);
  }

  lemma SameSize(a: set<string>, b: set<string>)
    requires a <= b
    ensures |a| == |b| <==> a == b
  {
    assert |b| == |a| + |b - a|;
  }

  method ValidateRelationContext(files: seq<string>, g: Graph) returns (ok: bool)
    ensures ok <==> ContextValid(files, g)
  {
    var refusal := CheckIds(files);
    if refusal.Some? {
      return false;
    }
    ok := CheckComponents(files, g.components);
    if !ok {
      return;
    }
    for i := 0 to |g.edges|
      invariant forall j :: 0 <= j < i ==> EdgeValid(files, g.edges[j])
    {
      if !EdgeValid(files, g.edges[i]) {
        return false;
      }
    }
    for i := 0 to |g.hints|
      invariant forall j :: 0 <= j < i ==> HintValid(files, g.hints[j])
    {
      if !HintValid(files, g.hints[i]) {
        return false;
      }
    }
  }

  // ---------------------------------------------------------------- what is built is accepted

  /** What extraction promises of its output: reasons and evidence, and hints over several files. */
  ghost predicate WellExtracted(x: Extracted)
  {
    && (forall r :: r in x.relations && Connects(r) ==> |r.reason| > 0 && |r.evidenceType| > 0)
    && (forall h :: h in x.hints ==> h.kind.PathProximity? && |h.files| >= 2)
  }

  lemma {:induction false} NamedMembers(comps: seq<seq<string>>, f: string)
    ensures f in Members(Named(comps)) <==> CandidateGraph.InSome(comps, f)
  {
    if comps != [] {
      var n := |comps| - 1;
      NamedMembers(comps[..n], f);
      assert Named(comps)[..n] == Named(comps[..n]);
      assert comps == comps[..n] + [comps[n]];
      CandidateGraph.SomeOfLonger(comps[..n], comps[n], f);
    }
  }

  lemma {:induction false} NamedDistinct(edges: seq<(string, string)>, comps: seq<seq<string>>)
    requires Sorting.StrictTotalOrder(Strings.Less) && CandidateGraph.Components(Strings.Less, edges, comps)
    ensures Sequences.Distinct(Members(Named(comps)))
  {
    if comps != [] {
      var n := |comps| - 1;
      NamedDistinct(edges, comps[..n]);
      assert Named(comps)[..n] == Named(comps[..n]);
      assert CandidateGraph.IsComponent(Strings.Less, edges, comps[n]);
      CandidateGraph.AscendingDistinct(Strings.Less, comps[n]);
      DistinctConcat(Members(Named(comps[..n])), comps[n]);
      forall f | f in comps[n] ensures f !in Members(Named(comps[..n])) {
        NamedMembers(comps[..n], f);
        EarlierApart(edges, comps, f);
      }
    }
  }

  lemma EarlierApart(edges: seq<(string, string)>, comps: seq<seq<string>>, f: string)
    requires comps != [] && CandidateGraph.Components(Strings.Less, edges, comps) && f in comps[|comps| - 1]
    ensures !CandidateGraph.InSome(comps[..|comps| - 1], f)
  {
    var n := |comps| - 1;
    assert f in CandidateGraph.Elements(comps[n]);
    forall k | 0 <= k < n ensures f !in comps[..n][k] {
      assert CandidateGraph.Elements(comps[k]) !! CandidateGraph.Elements(comps[n]);
    }
  }

  lemma IdsApart(j: nat, k: nat)
    requires j != k
    ensures ComponentId(j) != ComponentId(k)
  {
    if ComponentId(j) == ComponentId(k) {
      ComponentIdsDiffer(j, k);
    }
  }

  lemma NamesDiffer(comps: seq<seq<string>>, j: nat, k: nat)
    requires j < k < |comps|
    ensures Named(comps)[j].id != Named(comps)[k].id
  {
    IdsApart(j + 1, k + 1);
  }

  lemma NamedAreFilled(edges: seq<(string, string)>, comps: seq<seq<string>>, k: nat)
    requires k < |comps| && CandidateGraph.Components(Strings.Less, edges, comps)
    ensures |Named(comps)[k].id| > 0 && |Named(comps)[k].files| > 0
  {
    assert CandidateGraph.IsComponent(Strings.Less, edges, comps[k]);
  }

  lemma ComponentsAreValid(ids: seq<string>, edges: seq<(string, string)>, comps: seq<seq<string>>)
    requires CandidateGraph.Components(Strings.Less, edges, comps) && forall f :: f in ids <==> CandidateGraph.InSome(comps, f)
    ensures ComponentsValid(ids, Named(comps))
  {
    Strings.LessIsStrictTotalOrder();
    var components := Named(comps);
    forall j, k | 0 <= j < k < |components| ensures components[j].id != components[k].id {
      NamesDiffer(comps, j, k);
    }
    forall k | 0 <= k < |components| ensures |components[k].id| > 0 && |components[k].files| > 0 {
      NamedAreFilled(edges, comps, k);
    }
    NamedDistinct(edges, comps);
    forall f ensures f in Members(components) <==> f in ids {
      NamedMembers(comps, f);
    }
  }

  /** A graph that could be built is accepted as relation context exactly when extraction kept its promises. */
  lemma GraphIsAccepted(ids: seq<string>, x: Extracted, order: (Relation, Relation) -> bool, g: Graph)
    requires ValidIds(ids) && AllKnown(ids, x) && IsGraph(ids, x, order, g)
    ensures ContextValid(ids, g) <==> WellExtracted(x)
  {
    var comps :| g.components == Named(comps) && CandidateGraph.Components(Strings.Less, Ends(g.edges), comps)
                 && (forall f :: f in ids <==> CandidateGraph.InSome(comps, f))
                 && g.reducedPairs == |CandidateGraph.CrossPairs(Strings.Less, g.nodes, comps)|;
    ComponentsAreValid(ids, Ends(g.edges), comps);
    Sorting.SortMembers(order, Connecting(x.relations));
    ConnectingMembers(x.relations);
    assert forall e :: e in g.edges <==> e in x.relations && Connects(e);
    forall e | e in g.edges ensures EdgeValid(ids, e) <==> |e.reason| > 0 && |e.evidenceType| > 0 {
      assert RelationKnown(ids, e);
    }
    forall h | h in g.hints ensures HintValid(ids, h) <==> h.kind.PathProximity? && |h.files| >= 2 {
      assert HintKnown(ids, h);
    }
  }
}
