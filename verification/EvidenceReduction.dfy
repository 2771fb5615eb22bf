/**
 The audited reduction of evidence (internal/contextinput/evidence.go:28-50, 287-331) and the search
 for the largest density that fits the budget (internal/contextinput/controller.go:194-248).
 */
module EvidenceReduction {
  import opened Wrappers
  import opened Evidence
  import opened EvidenceSelection
  import Sorting
  import Sequences
  import Grouping

  datatype Level = Light | Medium | Strong | OtherLevel(name: string)

  /** The audit record; digests are injective, so they stand for what they digest. */
  datatype Reduction = Reduction(level: Level, originalCount: nat, original: seq<Fact>, retainedCount: nat, retained: seq<Fact>,
                                 coverageCount: nat, originalCoverage: set<string>, retainedCoverage: set<string>)

  datatype File = File(structural: bool, evidence: seq<Fact>, reduction: Option<Reduction>, identity: string)

  datatype Problem = UnauditedChange | InvalidLevel | MetadataMismatch | CoverageLost | UnknownFact | AllRemoved | IdentityChanged

  function Audit(m: Scheme, level: Level, original: seq<Fact>, retained: seq<Fact>): Reduction
  {
    Reduction(level, |original|, original, |retained|, retained, |CoverageSet(m, original)|, CoverageSet(m, original), CoverageSet(m, retained))
  }

  function LevelOf(retained: nat, canonical: nat): Level
  {
    if retained == canonical then Light else if retained * 2 >= canonical then Medium else Strong
  }

  function Limit(minimum: int, count: int, density: int): int { minimum + (count - minimum) * density / 1000 }

  ghost function Retained(m: Scheme, evidence: seq<Fact>, density: nat): seq<Fact>
  {
    var canonical := Canonical(m, evidence);
    Select(m, canonical, Limit(|Required(m, canonical)|, |canonical|, density))
  }

  ghost function Reduced(m: Scheme, f: File, density: nat): File
  {
    if !f.structural || |f.evidence| == 0 then f
    else
      var retained := Retained(m, f.evidence, density);
      f.(evidence := retained, reduction := Some(Audit(m, LevelOf(|retained|, |Canonical(m, f.evidence)|), f.evidence, retained)))
  }

  method RetainEvidence(m: Scheme, evidence: seq<Fact>, density: nat) returns (retained: seq<Fact>, count: nat)
    ensures retained == Retained(m, evidence, density) && count == |Canonical(m, evidence)|
  {
    var canonical := CanonicalEvidence(m, evidence);
    var required := RequiredEvidenceIndices(m, canonical);
    count := |canonical|;
    retained := SelectEvidence(m, canonical, Limit(|required|, count, density));
  }

  method ReduceFile(m: Scheme, file: File, density: nat) returns (reduced: File)
    ensures reduced == Reduced(m, file, density)
  {
    if !file.structural || |file.evidence| == 0 {
      return file;
    }
    var retained, count := RetainEvidence(m, file.evidence, density);
    reduced := file.(evidence := retained, reduction := Some(Audit(m, LevelOf(|retained|, count), file.evidence, retained)));
  }

  lemma ReducedStep(m: Scheme, document: seq<File>, density: nat, i: nat)
    requires i < |document|
    ensures ReducedDocument(m, document[..i + 1], density) == ReducedDocument(m, document[..i], density) + [Reduced(m, document[i], density)]
  {
    var before, after := ReducedDocument(m, document[..i], density), ReducedDocument(m, document[..i + 1], density);
    assert after[i] == Reduced(m, document[i], density);
    assert after[..i] == before;
  }

  method ReduceEvidence(m: Scheme, document: seq<File>, density: nat) returns (reduced: seq<File>)
    ensures reduced == ReducedDocument(m, document, density)
  {
    reduced := [];
    for index := 0 to |document|
      invariant reduced == ReducedDocument(m, document[..index], density)
    {
      ReducedStep(m, document, density, index);
      var file := ReduceFile(m, document[index], density);
      reduced := reduced + [file];
    }
    assert document[..|document|] == document;
  }

  // ---------------------------------------------------------------- the audit accepts every reduction

  ghost function Validation(m: Scheme, original: seq<Fact>, retained: seq<Fact>, reduction: Option<Reduction>): Option<Problem>
  {
    if reduction.None? then (if original == retained then None else Some(UnauditedChange))
    else if reduction.value.level.OtherLevel? then Some(InvalidLevel)
    else if Audit(m, reduction.value.level, original, retained) != reduction.value then Some(MetadataMismatch)
    else if reduction.value.originalCoverage != reduction.value.retainedCoverage then Some(CoverageLost)
    else if exists v :: v in retained && v !in Canonical(m, original) then Some(UnknownFact)
    else if |original| > 0 && |retained| == 0 then Some(AllRemoved)
    else None
  }

  method ValidateEvidencePreserved(m: Scheme, original: seq<Fact>, retained: seq<Fact>, reduction: Option<Reduction>)
    returns (problem: Option<Problem>)
    ensures problem == Validation(m, original, retained, reduction)
  {
    if reduction.None? {
      return if original == retained then None else Some(UnauditedChange);
    }
    if reduction.value.level.OtherLevel? {
      return Some(InvalidLevel);
    }
    if Audit(m, reduction.value.level, original, retained) != reduction.value {
      return Some(MetadataMismatch);
    }
    if reduction.value.originalCoverage != reduction.value.retainedCoverage {
      return Some(CoverageLost);
    }
    var canonical := CanonicalEvidence(m, original);
    var known := AllKnown(canonical, retained);
    if !known {
      return Some(UnknownFact);
    }
    problem := if |original| > 0 && |retained| == 0 then Some(AllRemoved) else None;
  }

  method AllKnown(canonical: seq<Fact>, retained: seq<Fact>) returns (known: bool)
    ensures known <==> !exists v :: v in retained && v !in canonical
  {
    var facts := set v | v in canonical;
    for i := 0 to |retained|
      invariant forall j :: 0 <= j < i ==> retained[j] in canonical
    {
      if retained[i] !in facts {
        assert retained[i] in retained;
        return false;
      }
    }
    known := true;
  }

  /** Facts with the same key cover the same. */
  ghost predicate KeyDecides(m: Scheme, evidence: seq<Fact>)
  {
    forall v, w :: v in evidence && w in evidence && m.key(v) == m.key(w) ==> m.cover(v) == m.cover(w)
  }

  /** The middle fact of some key covers c. */
  ghost predicate MiddleCovers(m: Scheme, evidence: seq<Fact>, c: string) { exists w :: w in evidence && c in m.cover(Middle(m, evidence, w)) }

  /** Everything a fact covers is covered by the middle fact of some key. */
  ghost predicate MiddlesCover(m: Scheme, evidence: seq<Fact>)
  {
    forall v, c :: v in evidence && c in m.cover(v) ==> MiddleCovers(m, evidence, c)
  }

  /** Coalescing loses no coverage exactly when the middle facts cover everything. */
  lemma CanonicalCovers(m: Scheme, evidence: seq<Fact>)
    ensures CoverageSet(m, Canonical(m, evidence)) == CoverageSet(m, evidence) <==> MiddlesCover(m, evidence)
  {
    var kept, all := CoverageSet(m, Canonical(m, evidence)), CoverageSet(m, evidence);
    forall c ensures c in kept <==> MiddleCovers(m, evidence, c) {
      CoveredByMiddle(m, evidence, c);
    }
    forall v, c | v in evidence && c in m.cover(v) ensures c in all {
      Grouping.CoverageMembers(m.cover, evidence, c);
    }
    forall c | c in kept ensures c in all {
      CoveredBefore(m, evidence, c);
    }
    if MiddlesCover(m, evidence) {
      forall c | c in all ensures c in kept {
        Grouping.CoverageMembers(m.cover, evidence, c);
      }
    }
  }

  lemma CoveredBefore(m: Scheme, evidence: seq<Fact>, c: string)
    requires c in CoverageSet(m, Canonical(m, evidence))
    ensures c in CoverageSet(m, evidence)
  {
    CanonicalRepresents(m, evidence);
    Grouping.CoverageMembers(m.cover, Canonical(m, evidence), c);
    Grouping.CoverageMembers(m.cover, evidence, c);
  }

  lemma CoveredByMiddle(m: Scheme, evidence: seq<Fact>, c: string)
    ensures c in CoverageSet(m, Canonical(m, evidence)) <==> MiddleCovers(m, evidence, c)
  {
    var canonical := Canonical(m, evidence);
    Grouping.CoverageMembers(m.cover, canonical, c);
    if x :| x in canonical && c in m.cover(x) {
      CanonicalAre(m, evidence, x);
    }
    if w :| w in evidence && c in m.cover(Middle(m, evidence, w)) {
      CanonicalAre(m, evidence, Middle(m, evidence, w));
    }
  }

  lemma RetainedKeeps(m: Scheme, evidence: seq<Fact>, density: nat)
    ensures var retained := Retained(m, evidence, density);
            && CoverageSet(m, retained) == CoverageSet(m, Canonical(m, evidence)) && (|evidence| > 0 ==> |retained| > 0)
            && forall v :: v in retained ==> v in Canonical(m, evidence)
  {
    var canonical := Canonical(m, evidence);
    var limit := Limit(|Required(m, canonical)|, |canonical|, density);
    CanonicalRepresents(m, evidence);
    SelectionCovers(m, canonical, limit);
    SelectionFrom(m, canonical, limit);
  }

  /**
   The verdict of the audit is the same at every density: the reduced evidence is refused, for lost
   coverage, exactly when the middle facts do not cover everything.
   */
  lemma AuditVerdict(m: Scheme, file: File, density: nat)
    requires file.reduction.None?
    ensures var f := Reduced(m, file, density);
            && Validation(m, file.evidence, f.evidence, f.reduction)
               == (if file.structural && !MiddlesCover(m, file.evidence) then Some(CoverageLost) else None)
            && f.(evidence := [], reduction := None) == file.(evidence := [])
  {
    if file.structural && |file.evidence| > 0 {
      var retained := Retained(m, file.evidence, density);
      RetainedKeeps(m, file.evidence, density);
      CanonicalCovers(m, file.evidence);
      AuditOfRetained(m, LevelOf(|retained|, |Canonical(m, file.evidence)|), file.evidence, retained);
    }
  }

  lemma AuditOfRetained(m: Scheme, level: Level, original: seq<Fact>, retained: seq<Fact>)
    requires !level.OtherLevel? && (|original| > 0 ==> |retained| > 0) && forall v :: v in retained ==> v in Canonical(m, original)
    ensures Validation(m, original, retained, Some(Audit(m, level, original, retained)))
            == if CoverageSet(m, retained) == CoverageSet(m, original) then None else Some(CoverageLost)
  {
  }

  lemma KeysSuffice(m: Scheme, evidence: seq<Fact>)
    requires KeyDecides(m, evidence)
    ensures MiddlesCover(m, evidence)
  {
    forall v, c | v in evidence && c in m.cover(v) ensures MiddleCovers(m, evidence, c) {
      MiddleIsAlike(m, evidence, v);
      assert c in m.cover(Middle(m, evidence, v));
    }
  }

  lemma MiddleIsAlike(m: Scheme, evidence: seq<Fact>, v: Fact)
    requires v in evidence
    ensures Middle(m, evidence, v) in evidence && m.key(Middle(m, evidence, v)) == m.key(v)
  {
    var ordered := Sorting.Sort(ByRange(m), evidence);
    Sorting.SortMembers(ByRange(m), evidence);
    Grouping.GroupMembers(m.key, ordered, m.key(v));
    Grouping.MiddleIsValue(m.key, ordered, m.key(v));
  }

  ghost predicate CleanEvidence(evidence: seq<Fact>) { forall v :: v in evidence ==> Clean(v) }

  /** The source's keys decide the coverage of facts whose fields are free of the separator. */
  lemma CleanKeysDecide(evidence: seq<Fact>)
    requires CleanEvidence(evidence)
    ensures KeyDecides(SCHEME, evidence)
  {
    forall v, w | v in evidence && w in evidence && Key(v) == Key(w) ensures CoverageKeys(v) == CoverageKeys(w) {
      KeyDecidesCoverage(v, w);
    }
  }

  /** Whatever the density, the audit accepts reduced evidence without separators in its fields. */
  lemma ReductionIsAccepted(file: File, density: nat)
    requires CleanEvidence(file.evidence) && file.reduction.None?
    ensures var f := Reduced(SCHEME, file, density);
            Validation(SCHEME, file.evidence, f.evidence, f.reduction) == None
  {
    CleanKeysDecide(file.evidence);
    KeysSuffice(SCHEME, file.evidence);
    AuditVerdict(SCHEME, file, density);
  }

  /** Two facts that share a key but each cover something of their own: one of them is lost. */
  lemma SharedKeyLoses(m: Scheme, v: Fact, w: Fact)
    requires m.key(v) == m.key(w) && Distinguished(m, v, w) && Distinguished(m, w, v)
    ensures !MiddlesCover(m, [v, w])
  {
    CanonicalOfTwo(m, v, w);
    CanonicalCovers(m, [v, w]);
    OneOfTwoLoses(m, v, w, Canonical(m, [v, w]));
  }

  lemma CanonicalOfTwo(m: Scheme, v: Fact, w: Fact)
    requires m.key(v) == m.key(w)
    ensures var kept := Canonical(m, [v, w]); (forall x :: x in kept ==> x == v || x == w) && (v in kept && w in kept ==> v == w)
  {
    var kept := Canonical(m, [v, w]);
    CanonicalRepresents(m, [v, w]);
    assert forall x :: x in kept ==> x in [v, w];
    OnePerKey(m, kept, v, w);
  }

  /** v covers something that w does not. */
  ghost predicate Distinguished(m: Scheme, v: Fact, w: Fact) { exists a :: a in m.cover(v) && a !in m.cover(w) }

  lemma OneOfTwoLoses(m: Scheme, v: Fact, w: Fact, kept: seq<Fact>)
    requires Distinguished(m, v, w) && Distinguished(m, w, v)
    requires (forall x :: x in kept ==> x == v || x == w) && (v in kept && w in kept ==> v == w)
    ensures CoverageSet(m, kept) != CoverageSet(m, [v, w])
  {
    var a :| a in m.cover(v) && a !in m.cover(w);
    var b :| b in m.cover(w) && b !in m.cover(v);
    assert v in [v, w] && w in [v, w];
    Grouping.CoverageMembers(m.cover, [v, w], a);
    Grouping.CoverageMembers(m.cover, [v, w], b);
    Grouping.CoverageMembers(m.cover, kept, a);
    Grouping.CoverageMembers(m.cover, kept, b);
  }

  lemma OnePerKey(m: Scheme, s: seq<Fact>, v: Fact, w: Fact)
    requires Sorting.Apart(m.key, s) && m.key(v) == m.key(w)
    ensures v in s && w in s ==> v == w
  {
  }

  /** Two attribute names, one of them with a separator, are refused at every density. */
  lemma SeparatorIsRefused(density: nat)
    ensures var evidence := [CONFUSED.0, CONFUSED.1]; var f := Reduced(SCHEME, File(true, evidence, None, ""), density);
            Validation(SCHEME, evidence, f.evidence, f.reduction) == Some(CoverageLost)
  {
    var (v, w) := CONFUSED;
    SeparatorConfusesKeys();
    assert Distinguished(SCHEME, v, w) && Distinguished(SCHEME, w, v);
    SharedKeyLoses(SCHEME, v, w);
    AuditVerdict(SCHEME, File(true, [v, w], None, ""), density);
  }

  // ---------------------------------------------------------------- densities

  lemma LimitMonotonic(minimum: int, count: int, d: nat, e: nat)
    requires minimum <= count && d <= e
    ensures minimum <= Limit(minimum, count, d) <= Limit(minimum, count, e)
    ensures d <= 1000 ==> Limit(minimum, count, d) <= count
    ensures d == 1000 ==> Limit(minimum, count, d) == count
  {
    var x := count - minimum;
    assert x * d <= x * e;
    assert d <= 1000 ==> x * d <= x * 1000;
  }

  /** More density keeps all that less density keeps; full density keeps every canonical fact. */
  lemma DensityIsMonotonic(m: Scheme, evidence: seq<Fact>, d: nat, e: nat)
    requires d <= e
    ensures Sequences.Subsequence(Retained(m, evidence, d), Retained(m, evidence, e))
    ensures Retained(m, evidence, 1000) == Canonical(m, evidence)
  {
    var canonical := Canonical(m, evidence);
    OptionalMembers(m, canonical);
    LimitMonotonic(|Required(m, canonical)|, |canonical|, d, e);
    LimitMonotonic(|Required(m, canonical)|, |canonical|, 1000, 1000);
    SelectionIsMonotonic(m, canonical, Limit(|Required(m, canonical)|, |canonical|, d), Limit(|Required(m, canonical)|, |canonical|, e));
    AllFiltered(canonical, k => Chosen(m, canonical, |canonical|, k), |canonical|);
    assert canonical[..|canonical|] == canonical;
  }

  /** The required facts and that many thousandths of the others, rounded down. */
  lemma RetainedSize(m: Scheme, evidence: seq<Fact>, density: nat)
    requires density <= 1000
    ensures var canonical := Canonical(m, evidence); var all, required := |canonical|, |Required(m, canonical)|;
            required <= all && |Retained(m, evidence, density)| == required + (all - required) * density / 1000 <= all
  {
    var canonical := Canonical(m, evidence);
    var required := |Required(m, canonical)|;
    OptionalMembers(m, canonical);
    LimitMonotonic(required, |canonical|, density, 1000);
    SelectionSize(m, canonical, Limit(required, |canonical|, density));
  }

  lemma LevelTells(kept: nat, all: nat)
    requires kept <= all
    ensures var level := LevelOf(kept, all);
            (level == Light <==> kept == all) && (level == Medium <==> kept < all <= 2 * kept) && (level == Strong <==> 2 * kept < all)
  {
  }

  /** The record of a reduction: how many facts there were and are, and whether all canonical ones, at least half or fewer are kept. */
  lemma ReductionTells(m: Scheme, file: File, density: nat)
    requires file.structural && |file.evidence| > 0 && density <= 1000
    ensures var f := Reduced(m, file, density); var all := |Canonical(m, file.evidence)|; var kept := |f.evidence|;
            && f.reduction.Some? && f.reduction.value.originalCount == |file.evidence| && f.reduction.value.retainedCount == kept
            && (f.reduction.value.level == Light <==> kept == all)
            && (f.reduction.value.level == Medium <==> kept < all <= 2 * kept)
            && (f.reduction.value.level == Strong <==> 2 * kept < all)
  {
    RetainedSize(m, file.evidence, density);
    LevelTells(|Retained(m, file.evidence, density)|, |Canonical(m, file.evidence)|);
  }

  // ---------------------------------------------------------------- the search

  datatype Fit = Fits | TooLarge | Fails

  datatype Prepared = AtDensity(density: nat) | NothingFits | Broken(density: nat)

  ghost function ReducedDocument(m: Scheme, document: seq<File>, density: nat): seq<File>
  {
    seq(|document|, i requires 0 <= i < |document| => Reduced(m, document[i], density))
  }

  /** Reduction may change nothing but the evidence, and that only as audited. */
  ghost predicate Preserved(m: Scheme, original: seq<File>, reduced: seq<File>)
  {
    && |original| == |reduced|
    && forall i :: 0 <= i < |original| ==>
         original[i].identity == reduced[i].identity && original[i].structural == reduced[i].structural
         && Validation(m, original[i].evidence, reduced[i].evidence, reduced[i].reduction).None?
  }

  /** Rendering yields a size or fails. */
  type Renderer = seq<File> -> Option<nat>

  ghost function FitAt(m: Scheme, document: seq<File>, render: Renderer, budget: nat, density: nat): Fit
  {
    var reduced := ReducedDocument(m, document, density);
    if !Preserved(m, document, reduced) || render(reduced).None? then Fails
    else if render(reduced).value > budget then TooLarge
    else Fits
  }

  method MakeCandidate(m: Scheme, document: seq<File>, render: Renderer, budget: nat, density: nat) returns (fit: Fit)
    ensures fit == FitAt(m, document, render, budget, density)
  {
    var reduced := ReduceEvidence(m, document, density);
    for i := 0 to |document|
      invariant forall j :: 0 <= j < i ==> Validation(m, document[j].evidence, reduced[j].evidence, reduced[j].reduction).None?
    {
      var problem := ValidateEvidencePreserved(m, document[i].evidence, reduced[i].evidence, reduced[i].reduction);
      if problem.Some? {
        return Fails;
      }
    }
    var size := render(reduced);
    fit := if size.None? then Fails else if size.value > budget then TooLarge else Fits;
  }

  /** Density d fits, and the next one does not. */
  ghost predicate Boundary(m: Scheme, document: seq<File>, render: Renderer, budget: nat, d: nat)
  {
    && FitAt(m, document, render, budget, d) == Fits
    && (d < 1000 ==> FitAt(m, document, render, budget, d + 1) == TooLarge && FitAt(m, document, render, budget, 1000) == TooLarge)
  }

  /** fitAt names what every density gives. */
  ghost predicate Names(fitAt: nat -> Fit, m: Scheme, document: seq<File>, render: Renderer, budget: nat)
  {
    forall d: nat {:trigger FitAt(m, document, render, budget, d)} :: fitAt(d) == FitAt(m, document, render, budget, d)
  }

  method Probe(m: Scheme, document: seq<File>, render: Renderer, budget: nat, density: nat, ghost fitAt: nat -> Fit) returns (fit: Fit)
    requires Names(fitAt, m, document, render, budget)
    ensures fit == fitAt(density)
  {
    fit := MakeCandidate(m, document, render, budget, density);
  }

  /** The binary search between a density that fits and one that does not. */
  method SearchDensity(m: Scheme, document: seq<File>, render: Renderer, budget: nat, ghost fitAt: nat -> Fit) returns (r: Prepared)
    requires Names(fitAt, m, document, render, budget) && fitAt(0) == Fits && fitAt(1000) == TooLarge
    ensures match r
            case Broken(d) => d <= 1000 && fitAt(d) == Fails
            case NothingFits => false
            case AtDensity(d) => d < 1000 && fitAt(d) == Fits && fitAt(d + 1) == TooLarge
  {
    var best: nat := 0;
    var low: nat, high: int := 0, 999;
    while low <= high
      invariant low <= high + 1 <= 1000
      invariant fitAt(best) == Fits && fitAt(high + 1) == TooLarge
      invariant best == if low == 0 then 0 else low - 1
      decreases high - low
    {
      var mid := low + (high - low) / 2;
      var fit := Probe(m, document, render, budget, mid, fitAt);
      if fit.Fits? {
        best, low := mid, mid + 1;
      } else if fit.Fails? {
        return Broken(mid);
      } else {
        high := mid - 1;
      }
    }
    r := AtDensity(best);
  }

  /** First everything, then only what is required, and between them the search. */
  method PrepareEvidence(m: Scheme, document: seq<File>, render: Renderer, budget: nat) returns (r: Prepared)
    ensures match r
            case Broken(d) => d <= 1000 && FitAt(m, document, render, budget, d) == Fails
            case NothingFits => FitAt(m, document, render, budget, 1000) == TooLarge && FitAt(m, document, render, budget, 0) == TooLarge
            case AtDensity(d) => d <= 1000 && Boundary(m, document, render, budget, d)
  {
    var fit := MakeCandidate(m, document, render, budget, 1000);
    if !fit.TooLarge? {
      return if fit.Fits? then AtDensity(1000) else Broken(1000);
    }
    fit := MakeCandidate(m, document, render, budget, 0);
    if !fit.Fits? {
      return if fit.TooLarge? then NothingFits else Broken(0);
    }
    r := SearchDensity(m, document, render, budget, (d: nat) => FitAt(m, document, render, budget, d));
  }

  ghost predicate Richer(a: seq<File>, b: seq<File>)
  {
    |a| == |b| && forall i :: 0 <= i < |a| ==> Sequences.Subsequence(a[i].evidence, b[i].evidence)
  }

  /** More evidence never renders smaller. */
  ghost predicate Monotonic(m: Scheme, document: seq<File>, render: Renderer)
  {
    && (forall d :: render(ReducedDocument(m, document, d)).Some?)
    && (forall d, e {:trigger Richer(ReducedDocument(m, document, d), ReducedDocument(m, document, e))} ::
          Richer(ReducedDocument(m, document, d), ReducedDocument(m, document, e)) ==>
          render(ReducedDocument(m, document, d)).value <= render(ReducedDocument(m, document, e)).value)
  }

  lemma DocumentsAreRicher(m: Scheme, document: seq<File>, d: nat, e: nat)
    requires d <= e
    ensures Richer(ReducedDocument(m, document, d), ReducedDocument(m, document, e))
  {
    forall i | 0 <= i < |document|
      ensures Sequences.Subsequence(Reduced(m, document[i], d).evidence, Reduced(m, document[i], e).evidence)
    {
      DensityIsMonotonic(m, document[i].evidence, d, e);
      Sequences.SubsequenceOfItself(document[i].evidence);
    }
  }

  /** No file has been reduced before. */
  ghost predicate Fresh(document: seq<File>) { forall f :: f in document ==> f.reduction.None? }

  /** The middle facts of every structural file cover everything. */
  ghost predicate Auditable(document: seq<File>, m: Scheme)
  {
    forall f :: f in document && f.structural ==> MiddlesCover(m, f.evidence)
  }

  /** A density passes the audit exactly when all of them do. */
  lemma DocumentIsPreserved(m: Scheme, document: seq<File>, density: nat)
    requires Fresh(document)
    ensures Preserved(m, document, ReducedDocument(m, document, density)) <==> Auditable(document, m)
  {
    forall i | 0 <= i < |document|
      ensures var f, g := document[i], Reduced(m, document[i], density);
              && f.identity == g.identity && f.structural == g.structural
              && (Validation(m, f.evidence, g.evidence, g.reduction).None? <==> (f.structural ==> MiddlesCover(m, f.evidence)))
    {
      AuditVerdict(m, document[i], density);
    }
    assert forall f :: f in document ==> exists i :: 0 <= i < |document| && document[i] == f;
  }

  /** What fits at a density fits at every smaller one. */
  lemma FitsBelow(m: Scheme, document: seq<File>, render: Renderer, budget: nat, d: nat, e: nat)
    requires Fresh(document) && Auditable(document, m) && Monotonic(m, document, render) && d <= e
    ensures FitAt(m, document, render, budget, d) != Fails
    ensures FitAt(m, document, render, budget, e) == Fits ==> FitAt(m, document, render, budget, d) == Fits
  {
    DocumentIsPreserved(m, document, d);
    DocumentIsPreserved(m, document, e);
    DocumentsAreRicher(m, document, d, e);
    var a, b := ReducedDocument(m, document, d), ReducedDocument(m, document, e);
    assert render(a).Some? && render(b).Some? && render(a).value <= render(b).value;
  }

  /**
   When rendering more evidence never gives a smaller prompt, the boundary that the search returns is
   the largest density that fits: nothing above it does, and nothing below it is refused.
   */
  lemma BoundaryIsLargest(m: Scheme, document: seq<File>, render: Renderer, budget: nat, d: nat, e: nat)
    requires Fresh(document) && Auditable(document, m) && Monotonic(m, document, render)
    requires Boundary(m, document, render, budget, d) && d <= 1000 && e <= 1000
    ensures FitAt(m, document, render, budget, e) == if e <= d then Fits else TooLarge
  {
    if e <= d {
      FitsBelow(m, document, render, budget, e, d);
    } else {
      FitsBelow(m, document, render, budget, d + 1, e);
      FitsBelow(m, document, render, budget, e, e);
    }
  }
}
