/**
 What reduced evidence keeps, said of the fields of the facts (internal/contextinput/evidence.go:226-248 and
 287-331): roles, enclosing declarations, named declarations with their range, and planning structures.
 */
module EvidenceFields {
  import opened Wrappers
  import opened Evidence
  import opened EvidenceSelection
  import opened EvidenceReduction
  import Grouping
  import NaturalOrder

  datatype Range = Range(start: nat, end: nat)

  /** One thing a fact tells. */
  datatype Aspect =
    | InRole(role: string)
    | Inside(enclosing: string)
    | Declares(kind: string, name: string, range: Range)
    | Structures(kind: string, name: string, place: Option<Range>)

  function RangeOf(v: Fact): Range { Range(v.start, v.end) }

  /** The fact tells this, by its fields: selectors with a name are told apart by their range. */
  predicate Tells(v: Fact, a: Aspect)
  {
    match a
    case InRole(role) => role != "" && v.role == role
    case Inside(enclosing) => enclosing != "" && v.enclosing == enclosing
    case Declares(kind, name, range) => name != "" && IsDeclarationKind(kind) && v.kind == kind && v.name == name && RangeOf(v) == range
    case Structures(kind, name, place) =>
      IsPlanningStructureKind(kind) && v.kind == kind && v.name == name
      && place == if name != "" && IsSelectorKind(kind) then Some(RangeOf(v)) else None
  }

  // ---------------------------------------------------------------- the texts of aspects

  function RangeText(r: Range): string { NaturalOrder.Decimal(r.start) + ":" + NaturalOrder.Decimal(r.end) }

  function Text(a: Aspect): string
  {
    match a
    case InRole(role) => "role:" + role
    case Inside(enclosing) => "enclosing:" + enclosing
    case Declares(kind, name, range) => "declaration:" + kind + ":" + name + ":" + RangeText(range)
    case Structures(kind, name, place) => "structure:" + kind + Tail(name, place)
  }

  function Tail(name: string, place: Option<Range>): string
  {
    (if |name| > 0 then ":" + name else "") + if place.Some? then ":" + RangeText(place.value) else ""
  }

  /** Some fact may tell it. */
  predicate Sound(a: Aspect)
  {
    a.Structures? ==> (a.place.Some? <==> a.name != "" && IsSelectorKind(a.kind))
  }

  predicate PlainKind(a: Aspect) { a.Declares? || a.Structures? ==> Free(a.kind, ':') }

  function Initial(a: Aspect): char
  {
    match a
    case InRole(_) => 'r'
    case Inside(_) => 'e'
    case Declares(_, _, _) => 'd'
    case Structures(_, _, _) => 's'
  }

  lemma TextInitial(a: Aspect)
    ensures Text(a) != "" && Text(a)[0] == Initial(a)
  {
  }

  lemma PrefixCancels(prefix: string, s: string, t: string)
    requires prefix + s == prefix + t
    ensures s == t
  {
    assert (prefix + s)[|prefix|..] == s && (prefix + t)[|prefix|..] == t;
  }

  lemma LastSeparator(x: string, d: string, c: char)
    requires Free(d, c)
    ensures var t := x + [c] + d; t[|x|] == c && (forall i :: |x| < i < |t| ==> t[i] != c) && t[..|x|] == x && t[|x| + 1..] == d
  {
  }

  lemma LastSplitUnique(x: string, y: string, d: string, e: string, c: char)
    requires Free(d, c) && Free(e, c) && x + [c] + d == y + [c] + e
    ensures x == y && d == e
  {
    LastSeparator(x, d, c);
    LastSeparator(y, e, c);
    assert |x| == |y|;
  }

  lemma DecimalFree(n: nat)
    ensures Free(NaturalOrder.Decimal(n), ':')
  {
    assert forall c :: c in NaturalOrder.Decimal(n) ==> NaturalOrder.IsDigit(c);
  }

  lemma SameDecimal(m: nat, n: nat)
    requires NaturalOrder.Decimal(m) == NaturalOrder.Decimal(n)
    ensures m == n
  {
    NaturalOrder.DecimalValue(m);
    NaturalOrder.DecimalValue(n);
  }

  lemma SameRange(x: string, y: string, r: Range, q: Range)
    requires x + ":" + RangeText(r) == y + ":" + RangeText(q)
    ensures x == y && r == q
  {
    var a, b, c, d := NaturalOrder.Decimal(r.start), NaturalOrder.Decimal(r.end), NaturalOrder.Decimal(q.start), NaturalOrder.Decimal(q.end);
    DecimalFree(r.start);
    DecimalFree(r.end);
    DecimalFree(q.start);
    DecimalFree(q.end);
    assert x + ":" + RangeText(r) == (x + ":" + a) + ":" + b;
    assert y + ":" + RangeText(q) == (y + ":" + c) + ":" + d;
    LastSplitUnique(x + ":" + a, y + ":" + c, b, d, ':');
    LastSplitUnique(x, y, a, c, ':');
    SameDecimal(r.start, q.start);
    SameDecimal(r.end, q.end);
  }

  predicate StartsWithColon(t: string) { t != "" && t[0] == ':' }

  lemma ColonAfter(k: string, s: string)
    requires Free(k, ':') && (s == "" || StartsWithColon(s))
    ensures forall i :: 0 <= i < |k| ==> (k + s)[i] != ':'
    ensures |k| < |k + s| ==> (k + s)[|k|] == ':'
    ensures (k + s)[..|k|] == k && (k + s)[|k|..] == s
  {
    assert forall i :: 0 <= i < |k| ==> k[i] in k;
  }

  /** A kind without a colon is what stands before the first colon. */
  lemma KindCancels(k: string, l: string, s: string, t: string)
    requires Free(k, ':') && Free(l, ':') && k + s == l + t
    requires (s == "" || StartsWithColon(s)) && (t == "" || StartsWithColon(t))
    ensures k == l && s == t
  {
    ColonAfter(k, s);
    ColonAfter(l, t);
    assert |k| == |l|;
  }

  lemma DeclarationText(kind: string, name: string, range: Range)
    ensures Text(Declares(kind, name, range)) == "declaration:" + (kind + (":" + name + ":" + RangeText(range)))
  {
  }

  lemma SameDeclaration(a: Aspect, b: Aspect)
    requires a.Declares? && b.Declares? && PlainKind(a) && PlainKind(b) && Text(a) == Text(b)
    ensures a == b
  {
    DeclarationText(a.kind, a.name, a.range);
    DeclarationText(b.kind, b.name, b.range);
    var s, t := ":" + a.name + ":" + RangeText(a.range), ":" + b.name + ":" + RangeText(b.range);
    PrefixCancels("declaration:", a.kind + s, b.kind + t);
    KindCancels(a.kind, b.kind, s, t);
    SameRange(":" + a.name, ":" + b.name, a.range, b.range);
    PrefixCancels(":", a.name, b.name);
  }

  lemma TailStarts(name: string, place: Option<Range>)
    ensures Tail(name, place) == "" || StartsWithColon(Tail(name, place))
    ensures |Tail(name, place)| > 0 <==> |name| > 0 || place.Some?
  {
  }

  lemma TailWithPlace(a: Aspect)
    requires a.Structures? && a.place.Some? && |a.name| > 0
    ensures Tail(a.name, a.place) == ":" + a.name + ":" + RangeText(a.place.value)
  {
  }

  lemma TailWithout(a: Aspect)
    requires a.Structures? && a.place.None? && |a.name| > 0
    ensures Tail(a.name, a.place) == ":" + a.name
  {
  }

  lemma SameTail(a: Aspect, b: Aspect)
    requires a.Structures? && b.Structures? && Sound(a) && Sound(b) && a.kind == b.kind && Tail(a.name, a.place) == Tail(b.name, b.place)
    ensures a == b
  {
    TailStarts(a.name, a.place);
    TailStarts(b.name, b.place);
    if a.place.Some? {
      TailWithPlace(a);
      TailWithPlace(b);
      SameRange(":" + a.name, ":" + b.name, a.place.value, b.place.value);
      PrefixCancels(":", a.name, b.name);
    } else if |a.name| > 0 {
      TailWithout(a);
      TailWithout(b);
      PrefixCancels(":", a.name, b.name);
    }
  }

  lemma SameStructure(a: Aspect, b: Aspect)
    requires a.Structures? && b.Structures? && Sound(a) && Sound(b) && PlainKind(a) && PlainKind(b) && Text(a) == Text(b)
    ensures a == b
  {
    var s, t := Tail(a.name, a.place), Tail(b.name, b.place);
    assert Text(a) == "structure:" + (a.kind + s) && Text(b) == "structure:" + (b.kind + t);
    PrefixCancels("structure:", a.kind + s, b.kind + t);
    TailStarts(a.name, a.place);
    TailStarts(b.name, b.place);
    KindCancels(a.kind, b.kind, s, t);
    SameTail(a, b);
  }

  /** The text says which aspect it is, as long as no kind has a colon. */
  lemma TextDecides(a: Aspect, b: Aspect)
    requires Sound(a) && Sound(b) && PlainKind(a) && PlainKind(b) && Text(a) == Text(b)
    ensures a == b
  {
    TextInitial(a);
    TextInitial(b);
    match a
    case InRole(role) => PrefixCancels("role:", role, b.role);
    case Inside(enclosing) => PrefixCancels("enclosing:", enclosing, b.enclosing);
    case Declares(_, _, _) => SameDeclaration(a, b);
    case Structures(_, _, _) => SameStructure(a, b);
  }

  // ---------------------------------------------------------------- what a fact covers

  /** The fact covers the texts of what it tells, and nothing else. */
  lemma CoversWhatItTells(v: Fact, c: string)
    ensures c in CoverageKeys(v) <==> exists a :: Tells(v, a) && Text(a) == c
  {
    if c in CoverageKeys(v) {
      var a := TellsText(v, c);
    }
    if a :| Tells(v, a) && Text(a) == c {
      ToldIsCovered(v, a);
    }
  }

  lemma StructureText(v: Fact)
    ensures StructureKey(v) == Text(Structures(v.kind, v.name, if |v.name| > 0 && IsSelectorKind(v.kind) then Some(RangeOf(v)) else None))
  {
  }

  lemma ToldIsCovered(v: Fact, a: Aspect)
    requires Tells(v, a)
    ensures Text(a) in CoverageKeys(v)
  {
    StructureText(v);
  }

  lemma TellsText(v: Fact, c: string) returns (a: Aspect)
    requires c in CoverageKeys(v)
    ensures Tells(v, a) && Text(a) == c
  {
    StructureText(v);
    var declares := Declares(v.kind, v.name, RangeOf(v));
    a := if |v.role| > 0 && c == "role:" + v.role then InRole(v.role)
         else if |v.enclosing| > 0 && c == "enclosing:" + v.enclosing then Inside(v.enclosing)
         else if |v.name| > 0 && IsDeclarationKind(v.kind) && c == Text(declares) then declares
         else Structures(v.kind, v.name, if |v.name| > 0 && IsSelectorKind(v.kind) then Some(RangeOf(v)) else None);
  }

  lemma ToldIsSound(v: Fact, a: Aspect)
    requires Tells(v, a)
    ensures Sound(a)
    ensures Free(v.kind, ':') ==> PlainKind(a)
  {
  }

  /** Two facts that cover the same text tell the same. */
  lemma SameText(v: Fact, w: Fact, a: Aspect)
    requires Tells(v, a) && Text(a) in CoverageKeys(w)
    requires a.InRole? || a.Inside? || (Free(v.kind, ':') && Free(w.kind, ':'))
    ensures Tells(w, a)
  {
    var b := TellsText(w, Text(a));
    ToldIsSound(v, a);
    ToldIsSound(w, b);
    TextInitial(a);
    TextInitial(b);
    TextDecides(a, b);
  }

  // ---------------------------------------------------------------- what reduction keeps

  ghost predicate SomeTells(evidence: seq<Fact>, a: Aspect) { exists v :: v in evidence && Tells(v, a) }

  /** Syntax kinds are identifiers. */
  ghost predicate PlainKinds(evidence: seq<Fact>) { forall v :: v in evidence ==> Free(v.kind, ':') }

  lemma StillTold(original: seq<Fact>, retained: seq<Fact>, v: Fact, a: Aspect)
    requires CoverageSet(SCHEME, original) == CoverageSet(SCHEME, retained)
    requires v in original && Tells(v, a)
    requires a.InRole? || a.Inside? || (PlainKinds(original) && PlainKinds(retained))
    ensures SomeTells(retained, a)
  {
    ToldIsCovered(v, a);
    Grouping.CoverageMembers(SCHEME.cover, original, Text(a));
    Grouping.CoverageMembers(SCHEME.cover, retained, Text(a));
    var w :| w in retained && Text(a) in CoverageKeys(w);
    SameText(v, w, a);
  }

  lemma NothingInvented(original: seq<Fact>, retained: seq<Fact>, a: Aspect)
    requires (forall v :: v in retained ==> v in original) && SomeTells(retained, a)
    ensures SomeTells(original, a)
  {
  }

  lemma AcceptedMeans(original: seq<Fact>, retained: seq<Fact>, reduction: Option<Reduction>)
    requires Validation(SCHEME, original, retained, reduction) == None
    ensures CoverageSet(SCHEME, original) == CoverageSet(SCHEME, retained)
    ensures forall v :: v in retained ==> v in original
  {
    if reduction.Some? {
      CanonicalRepresents(SCHEME, original);
      AuditMeans(SCHEME, reduction.value, original, retained);
    }
  }

  lemma AuditMeans(m: Scheme, r: Reduction, original: seq<Fact>, retained: seq<Fact>)
    requires Validation(m, original, retained, Some(r)) == None
    ensures CoverageSet(m, original) == r.originalCoverage == r.retainedCoverage == CoverageSet(m, retained)
    ensures forall v :: v in retained ==> v in Canonical(m, original)
  {
  }

  /** Evidence that the audit accepts tells exactly what the original told; where kinds have colons, of roles and enclosing declarations. */
  lemma AuditKeepsAspects(original: seq<Fact>, retained: seq<Fact>, reduction: Option<Reduction>, a: Aspect)
    requires Validation(SCHEME, original, retained, reduction) == None
    requires a.InRole? || a.Inside? || PlainKinds(original)
    ensures SomeTells(original, a) <==> SomeTells(retained, a)
  {
    AcceptedMeans(original, retained, reduction);
    if v :| v in original && Tells(v, a) {
      StillTold(original, retained, v, a);
    }
    if SomeTells(retained, a) {
      NothingInvented(original, retained, a);
    }
  }

  ghost predicate KeepsRoles(original: seq<Fact>, retained: seq<Fact>)
  {
    forall v :: v in original && v.role != "" ==> exists w :: w in retained && w.role == v.role
  }

  ghost predicate KeepsEnclosing(original: seq<Fact>, retained: seq<Fact>)
  {
    forall v :: v in original && v.enclosing != "" ==> exists w :: w in retained && w.enclosing == v.enclosing
  }

  ghost predicate KeepsDeclarations(original: seq<Fact>, retained: seq<Fact>)
  {
    forall v :: v in original && v.name != "" && IsDeclarationKind(v.kind) ==>
      exists w :: w in retained && w.kind == v.kind && w.name == v.name && w.start == v.start && w.end == v.end
  }

  ghost predicate KeepsStructures(original: seq<Fact>, retained: seq<Fact>)
  {
    forall v :: v in original && IsPlanningStructureKind(v.kind) ==>
      exists w :: w in retained && w.kind == v.kind && w.name == v.name
               && (v.name != "" && IsSelectorKind(v.kind) ==> w.start == v.start && w.end == v.end)
  }

  /** Named declarations survive up to where a colon stands between kind and name, with their range. */
  ghost predicate KeepsJoinedDeclarations(original: seq<Fact>, retained: seq<Fact>)
  {
    forall v :: v in original && v.name != "" && IsDeclarationKind(v.kind) ==>
      exists w :: w in retained && w.name != "" && IsDeclarationKind(w.kind)
               && w.kind + ":" + w.name == v.kind + ":" + v.name && w.start == v.start && w.end == v.end
  }

  /** So do planning structures, with the name and, for named selectors, the range behind the kind. */
  ghost predicate KeepsJoinedStructures(original: seq<Fact>, retained: seq<Fact>)
  {
    forall v :: v in original && IsPlanningStructureKind(v.kind) ==>
      exists w :: w in retained && IsPlanningStructureKind(w.kind) && w.kind + Tail(w.name, PlaceOf(w)) == v.kind + Tail(v.name, PlaceOf(v))
  }

  function PlaceOf(v: Fact): Option<Range> { if v.name != "" && IsSelectorKind(v.kind) then Some(RangeOf(v)) else None }

  lemma SameInitial(w: Fact, a: Aspect) returns (b: Aspect)
    requires Text(a) in CoverageKeys(w)
    ensures Tells(w, b) && Text(b) == Text(a) && Initial(b) == Initial(a)
  {
    b := TellsText(w, Text(a));
    TextInitial(a);
    TextInitial(b);
  }

  lemma SameJoined(v: Fact, w: Fact)
    requires v.name != "" && IsDeclarationKind(v.kind) && Text(Declares(v.kind, v.name, RangeOf(v))) in CoverageKeys(w)
    ensures w.name != "" && IsDeclarationKind(w.kind)
    ensures w.kind + ":" + w.name == v.kind + ":" + v.name && RangeOf(w) == RangeOf(v)
  {
    var b := SameInitial(w, Declares(v.kind, v.name, RangeOf(v)));
    Regrouped(v.kind, v.name, RangeOf(v));
    Regrouped(w.kind, w.name, RangeOf(w));
    SameRange("declaration:" + (v.kind + ":" + v.name), "declaration:" + (w.kind + ":" + w.name), RangeOf(v), RangeOf(w));
    PrefixCancels("declaration:", v.kind + ":" + v.name, w.kind + ":" + w.name);
  }

  lemma SameJoinedStructure(v: Fact, w: Fact)
    requires IsPlanningStructureKind(v.kind) && Text(Structures(v.kind, v.name, PlaceOf(v))) in CoverageKeys(w)
    ensures IsPlanningStructureKind(w.kind) && w.kind + Tail(w.name, PlaceOf(w)) == v.kind + Tail(v.name, PlaceOf(v))
  {
    var b := SameInitial(w, Structures(v.kind, v.name, PlaceOf(v)));
    assert b == Structures(w.kind, w.name, PlaceOf(w));
    StructureJoined(v.kind, v.name, PlaceOf(v));
    StructureJoined(w.kind, w.name, PlaceOf(w));
    PrefixCancels("structure:", v.kind + Tail(v.name, PlaceOf(v)), w.kind + Tail(w.name, PlaceOf(w)));
  }

  lemma StructureJoined(kind: string, name: string, place: Option<Range>)
    ensures Text(Structures(kind, name, place)) == "structure:" + (kind + Tail(name, place))
  {
  }

  lemma StillCovered(original: seq<Fact>, retained: seq<Fact>, v: Fact, a: Aspect) returns (w: Fact)
    requires CoverageSet(SCHEME, original) == CoverageSet(SCHEME, retained) && v in original && Tells(v, a)
    ensures w in retained && Text(a) in CoverageKeys(w)
  {
    ToldIsCovered(v, a);
    Grouping.CoverageMembers(SCHEME.cover, original, Text(a));
    Grouping.CoverageMembers(SCHEME.cover, retained, Text(a));
    w :| w in retained && Text(a) in CoverageKeys(w);
  }

  lemma KeptJoined(original: seq<Fact>, retained: seq<Fact>)
    requires CoverageSet(SCHEME, original) == CoverageSet(SCHEME, retained)
    ensures KeepsJoinedDeclarations(original, retained) && KeepsJoinedStructures(original, retained)
  {
    forall v | v in original && v.name != "" && IsDeclarationKind(v.kind)
      ensures exists w :: w in retained && w.name != "" && IsDeclarationKind(w.kind)
                       && w.kind + ":" + w.name == v.kind + ":" + v.name && w.start == v.start && w.end == v.end
    {
      var w := StillCovered(original, retained, v, Declares(v.kind, v.name, RangeOf(v)));
      SameJoined(v, w);
    }
    forall v | v in original && IsPlanningStructureKind(v.kind)
      ensures exists w :: w in retained && IsPlanningStructureKind(w.kind) && w.kind + Tail(w.name, PlaceOf(w)) == v.kind + Tail(v.name, PlaceOf(v))
    {
      var w := StillCovered(original, retained, v, Structures(v.kind, v.name, PlaceOf(v)));
      SameJoinedStructure(v, w);
    }
  }

  /** The audit as a promise on the fields, whoever made the reduction. */
  lemma AuditKeepsFields(original: seq<Fact>, retained: seq<Fact>, reduction: Option<Reduction>)
    requires Validation(SCHEME, original, retained, reduction) == None
    ensures forall v :: v in retained ==> v in original
    ensures KeepsRoles(original, retained) && KeepsEnclosing(original, retained)
    ensures KeepsJoinedDeclarations(original, retained) && KeepsJoinedStructures(original, retained)
    ensures PlainKinds(original) ==> KeepsDeclarations(original, retained) && KeepsStructures(original, retained)
  {
    AcceptedMeans(original, retained, reduction);
    KeptJoined(original, retained);
    forall v | v in original && v.role != "" ensures exists w :: w in retained && w.role == v.role {
      StillTold(original, retained, v, InRole(v.role));
    }
    forall v | v in original && v.enclosing != "" ensures exists w :: w in retained && w.enclosing == v.enclosing {
      StillTold(original, retained, v, Inside(v.enclosing));
    }
    if PlainKinds(original) {
      KeptDeclarations(original, retained);
      KeptStructures(original, retained);
    }
  }

  lemma KeptDeclarations(original: seq<Fact>, retained: seq<Fact>)
    requires CoverageSet(SCHEME, original) == CoverageSet(SCHEME, retained) && PlainKinds(original) && PlainKinds(retained)
    ensures KeepsDeclarations(original, retained)
  {
    forall v | v in original && v.name != "" && IsDeclarationKind(v.kind)
      ensures exists w :: w in retained && w.kind == v.kind && w.name == v.name && w.start == v.start && w.end == v.end
    {
      var a := Declares(v.kind, v.name, RangeOf(v));
      StillTold(original, retained, v, a);
      var w :| w in retained && Tells(w, a);
      assert RangeOf(w) == RangeOf(v);
    }
  }

  lemma KeptStructures(original: seq<Fact>, retained: seq<Fact>)
    requires CoverageSet(SCHEME, original) == CoverageSet(SCHEME, retained) && PlainKinds(original) && PlainKinds(retained)
    ensures KeepsStructures(original, retained)
  {
    forall v | v in original && IsPlanningStructureKind(v.kind)
      ensures exists w :: w in retained && w.kind == v.kind && w.name == v.name
                       && (v.name != "" && IsSelectorKind(v.kind) ==> w.start == v.start && w.end == v.end)
    {
      var a := Structures(v.kind, v.name, if v.name != "" && IsSelectorKind(v.kind) then Some(RangeOf(v)) else None);
      StillTold(original, retained, v, a);
      var w :| w in retained && Tells(w, a);
      assert v.name != "" && IsSelectorKind(v.kind) ==> RangeOf(w) == RangeOf(v);
    }
  }

  /** Whatever the density, reduced evidence keeps every role, enclosing declaration, named declaration and planning structure. */
  lemma ReductionKeepsFields(file: File, density: nat)
    requires CleanEvidence(file.evidence) && file.reduction.None?
    ensures var kept := Reduced(SCHEME, file, density).evidence;
            && KeepsRoles(file.evidence, kept) && KeepsEnclosing(file.evidence, kept)
            && KeepsJoinedDeclarations(file.evidence, kept) && KeepsJoinedStructures(file.evidence, kept)
            && (PlainKinds(file.evidence) ==> KeepsDeclarations(file.evidence, kept) && KeepsStructures(file.evidence, kept))
  {
    var f := Reduced(SCHEME, file, density);
    ReductionIsAccepted(file, density);
    AuditKeepsFields(file.evidence, f.evidence, f.reduction);
  }

  // ---------------------------------------------------------------- which facts are required

  /** The fact at i tells something that no earlier one tells. */
  ghost predicate TellsNew(values: seq<Fact>, i: int)
    requires 0 <= i < |values|
  {
    exists a :: Tells(values[i], a) && !SomeTells(values[..i], a)
  }

  lemma CoversNew(values: seq<Fact>, i: nat)
    requires i < |values| && PlainKinds(values)
    ensures !(Grouping.Covered(CoverageKeys(values[i])) <= CoverageSet(SCHEME, values[..i])) <==> TellsNew(values, i)
  {
    var v, before := values[i], values[..i];
    if c :| c in CoverageKeys(v) && c !in CoverageSet(SCHEME, before) {
      var a := TellsText(v, c);
      if w :| w in before && Tells(w, a) {
        ToldIsCovered(w, a);
        Grouping.CoverageMembers(SCHEME.cover, before, c);
      }
      assert !SomeTells(before, a);
    }
    if a :| Tells(v, a) && !SomeTells(before, a) {
      ToldIsCovered(v, a);
      Grouping.CoverageMembers(SCHEME.cover, before, Text(a));
      if w :| w in before && Text(a) in CoverageKeys(w) {
        SameText(v, w, a);
      }
    }
  }

  /** A fact is required exactly when it tells something new; the first one also when none does. */
  lemma RequiredTellNew(values: seq<Fact>, i: int)
    requires PlainKinds(values)
    ensures i in Required(SCHEME, values) <==>
              0 <= i < |values| && (TellsNew(values, i) || (i == 0 && forall j :: 0 <= j < |values| ==> !TellsNew(values, j)))
  {
    forall j ensures j in Grouping.Novel(SCHEME.cover, values, |values|) <==> 0 <= j < |values| && TellsNew(values, j) {
      Grouping.NovelMembers(SCHEME.cover, values, |values|, j);
      if 0 <= j < |values| {
        CoversNew(values, j);
      }
    }
    var novel := Grouping.Novel(SCHEME.cover, values, |values|);
    if novel != [] {
      assert novel[0] in novel && TellsNew(values, novel[0]);
    }
  }

  // ---------------------------------------------------------------- colons in kinds

  /** Two declarations in one place whose kinds and names read the same when joined. */
  const ALIKE := (Fact("function:a", "b", "", "", 1, 1, 0, 3), Fact("function", "a:b", "", "", 1, 1, 0, 3))

  /** Of facts with different keys that cover the same, only one is required. */
  lemma OneIsKept(m: Scheme, v: Fact, w: Fact)
    requires m.key(v) != m.key(w) && m.cover(v) == m.cover(w) && m.cover(v) != []
    ensures |Retained(m, [v, w], 0)| == 1
  {
    var canonical := Canonical(m, [v, w]);
    var i := Representative(m, [v, w], 0);
    var j := Representative(m, [v, w], 1);
    assert i != j;
    forall k | 0 <= k < |canonical| ensures m.cover(canonical[k]) == m.cover(v) {
      OneOfTwo(m, v, w, k);
    }
    OneOfAlike(m, canonical, m.cover(v));
  }

  lemma Representative(m: Scheme, values: seq<Fact>, n: nat) returns (i: nat)
    requires n < |values|
    ensures i < |Canonical(m, values)| && m.key(Canonical(m, values)[i]) == m.key(values[n])
  {
    var v := values[n];
    MiddleIsAlike(m, values, v);
    CanonicalAre(m, values, Middle(m, values, v));
    i :| 0 <= i < |Canonical(m, values)| && Canonical(m, values)[i] == Middle(m, values, v);
  }

  lemma OneOfTwo(m: Scheme, v: Fact, w: Fact, k: nat)
    requires k < |Canonical(m, [v, w])|
    ensures Canonical(m, [v, w])[k] == v || Canonical(m, [v, w])[k] == w
  {
    CanonicalRepresents(m, [v, w]);
    var x := Canonical(m, [v, w])[k];
    assert x in Canonical(m, [v, w]);
    assert x in [v, w];
  }

  lemma OneOfAlike(m: Scheme, canonical: seq<Fact>, keys: seq<string>)
    requires |canonical| >= 2 && keys != [] && forall i :: 0 <= i < |canonical| ==> m.cover(canonical[i]) == keys
    ensures |Select(m, canonical, Limit(|Required(m, canonical)|, |canonical|, 0))| == 1
  {
    Grouping.NovelOfAlike(m.cover, canonical, |canonical|);
    SelectionSize(m, canonical, 1);
  }

  lemma KeysApart(v: Fact, w: Fact)
    requires Clean(v) && Clean(w) && v.kind != w.kind
    ensures Key(v) != Key(w)
  {
    if Key(v) == Key(w) {
      PartsAreFree(v);
      PartsAreFree(w);
      JoinInjective(KeyParts(v), KeyParts(w), 0 as char);
      SameParts(v, w);
    }
  }

  /** A kind without r and s is no planning structure. */
  lemma NoStructure(kind: string)
    requires 'r' !in kind && 's' !in kind && |kind| > 0 && kind[0] == 'f'
    ensures !IsPlanningStructureKind(kind)
  {
    LacksOne(kind, "selector", 0);
    LacksOne(kind, "_rule", 1);
  }

  /** A named function at the top level, of a kind without r and s. */
  predicate Functional(v: Fact)
  {
    |v.name| > 0 && |v.role| == 0 && |v.enclosing| == 0 && "function" <= v.kind && 'r' !in v.kind && 's' !in v.kind
  }

  lemma FunctionDeclares(v: Fact)
    requires Functional(v)
    ensures IsDeclarationKind(v.kind) && CoverageKeys(v) == [Text(Declares(v.kind, v.name, RangeOf(v)))]
  {
    NoStructure(v.kind);
  }

  lemma AlikeCover(v: Fact, w: Fact)
    requires Functional(v) && Functional(w) && RangeOf(v) == RangeOf(w) && v.kind + ":" + v.name == w.kind + ":" + w.name
    ensures IsDeclarationKind(v.kind) && IsDeclarationKind(w.kind) && CoverageKeys(v) == CoverageKeys(w) && CoverageKeys(v) != []
  {
    FunctionDeclares(v);
    FunctionDeclares(w);
    Regrouped(v.kind, v.name, RangeOf(v));
    Regrouped(w.kind, w.name, RangeOf(w));
  }

  lemma Regrouped(kind: string, name: string, range: Range)
    ensures Text(Declares(kind, name, range)) == "declaration:" + (kind + ":" + name) + ":" + RangeText(range)
  {
  }

  lemma AlikeLoses(v: Fact, w: Fact, kept: seq<Fact>)
    requires |kept| == 1 && v.kind != w.kind && v.name != "" && w.name != "" && IsDeclarationKind(v.kind) && IsDeclarationKind(w.kind)
    ensures !KeepsDeclarations([v, w], kept)
  {
    var lost := if kept[0].kind == v.kind then w else v;
    assert lost in [v, w];
    assert forall x :: x in kept ==> x.kind != lost.kind;
  }

  lemma AlikeAreFunctional()
    ensures Functional(ALIKE.0) && Functional(ALIKE.1) && Clean(ALIKE.0) && Clean(ALIKE.1) && ALIKE.0.kind != ALIKE.1.kind
    ensures ALIKE.0.kind + ":" + ALIKE.0.name == ALIKE.1.kind + ":" + ALIKE.1.name && RangeOf(ALIKE.0) == RangeOf(ALIKE.1)
  {
    assert |ALIKE.0.kind| != |ALIKE.1.kind|;
  }

  /** One of two such declarations is dropped at density 0, and the audit accepts that. */
  lemma SameTextLoses(v: Fact, w: Fact)
    requires Functional(v) && Functional(w) && Clean(v) && Clean(w) && v.kind != w.kind
    requires RangeOf(v) == RangeOf(w) && v.kind + ":" + v.name == w.kind + ":" + w.name
    ensures var f := Reduced(SCHEME, File(true, [v, w], None, ""), 0);
            && CleanEvidence([v, w]) && Validation(SCHEME, [v, w], f.evidence, f.reduction) == None
            && !KeepsDeclarations([v, w], f.evidence)
  {
    AlikeCover(v, w);
    KeysApart(v, w);
    OneIsKept(SCHEME, v, w);
    ReductionIsAccepted(File(true, [v, w], None, ""), 0);
    AlikeLoses(v, w, Retained(SCHEME, [v, w], 0));
  }

  /** Kinds with colons may cost a declaration. */
  lemma ColonLosesDeclaration()
    ensures var original := [ALIKE.0, ALIKE.1];
            var f := Reduced(SCHEME, File(true, original, None, ""), 0);
            && CleanEvidence(original) && Validation(SCHEME, original, f.evidence, f.reduction) == None
            && !KeepsDeclarations(original, f.evidence)
  {
    AlikeAreFunctional();
    SameTextLoses(ALIKE.0, ALIKE.1);
  }
}
