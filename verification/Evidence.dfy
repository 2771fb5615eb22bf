/**
 Structural evidence and its reduction (internal/contextinput/evidence.go): facts are coalesced by
 key, the ones that cover something new are required, and the rest is ranked spatially.
 */
module Evidence {
  import Strings
  import Sequences
  import NaturalOrder

  datatype Fact = Fact(kind: string, name: string, enclosing: string, role: string,
                       startLine: int, endLine: int, start: nat, end: nat)

  // ---------------------------------------------------------------- kinds and keys

  predicate Contains(s: string, part: string) { part <= s || (s != [] && Contains(s[1..], part)) }

  predicate HasSuffix(s: string, suffix: string) { |suffix| <= |s| && s[|s| - |suffix|..] == suffix }

  predicate IsSelectorKind(kind: string) { Contains(kind, "selector") }

  predicate IsDeclarationKind(kind: string)
  {
    || kind == "variable_declarator" || kind == "class"
    || Contains(kind, "function") || Contains(kind, "method") || Contains(kind, "struct")
    || Contains(kind, "interface") || Contains(kind, "module")
    || HasSuffix(kind, "_declaration") || HasSuffix(kind, "_definition")
  }

  predicate IsPlanningStructureKind(kind: string)
  {
    || kind == "tag_name" || kind == "attribute" || kind == "attribute_name"
    || kind == "property" || kind == "property_name" || kind == "rule_set"
    || IsSelectorKind(kind) || HasSuffix(kind, "_rule")
  }

  function RangeIdentity(v: Fact): string { NaturalOrder.Decimal(v.start) + ":" + NaturalOrder.Decimal(v.end) }

  /** Named declarations and selectors are told apart by their range, other facts are not. */
  predicate Ranged(v: Fact) { |v.name| > 0 && (IsDeclarationKind(v.kind) || IsSelectorKind(v.kind)) }

  const NUL: string := [0 as char]

  function KeyParts(v: Fact): seq<string>
  {
    [v.kind, v.name, v.enclosing, v.role] + if Ranged(v) then [RangeIdentity(v)] else []
  }

  function Key(v: Fact): string { Strings.Join(KeyParts(v), NUL) }

  /** What a fact covers; every string covered by the original evidence has to stay covered. */
  function CoverageKeys(v: Fact): seq<string>
  {
    (if |v.role| > 0 then ["role:" + v.role] else [])
    + (if |v.enclosing| > 0 then ["enclosing:" + v.enclosing] else [])
    + (if |v.name| > 0 && IsDeclarationKind(v.kind) then ["declaration:" + v.kind + ":" + v.name + ":" + RangeIdentity(v)] else [])
    + (if IsPlanningStructureKind(v.kind) then [StructureKey(v)] else [])
  }

  function StructureKey(v: Fact): string
  {
    var key := "structure:" + v.kind;
    var named := if |v.name| > 0 then key + ":" + v.name else key;
    if |v.name| > 0 && IsSelectorKind(v.kind) then named + ":" + RangeIdentity(v) else named
  }

  function Priority(v: Fact): int
  {
    (if |v.enclosing| > 0 then 2 else 0) + (if |v.name| > 0 then 3 else 0) + (if |v.role| > 0 then 4 else 0)
    + (if IsDeclarationKind(v.kind) && |v.name| > 0 then 5 else 0) + (if IsPlanningStructureKind(v.kind) then 5 else 0)
  }

  predicate Free(s: string, c: char) { c !in s }

  /** No field contains the separator of the key. */
  predicate Clean(v: Fact)
  {
    Free(v.kind, 0 as char) && Free(v.name, 0 as char) && Free(v.enclosing, 0 as char) && Free(v.role, 0 as char)
  }

  lemma FirstSeparator(a: string, x: string, c: char)
    requires Free(a, c)
    ensures var t := a + [c] + x; t[|a|] == c && (forall i :: 0 <= i < |a| ==> t[i] != c) && t[..|a|] == a && t[|a| + 1..] == x
  {
  }

  lemma SplitUnique(a: string, b: string, x: string, y: string, c: char)
    requires Free(a, c) && Free(b, c) && a + [c] + x == b + [c] + y
    ensures a == b && x == y
  {
    FirstSeparator(a, x, c);
    FirstSeparator(b, y, c);
    assert |a| == |b|;
  }

  /** Parts free of the separator can be read back from the joined string. */
  lemma {:induction false} JoinInjective(p: seq<string>, q: seq<string>, c: char)
    requires p != [] && q != [] && Strings.Join(p, [c]) == Strings.Join(q, [c])
    requires (forall s :: s in p ==> Free(s, c)) && forall s :: s in q ==> Free(s, c)
    ensures p == q
  {
    JoinHasSeparator(p, c);
    JoinHasSeparator(q, c);
    if |p| > 1 {
      SplitUnique(p[0], q[0], Strings.Join(p[1..], [c]), Strings.Join(q[1..], [c]), c);
      JoinInjective(p[1..], q[1..], c);
      Sequences.HeadTail(p);
      Sequences.HeadTail(q);
    }
  }

  lemma JoinHasSeparator(p: seq<string>, c: char)
    requires p != [] && forall s :: s in p ==> Free(s, c)
    ensures c in Strings.Join(p, [c]) <==> |p| > 1
  {
    assert p[0] in p;
    if |p| > 1 {
      FirstSeparator(p[0], Strings.Join(p[1..], [c]), c);
    }
  }

  lemma PartsAreFree(v: Fact)
    requires Clean(v)
    ensures forall s :: s in KeyParts(v) ==> Free(s, 0 as char)
  {
    if Ranged(v) {
      RangeIsFree(v);
    }
  }

  lemma RangeIsFree(v: Fact)
    ensures Free(RangeIdentity(v), 0 as char)
  {
    var a, b := NaturalOrder.Decimal(v.start), NaturalOrder.Decimal(v.end);
    assert forall c :: c in a || c in b ==> NaturalOrder.IsDigit(c);
  }

  /** Facts with the same key cover the same, as long as no field contains the separator. */
  lemma KeyDecidesCoverage(v: Fact, w: Fact)
    requires Clean(v) && Clean(w) && Key(v) == Key(w)
    ensures CoverageKeys(v) == CoverageKeys(w)
  {
    PartsAreFree(v);
    PartsAreFree(w);
    var p, q := KeyParts(v), KeyParts(w);
    JoinInjective(p, q, 0 as char);
    SameParts(v, w);
  }

  lemma SameParts(v: Fact, w: Fact)
    requires KeyParts(v) == KeyParts(w)
    ensures v.kind == w.kind && v.name == w.name && v.enclosing == w.enclosing && v.role == w.role
    ensures Ranged(v) ==> RangeIdentity(v) == RangeIdentity(w)
  {
    var p, q := KeyParts(v), KeyParts(w);
    assert p[0] == q[0] && p[1] == q[1] && p[2] == q[2] && p[3] == q[3];
    assert Ranged(v) ==> p[4] == q[4];
  }

  /** The part a syntax node of a kind plays in the dependencies of a file. */
  function Role(kind: string): string
  {
    if Contains(kind, "import") then "import"
    else if Contains(kind, "export") then "export"
    else if Contains(kind, "call") || Contains(kind, "invocation") then "call"
    else ""
  }

  const ATTRIBUTE_NAME: string := "attribute_name"

  /** What the analyzer reports of attribute names: neither declarations nor selectors, and without a role. */
  function AttributeName(name: string, enclosing: string, start: nat, end: nat): Fact
  {
    Fact(ATTRIBUTE_NAME, name, enclosing, Role(ATTRIBUTE_NAME), 1, 1, start, end)
  }

  /** Two facts told apart by their fields but not by their key, because a field contains the separator. */
  const CONFUSED := (AttributeName("a" + NUL + "b", "c", 0, 3), AttributeName("a", "b" + NUL + "c", 4, 5))

  lemma {:induction false} ContainsInitial(s: string, part: string)
    requires part != [] && Contains(s, part)
    ensures forall c :: c in part ==> c in s
  {
    if !(part <= s) {
      ContainsInitial(s[1..], part);
    }
  }

  lemma LacksOne(s: string, part: string, i: nat)
    requires i < |part| && part[i] !in s
    ensures !Contains(s, part) && !HasSuffix(s, part)
  {
    if Contains(s, part) {
      ContainsInitial(s, part);
    }
  }

  lemma NoDeclaration(kind: string)
    requires 'f' !in kind && 'h' !in kind && 's' !in kind && 'd' !in kind
    ensures !IsDeclarationKind(kind)
  {
    LacksOne(kind, "function", 0);
    LacksOne(kind, "method", 3);
    LacksOne(kind, "struct", 0);
    LacksOne(kind, "interface", 5);
    LacksOne(kind, "module", 2);
    LacksOne(kind, "_declaration", 1);
    LacksOne(kind, "_definition", 1);
    assert "class"[3] == 's' && "variable_declarator"[9] == 'd';
  }

  lemma NoRole(kind: string)
    requires 'p' !in kind && 'c' !in kind && 'v' !in kind
    ensures |Role(kind)| == 0
  {
    LacksOne(kind, "import", 2);
    LacksOne(kind, "export", 2);
    LacksOne(kind, "call", 0);
    LacksOne(kind, "invocation", 2);
  }

  lemma NoSelector(kind: string)
    requires 's' !in kind
    ensures !IsSelectorKind(kind)
  {
    LacksOne(kind, "selector", 0);
  }

  /** The kind lacks a letter of every part that would make it a declaration or a selector or give it a role. */
  predicate Plain(kind: string) { 'f' !in kind && 'h' !in kind && 's' !in kind && 'd' !in kind && 'p' !in kind && 'c' !in kind && 'v' !in kind }

  lemma AttributeNameIsPlain()
    ensures Plain(ATTRIBUTE_NAME)
  {
  }

  lemma PlainKind(kind: string)
    requires Plain(kind)
    ensures !IsDeclarationKind(kind) && !IsSelectorKind(kind) && |Role(kind)| == 0
  {
    NoDeclaration(kind);
    NoSelector(kind);
    NoRole(kind);
  }

  lemma UnrangedKey(v: Fact)
    requires !Ranged(v)
    ensures Key(v) == v.kind + NUL + (v.name + NUL + (v.enclosing + NUL + v.role))
  {
    FourJoined(v.kind, v.name, v.enclosing, v.role);
    assert KeyParts(v) == [v.kind, v.name, v.enclosing, v.role];
  }

  lemma PlainCoverage(v: Fact)
    requires |v.enclosing| > 0 && |v.role| == 0 && !IsDeclarationKind(v.kind) && IsPlanningStructureKind(v.kind)
    ensures CoverageKeys(v) == ["enclosing:" + v.enclosing, StructureKey(v)]
  {
  }

  /** The key is the joined text of kind, name and enclosing declaration; the range plays no part. */
  lemma AttributeNameKey(name: string, enclosing: string, start: nat, end: nat)
    requires |name| > 0 && |enclosing| > 0
    ensures var v := AttributeName(name, enclosing, start, end);
            && Key(v) == ATTRIBUTE_NAME + NUL + (name + NUL + (enclosing + NUL + ""))
            && CoverageKeys(v) == ["enclosing:" + enclosing, StructureKey(v)]
  {
    AttributeNameIsPlain();
    PlainKind(ATTRIBUTE_NAME);
    var v := AttributeName(name, enclosing, start, end);
    UnrangedKey(v);
    PlainCoverage(v);
  }

  /** Two such facts share a key, although each covers an enclosing declaration that the other does not. */
  lemma SeparatorConfusesKeys()
    ensures var (v, w) := CONFUSED;
            && v.kind == w.kind && v.role == w.role == Role(v.kind) && Key(v) == Key(w)
            && (exists a :: a in CoverageKeys(v) && a !in CoverageKeys(w)) && exists b :: b in CoverageKeys(w) && b !in CoverageKeys(v)
  {
    var (v, w) := CONFUSED;
    AttributeNameKey("a" + NUL + "b", "c", 0, 3);
    AttributeNameKey("a", "b" + NUL + "c", 4, 5);
    Regroup("a", "b", "c");
    EnclosingApart(v, w);
    EnclosingApart(w, v);
  }

  lemma Regroup(a: string, b: string, c: string)
    ensures a + NUL + b + NUL + (c + NUL + "") == a + NUL + (b + NUL + c + NUL + "")
  {
  }

  lemma EnclosingApart(v: Fact, w: Fact)
    requires v.enclosing != w.enclosing && CoverageKeys(v) == ["enclosing:" + v.enclosing, StructureKey(v)]
    requires CoverageKeys(w) == ["enclosing:" + w.enclosing, StructureKey(w)]
    ensures exists a :: a in CoverageKeys(v) && a !in CoverageKeys(w)
  {
    var a, b := "enclosing:" + v.enclosing, "enclosing:" + w.enclosing;
    assert a[10..] == v.enclosing && b[10..] == w.enclosing;
    assert a[0] == 'e' && StructureKey(w)[0] == 's';
    assert a in CoverageKeys(v) && a !in CoverageKeys(w);
  }

  lemma FourJoined(a: string, b: string, c: string, d: string)
    ensures Strings.Join([a, b, c, d], NUL) == a + NUL + (b + NUL + (c + NUL + d))
  {
    var p := [a, b, c, d];
    assert p[1..] == [b, c, d] && p[1..][1..] == [c, d] && p[1..][1..][1..] == [d];
    assert Strings.Join([d], NUL) == d;
    assert Strings.Join([c, d], NUL) == c + NUL + d;
    assert Strings.Join([b, c, d], NUL) == b + NUL + (c + NUL + d);
  }
}
