/**
 What a choice of history records means for the two messages of a planning request
 (internal/planning/attributed_history_input.go:20-56 and 169-183): no candidate points to a record
 that was left out.
 */
module HistoryDocument {
  import opened Wrappers
  import opened Json
  import opened DisplayCompiler
  import Sequences

  predicate FieldNamesDistinct(n: Vocabulary)
  {
    && n.contexts !in {n.candidates, n.commands, n.matchStatus, n.matchReasons, n.omissionReasons, n.projection, n.contextRef}
    && n.candidates !in {n.commands, n.matchStatus, n.matchReasons, n.omissionReasons, n.projection, n.contextRef}
    && n.commands !in {n.matchStatus, n.matchReasons, n.omissionReasons, n.projection, n.contextRef}
    && n.matchStatus !in {n.matchReasons, n.omissionReasons, n.projection, n.contextRef}
    && n.contextRef !in {n.matchReasons, n.omissionReasons, n.projection}
    && n.matched != n.ambiguous
  }

  lemma RealNamesDistinct()
    ensures FieldNamesDistinct(VOCABULARY)
  {
    assert VOCABULARY.candidates[14] == 'c' && VOCABULARY.projection[14] == 'p';
  }

  // ---------------------------------------------------------------- candidates resolve

  /** Every candidate anywhere in p names one of the given references. */
  ghost predicate CandidatesResolve(c: Compiler, p: Value, refs: set<string>)
  {
    match p
    case Array(items) => forall i :: 0 <= i < |items| ==> CandidatesResolve(c, items[i], refs)
    case Object(fields) =>
      && (c.names.candidates in fields ==>
            forall i :: 0 <= i < |ItemsOf(fields[c.names.candidates])| ==> RefOf(c, ItemsOf(fields[c.names.candidates])[i]) in refs)
      && forall k :: k in fields ==> CandidatesResolve(c, fields[k], refs)
    case _ => true
  }

  /** The references whose context record the selection includes. */
  function SelectedRefs(c: Compiler, selected: set<nat>): set<string>
  {
    set r | r in c.contexts && c.contexts[r] in selected
  }

  lemma ProjectKeepsRef(c: Compiler, record: Value, selected: set<nat>)
    requires FieldNamesDistinct(c.names)
    ensures RefOf(c, record) != "" ==> RefOf(c, Project(c, record, selected)) == RefOf(c, record)
  {
    if record.Object? && c.names.contextRef in record.fields {
      var p := Project(c, record, selected);
      assert c.names.contextRef in p.fields;
      assert p.fields[c.names.contextRef] == ProjectField(c, record, c.names.contextRef, selected);
      var reference := record.fields[c.names.contextRef];
      assert reference.String? ==> Project(c, reference, selected) == reference;
    }
  }

  lemma {:induction false} KeptRecordsResolve(c: Compiler, key: string, records: seq<Value>, position: nat, selected: set<nat>)
    requires FieldNamesDistinct(c.names) && "" !in c.contexts
    ensures forall i :: 0 <= i < |ProjectRecords(c, key, records, position, selected)| ==>
              RefOf(c, ProjectRecords(c, key, records, position, selected)[i]) in SelectedRefs(c, selected)
  {
    if records != [] {
      KeptRecordsResolve(c, key, records[1..], position + 1, selected);
      if Kept(c, key, records[0], position, selected) {
        ProjectKeepsRef(c, records[0], selected);
        assert Requires(c, key, records[0], position)[0] in selected;
      }
    }
  }

  /** After projection no candidate refers to a context record that was left out. */
  lemma {:induction false} ProjectionResolves(c: Compiler, v: Value, selected: set<nat>)
    requires FieldNamesDistinct(c.names) && "" !in c.contexts
    ensures CandidatesResolve(c, Project(c, v, selected), SelectedRefs(c, selected))
    decreases v, 1
  {
    match v
    case Array(items) => ItemsResolve(c, items, selected);
    case Object(fields) =>
      var p := Project(c, v, selected);
      forall k | k in p.fields ensures CandidatesResolve(c, p.fields[k], SelectedRefs(c, selected)) {
        FieldResolves(c, v, k, selected);
      }
      if c.names.candidates in p.fields {
        assert p.fields[c.names.candidates] == ProjectField(c, v, c.names.candidates, selected);
        if fields[c.names.candidates].Array? {
          KeptRecordsResolve(c, c.names.candidates, fields[c.names.candidates].items, 0, selected);
          assert ItemsOf(p.fields[c.names.candidates]) == ProjectRecords(c, c.names.candidates, fields[c.names.candidates].items, 0, selected);
        } else {
          assert ItemsOf(p.fields[c.names.candidates]) == [];
        }
      }
    case _ =>
  }

  lemma {:induction false} ItemsResolve(c: Compiler, items: seq<Value>, selected: set<nat>)
    requires FieldNamesDistinct(c.names) && "" !in c.contexts
    ensures CandidatesResolve(c, Array(ProjectItems(c, items, selected)), SelectedRefs(c, selected))
    decreases items, 0
  {
    if items != [] {
      ProjectionResolves(c, items[0], selected);
      ItemsResolve(c, items[1..], selected);
      ResolvesConcat(c, [Project(c, items[0], selected)], ProjectItems(c, items[1..], selected), SelectedRefs(c, selected));
    }
  }

  lemma ResolvesConcat(c: Compiler, a: seq<Value>, b: seq<Value>, refs: set<string>)
    requires CandidatesResolve(c, Array(b), refs)
    requires forall i :: 0 <= i < |a| ==> CandidatesResolve(c, a[i], refs)
    ensures CandidatesResolve(c, Array(a + b), refs)
  {
    assert forall i :: 0 <= i < |b| ==> CandidatesResolve(c, Array(b).items[i], refs);
  }

  lemma {:induction false} RecordsResolve(c: Compiler, key: string, records: seq<Value>, position: nat, selected: set<nat>)
    requires FieldNamesDistinct(c.names) && "" !in c.contexts
    ensures CandidatesResolve(c, Array(ProjectRecords(c, key, records, position, selected)), SelectedRefs(c, selected))
    decreases records, 0
  {
    if records != [] {
      ProjectionResolves(c, records[0], selected);
      RecordsResolve(c, key, records[1..], position + 1, selected);
      var kept := if Kept(c, key, records[0], position, selected) then [Project(c, records[0], selected)] else [];
      ResolvesConcat(c, kept, ProjectRecords(c, key, records[1..], position + 1, selected), SelectedRefs(c, selected));
    }
  }

  lemma {:induction false} StringsResolve(c: Compiler, texts: seq<string>, refs: set<string>)
    ensures CandidatesResolve(c, Array(StringValues(texts)), refs)
  {
    if texts != [] {
      StringsResolve(c, texts[1..], refs);
      ResolvesConcat(c, [String(texts[0])], StringValues(texts[1..]), refs);
    }
  }

  lemma FieldResolves(c: Compiler, v: Value, key: string, selected: set<nat>)
    requires FieldNamesDistinct(c.names) && "" !in c.contexts
    requires v.Object? && key in ProjectedKeys(c, v.fields, selected)
    ensures CandidatesResolve(c, ProjectField(c, v, key, selected), SelectedRefs(c, selected))
    decreases v, 0
  {
    var refs := SelectedRefs(c, selected);
    if key !in v.fields {
      StringsResolve(c, ExtraReasons(c, c.names.omissionReasons), refs);
    } else {
      var value := v.fields[key];
      ProjectionResolves(c, value, selected);
      if value.Array? {
        RecordsResolve(c, key, value.items, 0, selected);
        ItemsResolve(c, value.items, selected);
      }
      var extra := MissingReasons(ItemsOf(value), ExtraReasons(c, key));
      StringsResolve(c, extra, refs);
      var own := if value.Array? then ProjectItems(c, value.items, selected) else [];
      assert forall i :: 0 <= i < |own| ==> CandidatesResolve(c, Array(own).items[i], refs);
      ResolvesConcat(c, own, StringValues(extra), refs);
    }
  }

  // ---------------------------------------------------------------- the two messages of a request

  /** The position of the last record with each reference: later records overwrite earlier ones. */
  function ContextPositions(c: Compiler, records: seq<Value>): map<string, nat>
  {
    if records == [] then map[]
    else ContextPositions(c, records[..|records| - 1])[RefOf(c, records[|records| - 1]) := |records| - 1]
  }

  /** value[key].([]any), nil when the field is missing or is not a list. */
  function RecordsUnder(v: Value, key: string): seq<Value>
  {
    if v.Object? && key in v.fields then ItemsOf(v.fields[key]) else []
  }

  function NamesOnly(n: Vocabulary): Compiler { Compiler(n, map[], 0, 0) }

  function DocumentCompiler(n: Vocabulary, shared: Value, phase: Value): Compiler
  {
    var contexts := RecordsUnder(shared, n.contexts);
    Compiler(n, ContextPositions(NamesOnly(n), contexts), |contexts|, |contexts| + |RecordsUnder(phase, n.commands)|)
  }

  /** UTF-8 length, which is what Go's len counts. */
  function ByteLength(s: string): nat
  {
    if s == "" then 0
    else (if s[0] < '\U{80}' then 1 else if s[0] < '\U{800}' then 2 else if s[0] < '\U{10000}' then 3 else 4) + ByteLength(s[1..])
  }

  /** The byte count of each record's canonical text. */
  ghost function ByteCounts(records: seq<Value>): (counts: seq<nat>)
    ensures |counts| == |records|
  {
    if records == [] then []
    else ByteCounts(records[..|records| - 1]) + [RecordBytes(records[|records| - 1])]
  }

  /** Each context and then each command has its size at its index. */
  ghost predicate Sizes(contexts: seq<Value>, commands: seq<Value>, counts: seq<nat>)
  {
    && |counts| == |contexts| + |commands|
    && (forall i :: 0 <= i < |contexts| ==> counts[i] == RecordBytes(contexts[i]))
    && forall i :: 0 <= i < |commands| ==> counts[|contexts| + i] == RecordBytes(commands[i])
  }

  lemma {:induction false} ByteCountAt(records: seq<Value>, i: nat)
    requires i < |records|
    ensures ByteCounts(records)[i] == RecordBytes(records[i])
  {
    if i < |records| - 1 {
      ByteCountAt(records[..|records| - 1], i);
    }
  }

  lemma CountsAreSizes(contexts: seq<Value>, commands: seq<Value>)
    ensures Sizes(contexts, commands, ByteCounts(contexts) + ByteCounts(commands))
  {
    forall i | 0 <= i < |contexts| ensures ByteCounts(contexts)[i] == RecordBytes(contexts[i]) {
      ByteCountAt(contexts, i);
    }
    forall i | 0 <= i < |commands| ensures ByteCounts(commands)[i] == RecordBytes(commands[i]) {
      ByteCountAt(commands, i);
    }
  }

  ghost function RecordBytes(record: Value): nat
  {
    ByteLength(NaturalJson(record))
  }

  method RecordSize(record: Value) returns (size: nat)
    ensures size == RecordBytes(record)
  {
    var text := WriteNaturalJson(record);
    size := ByteLength(text);
  }

  predicate HasReference(n: Vocabulary, record: Value) { |RefOf(NamesOnly(n), record)| > 0 }

  ghost predicate AllReferenced(n: Vocabulary, records: seq<Value>)
  {
    forall i :: 0 <= i < |records| ==> HasReference(n, records[i])
  }

  datatype HistoryInput = EmptyReference | NoRecords | Ready(compiler: Compiler, byteCounts: seq<nat>)

  lemma PrefixStep(n: Vocabulary, records: seq<Value>, i: nat)
    requires i < |records|
    ensures ContextPositions(NamesOnly(n), records[..i + 1])
         == ContextPositions(NamesOnly(n), records[..i])[RefOf(NamesOnly(n), records[i]) := i]
    ensures ByteCounts(records[..i + 1]) == ByteCounts(records[..i]) + [RecordBytes(records[i])]
  {
    assert records[..i + 1][..i] == records[..i];
  }

  lemma ReferencedStep(n: Vocabulary, records: seq<Value>, i: nat)
    requires i < |records|
    ensures AllReferenced(n, records[..i + 1]) <==> AllReferenced(n, records[..i]) && HasReference(n, records[i])
    ensures AllReferenced(n, records) ==> HasReference(n, records[i])
  {
    Sequences.TakeSnoc(records, i);
  }

  /** The context records: each needs a reference, and gets a position and a size. */
  method ContextRecords(n: Vocabulary, records: seq<Value>) returns (ok: bool, contexts: map<string, nat>, counts: seq<nat>)
    ensures ok <==> AllReferenced(n, records)
    ensures ok ==> contexts == ContextPositions(NamesOnly(n), records) && counts == ByteCounts(records)
  {
    contexts, counts := map[], [];
    for i := 0 to |records|
      invariant AllReferenced(n, records[..i])
      invariant contexts == ContextPositions(NamesOnly(n), records[..i])
      invariant counts == ByteCounts(records[..i])
    {
      var ref := RefOf(NamesOnly(n), records[i]);
      ReferencedStep(n, records, i);
      if |ref| == 0 {
        return false, contexts, counts;
      }
      contexts := contexts[ref := |counts|];
      var size := RecordSize(records[i]);
      counts := counts + [size];
      PrefixStep(n, records, i);
    }
    assert records[..|records|] == records;
    ok := true;
  }

  method RecordSizes(n: Vocabulary, records: seq<Value>) returns (counts: seq<nat>)
    ensures counts == ByteCounts(records)
  {
    counts := [];
    for i := 0 to |records|
      invariant counts == ByteCounts(records[..i])
    {
      var size := RecordSize(records[i]);
      PrefixStep(n, records, i);
      counts := counts + [size];
    }
    assert records[..|records|] == records;
  }

  /** attributed004History on the two decoded messages; both templates come from the one compiler. */
  method AttributedHistory(n: Vocabulary, shared: Value, phase: Value) returns (input: HistoryInput)
    ensures var contexts, commands := RecordsUnder(shared, n.contexts), RecordsUnder(phase, n.commands);
            input == if !AllReferenced(n, contexts) then EmptyReference
                     else if contexts + commands == [] then NoRecords
                     else Ready(DocumentCompiler(n, shared, phase), ByteCounts(contexts) + ByteCounts(commands))
  {
    var ok, contexts, counts := ContextRecords(n, RecordsUnder(shared, n.contexts));
    if !ok {
      return EmptyReference;
    }
    var commandStart := |counts|;
    var sizes := RecordSizes(n, RecordsUnder(phase, n.commands));
    counts := counts + sizes;
    if |counts| == 0 {
      return NoRecords;
    }
    return Ready(Compiler(n, contexts, commandStart, |counts|), counts);
  }

  lemma {:induction false} PositionsKnown(c: Compiler, records: seq<Value>, ref: string)
    ensures ref in ContextPositions(c, records) <==> exists i :: 0 <= i < |records| && RefOf(c, records[i]) == ref
    ensures ref in ContextPositions(c, records) ==>
              ContextPositions(c, records)[ref] < |records| && RefOf(c, records[ContextPositions(c, records)[ref]]) == ref
  {
    if records != [] {
      PositionsKnown(c, records[..|records| - 1], ref);
      if exists i :: 0 <= i < |records| - 1 && RefOf(c, records[i]) == ref {
        var i :| 0 <= i < |records| - 1 && RefOf(c, records[i]) == ref;
        assert records[..|records| - 1][i] == records[i];
      }
    }
  }

  /** RefOf depends only on the vocabulary. */
  lemma RefOfNames(c: Compiler, record: Value)
    ensures RefOf(c, record) == RefOf(NamesOnly(c.names), record)
  {
  }

  /** The references listed by a projected document. */
  function ListedRefs(c: Compiler, p: Value): set<string>
  {
    set r | r in RecordsUnder(p, c.names.contexts) :: RefOf(c, r)
  }

  lemma {:induction false} SelectedRecordListed(c: Compiler, records: seq<Value>, position: nat, i: nat, selected: set<nat>)
    requires FieldNamesDistinct(c.names) && i < |records|
    requires RefOf(c, records[i]) in SelectedRefs(c, selected) && RefOf(c, records[i]) != ""
    ensures exists p :: p in ProjectRecords(c, c.names.contexts, records, position, selected) && RefOf(c, p) == RefOf(c, records[i])
  {
    if i == 0 {
      ProjectKeepsRef(c, records[0], selected);
      assert Kept(c, c.names.contexts, records[0], position, selected);
      assert ProjectRecords(c, c.names.contexts, records, position, selected)[0] == Project(c, records[0], selected);
    } else {
      SelectedRecordListed(c, records[1..], position + 1, i - 1, selected);
      var p :| p in ProjectRecords(c, c.names.contexts, records[1..], position + 1, selected) && RefOf(c, p) == RefOf(c, records[i]);
      assert p in ProjectRecords(c, c.names.contexts, records, position, selected);
    }
  }

  /**
   For every selection, whatever candidate either projected message shows, the context record it
   names is listed in the projected shared message.
   */
  lemma NoDanglingCandidate(n: Vocabulary, shared: Value, phase: Value, selected: set<nat>)
    requires FieldNamesDistinct(n)
    requires AllReferenced(n, RecordsUnder(shared, n.contexts))
    ensures var c := DocumentCompiler(n, shared, phase);
            var refs := ListedRefs(c, Project(c, shared, selected));
            CandidatesResolve(c, Project(c, shared, selected), refs) && CandidatesResolve(c, Project(c, phase, selected), refs)
  {
    var c := DocumentCompiler(n, shared, phase);
    var records := RecordsUnder(shared, n.contexts);
    PositionsKnown(NamesOnly(n), records, "");
    assert "" !in c.contexts;
    ProjectionResolves(c, shared, selected);
    ProjectionResolves(c, phase, selected);
    var refs := ListedRefs(c, Project(c, shared, selected));
    forall ref | ref in SelectedRefs(c, selected) ensures ref in refs {
      PositionsKnown(NamesOnly(n), records, ref);
      var i := c.contexts[ref];
      RefOfNames(c, records[i]);
      SelectedRecordListed(c, records, 0, i, selected);
      assert Project(c, shared, selected).fields[n.contexts] == ProjectField(c, shared, n.contexts, selected);
      var p :| p in ProjectRecords(c, n.contexts, records, 0, selected) && RefOf(c, p) == ref;
      assert p in RecordsUnder(Project(c, shared, selected), n.contexts);
    }
    ResolvesMonotonic(c, Project(c, shared, selected), SelectedRefs(c, selected), refs);
    ResolvesMonotonic(c, Project(c, phase, selected), SelectedRefs(c, selected), refs);
  }

  lemma {:induction false} ResolvesMonotonic(c: Compiler, p: Value, refs: set<string>, more: set<string>)
    requires CandidatesResolve(c, p, refs) && refs <= more
    ensures CandidatesResolve(c, p, more)
  {
    match p
    case Array(items) =>
      forall i | 0 <= i < |items| ensures CandidatesResolve(c, items[i], more) { ResolvesMonotonic(c, items[i], refs, more); }
    case Object(fields) =>
      forall k | k in fields ensures CandidatesResolve(c, fields[k], more) { ResolvesMonotonic(c, fields[k], refs, more); }
    case _ =>
  }

  /** The helper's choice is accepted exactly when it lists valid indices in increasing order. */
  method SelectionValid(indices: Option<seq<int>>, count: nat) returns (ok: bool)
    ensures ok <==> indices.Some? && Sequences.Increasing(indices.value, count)
  {
    if indices.None? {
      return false;
    }
    var previous := -1;
    for i := 0 to |indices.value|
      invariant Sequences.Increasing(indices.value[..i], count)
      invariant previous == if i == 0 then -1 else indices.value[i - 1]
    {
      var index := indices.value[i];
      if index <= previous || index >= count {
        assert i == 0 || indices.value[i - 1] < indices.value[i] ==> !(0 <= index < count);
        return false;
      }
      previous := index;
    }
    assert indices.value[..|indices.value|] == indices.value;
    return true;
  }
}
