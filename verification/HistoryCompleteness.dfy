/**
 When every history record is selected (internal/planning/attributed_history_input.go:75-159): the
 messages are shown unchanged exactly when all references in them resolve.
 */
module HistoryCompleteness {
  import opened Json
  import opened DisplayTemplate
  import opened DisplayCompiler
  import opened DisplayKeys
  import opened HistoryDocument

  // ---------------------------------------------------------------- everything selected

  /** Nothing in v depends on a record outside the selection. */
  ghost predicate Complete(c: Compiler, v: Value, selected: set<nat>)
  {
    match v
    case Array(items) => forall i :: 0 <= i < |items| ==> Complete(c, items[i], selected)
    case Object(fields) =>
      && !Omits(CandidateIndices(c, fields), selected)
      && (c.names.projection in fields ==> !Omits(AllIndices(c), selected))
      && (forall k :: k in fields && IsRecordList(c, k) ==>
            fields[k].Array? && forall i :: 0 <= i < |fields[k].items| ==> Kept(c, k, fields[k].items[i], i, selected))
      && (forall k :: k in fields ==> Complete(c, fields[k], selected))
    case _ => true
  }

  /** With nothing left out, the projection is the value itself, so the display is the original. */
  lemma CompleteSelectionChangesNothing(c: Compiler, v: Value, selected: set<nat>)
    requires Complete(c, v, selected)
    ensures Project(c, v, selected) == v
    ensures Render(Compile(c, v), selected) == Print(v, false)
  {
    CompleteProjection(c, v, selected);
    RenderOfCompile(c, v, selected);
  }

  lemma {:induction false} CompleteProjection(c: Compiler, v: Value, selected: set<nat>)
    requires Complete(c, v, selected)
    ensures Project(c, v, selected) == v
    decreases v, 1
  {
    match v
    case Array(items) => CompleteItems(c, items, selected);
    case Object(fields) =>
      var p := Project(c, v, selected);
      assert p.fields.Keys == fields.Keys;
      forall k | k in fields ensures p.fields[k] == fields[k] {
        CompleteProjection(c, fields[k], selected);
        assert p.fields[k] == ProjectField(c, v, k, selected);
        if IsRecordList(c, k) {
          CompleteRecords(c, k, fields[k].items, 0, selected);
        }
      }
    case _ =>
  }

  lemma {:induction false} CompleteItems(c: Compiler, items: seq<Value>, selected: set<nat>)
    requires forall i :: 0 <= i < |items| ==> Complete(c, items[i], selected)
    ensures ProjectItems(c, items, selected) == items
    decreases items, 0
  {
    if items != [] {
      CompleteProjection(c, items[0], selected);
      CompleteItems(c, items[1..], selected);
    }
  }

  lemma {:induction false} CompleteRecords(c: Compiler, key: string, records: seq<Value>, position: nat, selected: set<nat>)
    requires forall i :: 0 <= i < |records| ==> Complete(c, records[i], selected)
    requires forall i :: 0 <= i < |records| ==> Kept(c, key, records[i], position + i, selected)
    ensures ProjectRecords(c, key, records, position, selected) == records
    decreases records, 0
  {
    if records != [] {
      CompleteProjection(c, records[0], selected);
      assert Kept(c, key, records[0], position + 0, selected);
      forall i | 0 <= i < |records[1..]| ensures Kept(c, key, records[1..][i], position + 1 + i, selected) {
        assert records[1..][i] == records[i + 1] && Kept(c, key, records[i + 1], position + (i + 1), selected);
      }
      CompleteRecords(c, key, records[1..], position + 1, selected);
    }
  }

  // ---------------------------------------------------------------- all records of a document

  /** Every record in a list names a known context record, and every command has an index of its own. */
  ghost predicate ReferencesResolve(c: Compiler, v: Value)
  {
    match v
    case Array(items) => forall i :: 0 <= i < |items| ==> ReferencesResolve(c, items[i])
    case Object(fields) =>
      && (forall k :: k in fields && IsRecordList(c, k) ==> ListResolves(c, k, fields[k]))
      && forall k :: k in fields ==> ReferencesResolve(c, fields[k])
    case _ => true
  }

  predicate ListResolves(c: Compiler, key: string, list: Value)
  {
    && list.Array? && (forall i :: 0 <= i < |list.items| ==> RefOf(c, list.items[i]) in c.contexts)
    && (key == c.names.commands ==> c.commandStart + |list.items| <= c.count)
  }

  /** References lead to indices in range. */
  predicate WellNumbered(c: Compiler) { c.commandStart <= c.count && forall r :: r in c.contexts ==> c.contexts[r] < c.count }

  function Everything(c: Compiler): set<nat> { set i | i in AllIndices(c) }

  lemma EverythingInRange(c: Compiler, i: nat)
    ensures i in Everything(c) <==> i < c.count
  {
    assert i < c.count ==> AllIndices(c)[i] == i;
  }

  lemma {:induction false} KnownInRange(c: Compiler, records: seq<Value>)
    requires WellNumbered(c)
    ensures !Omits(KnownIndices(c, records), Everything(c))
  {
    if records != [] {
      KnownInRange(c, records[1..]);
      if RefOf(c, records[0]) in c.contexts {
        EverythingInRange(c, c.contexts[RefOf(c, records[0])]);
      }
    }
  }

  lemma ListKept(c: Compiler, key: string, list: Value)
    requires WellNumbered(c) && list.Array?
    ensures ListResolves(c, key, list) <==> forall i :: 0 <= i < |list.items| ==> Kept(c, key, list.items[i], i, Everything(c))
  {
    forall i | 0 <= i < |list.items|
      ensures Kept(c, key, list.items[i], i, Everything(c))
              <==> RefOf(c, list.items[i]) in c.contexts && (key == c.names.commands ==> c.commandStart + i < c.count)
    {
      if RefOf(c, list.items[i]) in c.contexts {
        var indices := Requires(c, key, list.items[i], i);
        EverythingInRange(c, indices[0]);
        EverythingInRange(c, c.commandStart + i);
        assert key == c.names.commands ==> indices[1] == c.commandStart + i;
      }
    }
    if (forall i :: 0 <= i < |list.items| ==> Kept(c, key, list.items[i], i, Everything(c))) && list.items != [] {
      assert Kept(c, key, list.items[|list.items| - 1], |list.items| - 1, Everything(c));
    }
  }

  /** Selecting everything leaves nothing out exactly when all references resolve. */
  lemma {:induction false} EverythingIsComplete(c: Compiler, v: Value)
    requires WellNumbered(c)
    ensures Complete(c, v, Everything(c)) <==> ReferencesResolve(c, v)
  {
    match v
    case Array(items) =>
      forall i | 0 <= i < |items| ensures Complete(c, items[i], Everything(c)) <==> ReferencesResolve(c, items[i]) {
        EverythingIsComplete(c, items[i]);
      }
    case Object(fields) =>
      if c.names.candidates in fields {
        KnownInRange(c, ItemsOf(fields[c.names.candidates]));
      }
      forall k | k in fields ensures Complete(c, fields[k], Everything(c)) <==> ReferencesResolve(c, fields[k]) {
        EverythingIsComplete(c, fields[k]);
      }
      forall k | k in fields && fields[k].Array?
        ensures ListResolves(c, k, fields[k]) <==> forall i :: 0 <= i < |fields[k].items| ==> Kept(c, k, fields[k].items[i], i, Everything(c))
      {
        ListKept(c, k, fields[k]);
      }
    case _ =>
  }

  lemma {:induction false} ItemsUnchanged(c: Compiler, items: seq<Value>, selected: set<nat>, i: nat)
    requires i < |items|
    ensures ProjectItems(c, items, selected)[i] == Project(c, items[i], selected)
  {
    if i > 0 {
      ItemsUnchanged(c, items[1..], selected, i - 1);
    }
  }

  /** A list that keeps its length keeps every record, and shows each as projected. */
  lemma {:induction false} RecordsUnchanged(c: Compiler, key: string, records: seq<Value>, position: nat, selected: set<nat>)
    ensures |ProjectRecords(c, key, records, position, selected)| <= |records|
    ensures |ProjectRecords(c, key, records, position, selected)| == |records| ==>
              forall i :: 0 <= i < |records| ==>
                Kept(c, key, records[i], position + i, selected)
                && ProjectRecords(c, key, records, position, selected)[i] == Project(c, records[i], selected)
  {
    if records != [] {
      RecordsUnchanged(c, key, records[1..], position + 1, selected);
      var shown, rest := ProjectRecords(c, key, records, position, selected), ProjectRecords(c, key, records[1..], position + 1, selected);
      if |shown| == |records| {
        assert Kept(c, key, records[0], position, selected) && shown == [Project(c, records[0], selected)] + rest;
        forall i | 0 <= i < |records| ensures Kept(c, key, records[i], position + i, selected) && shown[i] == Project(c, records[i], selected) {
          if i > 0 {
            assert records[1..][i - 1] == records[i] && Kept(c, key, records[1..][i - 1], position + 1 + (i - 1), selected);
          }
        }
      }
    }
  }

  lemma {:induction false} UnchangedResolves(c: Compiler, v: Value)
    requires WellNumbered(c) && Project(c, v, Everything(c)) == v
    ensures ReferencesResolve(c, v)
    decreases v, 1
  {
    match v
    case Array(items) =>
      forall i | 0 <= i < |items| ensures ReferencesResolve(c, items[i]) {
        ItemsUnchanged(c, items, Everything(c), i);
        UnchangedResolves(c, items[i]);
      }
    case Object(fields) =>
      forall k | k in fields ensures (IsRecordList(c, k) ==> ListResolves(c, k, fields[k])) && ReferencesResolve(c, fields[k]) {
        assert fields[k] == ProjectField(c, v, k, Everything(c));
        if IsRecordList(c, k) {
          UnchangedList(c, k, fields[k]);
        } else {
          UnchangedField(c, v, k);
          UnchangedResolves(c, fields[k]);
        }
      }
    case _ =>
  }

  lemma UnchangedField(c: Compiler, v: Value, key: string)
    requires WellNumbered(c) && v.Object? && key in v.fields && !IsRecordList(c, key)
    ensures ProjectField(c, v, key, Everything(c)) == Project(c, v.fields[key], Everything(c))
  {
    if c.names.candidates in v.fields {
      KnownInRange(c, ItemsOf(v.fields[c.names.candidates]));
    }
  }

  lemma UnchangedList(c: Compiler, key: string, list: Value)
    requires WellNumbered(c) && IsRecordList(c, key)
    requires list == Array(if list.Array? then ProjectRecords(c, key, list.items, 0, Everything(c)) else [])
    ensures ListResolves(c, key, list) && ReferencesResolve(c, list)
    decreases list, 2
  {
    UnchangedRecords(c, key, list.items, ProjectRecords(c, key, list.items, 0, Everything(c)));
    ListKept(c, key, list);
    forall i | 0 <= i < |list.items| ensures ReferencesResolve(c, list.items[i]) {
      UnchangedResolves(c, list.items[i]);
    }
  }

  lemma UnchangedRecords(c: Compiler, key: string, records: seq<Value>, shown: seq<Value>)
    requires shown == ProjectRecords(c, key, records, 0, Everything(c)) && |shown| == |records|
    ensures forall i :: 0 <= i < |records| ==> Kept(c, key, records[i], i, Everything(c)) && shown[i] == Project(c, records[i], Everything(c))
  {
    RecordsUnchanged(c, key, records, 0, Everything(c));
    forall i | 0 <= i < |records| ensures Kept(c, key, records[i], i, Everything(c)) && shown[i] == Project(c, records[i], Everything(c)) {
      assert Kept(c, key, records[i], 0 + i, Everything(c));
    }
  }

  /**
   Selecting all records of a request leaves both messages as they are exactly when every reference in
   them resolves; they are then displayed as they were.
   */
  lemma EverythingChangesNothing(n: Vocabulary, shared: Value, phase: Value)
    ensures var c := DocumentCompiler(n, shared, phase);
            && (Project(c, shared, Everything(c)) == shared <==> ReferencesResolve(c, shared))
            && (Project(c, phase, Everything(c)) == phase <==> ReferencesResolve(c, phase))
            && (ReferencesResolve(c, shared) ==> Render(Compile(c, shared), Everything(c)) == Print(shared, false))
            && (ReferencesResolve(c, phase) ==> Render(Compile(c, phase), Everything(c)) == Print(phase, false))
  {
    var c := DocumentCompiler(n, shared, phase);
    DocumentIsWellNumbered(n, shared, phase);
    UnchangedExactly(c, shared);
    UnchangedExactly(c, phase);
  }

  lemma DocumentIsWellNumbered(n: Vocabulary, shared: Value, phase: Value)
    ensures WellNumbered(DocumentCompiler(n, shared, phase))
  {
    var c := DocumentCompiler(n, shared, phase);
    forall r | r in c.contexts ensures c.contexts[r] < c.count {
      PositionsKnown(NamesOnly(n), RecordsUnder(shared, n.contexts), r);
    }
  }

  lemma UnchangedExactly(c: Compiler, v: Value)
    requires WellNumbered(c)
    ensures Project(c, v, Everything(c)) == v <==> ReferencesResolve(c, v)
    ensures ReferencesResolve(c, v) ==> Render(Compile(c, v), Everything(c)) == Print(v, false)
  {
    EverythingIsComplete(c, v);
    if ReferencesResolve(c, v) {
      CompleteSelectionChangesNothing(c, v, Everything(c));
    }
    if Project(c, v, Everything(c)) == v {
      UnchangedResolves(c, v);
    }
  }

  // ---------------------------------------------------------------- key encodings under all selections

  /** Selecting less shows no key that selecting everything does not show, but for the names a projection adds. */
  lemma {:induction false} FewerStayPlain(c: Compiler, v: Value, selected: set<nat>)
    requires WellNumbered(c) && PlainNames(c.names) && selected <= Everything(c)
    requires PlainKeys(Project(c, v, Everything(c)))
    ensures PlainKeys(Project(c, v, selected))
    decreases v, 1
  {
    match v
    case Array(items) => FewerItems(c, items, selected);
    case Object(fields) =>
      var all, p := Project(c, v, Everything(c)), Project(c, v, selected);
      forall k | k in p.fields ensures HtmlFree(k) && PlainKeys(p.fields[k]) {
        assert p.fields[k] == ProjectField(c, v, k, selected);
        if k in fields {
          assert k in all.fields && all.fields[k] == ProjectField(c, v, k, Everything(c));
          FewerInField(c, v, k, selected);
        } else {
          TextsArePlain(ExtraReasons(c, c.names.omissionReasons));
        }
      }
    case _ =>
  }

  lemma {:induction false} FewerItems(c: Compiler, items: seq<Value>, selected: set<nat>)
    requires WellNumbered(c) && PlainNames(c.names) && selected <= Everything(c)
    requires PlainKeys(Array(ProjectItems(c, items, Everything(c))))
    ensures PlainKeys(Array(ProjectItems(c, items, selected)))
    decreases items, 0
  {
    forall i | 0 <= i < |items| ensures PlainKeys(ProjectItems(c, items, selected)[i]) {
      ItemsUnchanged(c, items, Everything(c), i);
      ItemsUnchanged(c, items, selected, i);
      assert PlainKeys(Array(ProjectItems(c, items, Everything(c))).items[i]);
      FewerStayPlain(c, items[i], selected);
    }
  }

  lemma {:induction false} FewerRecords(c: Compiler, key: string, records: seq<Value>, position: nat, selected: set<nat>)
    requires WellNumbered(c) && PlainNames(c.names) && selected <= Everything(c)
    requires PlainKeys(Array(ProjectRecords(c, key, records, position, Everything(c))))
    ensures PlainKeys(Array(ProjectRecords(c, key, records, position, selected)))
    decreases records, 0
  {
    if records != [] {
      var all, rest := ProjectRecords(c, key, records, position, Everything(c)), ProjectRecords(c, key, records[1..], position + 1, Everything(c));
      var kept := if Kept(c, key, records[0], position, Everything(c)) then [Project(c, records[0], Everything(c))] else [];
      assert all == kept + rest;
      PlainParts(kept, rest);
      FewerRecords(c, key, records[1..], position + 1, selected);
      var shown := if Kept(c, key, records[0], position, selected) then [Project(c, records[0], selected)] else [];
      if shown != [] {
        assert PlainKeys(kept[0]);
        FewerStayPlain(c, records[0], selected);
      }
      PlainParts(shown, ProjectRecords(c, key, records[1..], position + 1, selected));
    }
  }

  lemma PlainParts(a: seq<Value>, b: seq<Value>)
    ensures PlainKeys(Array(a + b)) <==> PlainKeys(Array(a)) && PlainKeys(Array(b))
  {
    assert forall i :: 0 <= i < |a| ==> (a + b)[i] == a[i];
    assert forall i :: 0 <= i < |b| ==> (a + b)[|a| + i] == b[i];
  }

  lemma FewerInField(c: Compiler, v: Value, key: string, selected: set<nat>)
    requires WellNumbered(c) && PlainNames(c.names) && selected <= Everything(c) && v.Object? && key in v.fields
    requires PlainKeys(ProjectField(c, v, key, Everything(c)))
    ensures PlainKeys(ProjectField(c, v, key, selected))
    decreases v, 0
  {
    var value := v.fields[key];
    if IsRecordList(c, key) {
      if value.Array? {
        FewerRecords(c, key, value.items, 0, selected);
      }
    } else {
      UnchangedField(c, v, key);
      FewerStayPlain(c, value, selected);
      if value.Array? {
        FewerItems(c, value.items, selected);
      }
      PlainReasons(c, value, key, selected);
    }
  }

  lemma PlainReasons(c: Compiler, value: Value, key: string, selected: set<nat>)
    requires value.Array? ==> PlainKeys(Array(ProjectItems(c, value.items, selected)))
    ensures PlainKeys(ProjectReasons(c, value, key, selected))
  {
    var missing := MissingReasons(ItemsOf(value), ExtraReasons(c, key));
    TextsArePlain(missing);
    PlainParts(if value.Array? then ProjectItems(c, value.items, selected) else [], StringValues(missing));
  }

  /**
   For any value: every selection of records there are renders the naturalJSON of its projection exactly
   when selecting all of them does, that is when no key shown then contains <, > or &.
   */
  lemma EncodingsAgreeAlways(c: Compiler, v: Value)
    requires WellNumbered(c) && PlainNames(c.names)
    ensures (forall s: set<nat> :: s <= Everything(c) ==> Render(Compile(c, v), s) == NaturalJson(Project(c, v, s)))
            <==> PlainKeys(Project(c, v, Everything(c)))
  {
    if PlainKeys(Project(c, v, Everything(c))) {
      forall s: set<nat> | s <= Everything(c) ensures Render(Compile(c, v), s) == NaturalJson(Project(c, v, s)) {
        FewerStayPlain(c, v, s);
        RenderIsNaturalJson(c, v, s);
      }
    }
    RenderIsNaturalJson(c, v, Everything(c));
  }

  /**
   Known when the template is built: if all references resolve, every selection renders the naturalJSON
   of its projection exactly when no key of the value contains <, > or &.
   */
  lemma EncodingsAgreeExactly(c: Compiler, v: Value)
    requires WellNumbered(c) && ReferencesResolve(c, v) && PlainNames(c.names)
    ensures (forall s: set<nat> :: Render(Compile(c, v), s) == NaturalJson(Project(c, v, s))) <==> PlainKeys(v)
  {
    if PlainKeys(v) {
      forall s: set<nat> ensures Render(Compile(c, v), s) == NaturalJson(Project(c, v, s)) {
        PlainValueIsNaturalJson(c, v, s);
      }
    }
    UnchangedExactly(c, v);
    RenderIsNaturalJson(c, v, Everything(c));
  }
}
