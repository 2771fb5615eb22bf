/**
 What the projected messages say about candidates that a choice of history records leaves out
 (internal/planning/attributed_history_input.go:128-152).
 */
module HistoryOmission {
  import opened Json
  import opened DisplayTemplate
  import opened DisplayCompiler
  import opened DisplayKeys
  import opened HistoryDocument
  import Sequences

  // ---------------------------------------------------------------- one object

  /** Some candidate of the object names a context record that is not selected. */
  ghost predicate Loses(c: Compiler, fields: map<string, Value>, selected: set<nat>)
  {
    c.names.candidates in fields
    && exists i :: 0 <= i < |ItemsOf(fields[c.names.candidates])| && LeftOut(c, ItemsOf(fields[c.names.candidates])[i], selected)
  }

  predicate LeftOut(c: Compiler, candidate: Value, selected: set<nat>)
  {
    RefOf(c, candidate) in c.contexts && c.contexts[RefOf(c, candidate)] !in selected
  }

  lemma {:induction false} OmittedIndices(c: Compiler, records: seq<Value>, selected: set<nat>)
    ensures Omits(KnownIndices(c, records), selected) <==> exists i :: 0 <= i < |records| && LeftOut(c, records[i], selected)
  {
    if records != [] {
      OmittedIndices(c, records[1..], selected);
      var here := if RefOf(c, records[0]) in c.contexts then [c.contexts[RefOf(c, records[0])]] else [];
      OmitsConcat(here, KnownIndices(c, records[1..]), selected);
      assert Omits(here, selected) <==> LeftOut(c, records[0], selected) by {
        assert here != [] ==> here[0] == c.contexts[RefOf(c, records[0])];
      }
      LeftOutCons(c, records, selected);
    }
  }

  lemma OmitsConcat(a: seq<nat>, b: seq<nat>, selected: set<nat>)
    ensures Omits(a + b, selected) <==> Omits(a, selected) || Omits(b, selected)
  {
    assert forall i :: 0 <= i < |a| ==> (a + b)[i] == a[i];
    assert forall i :: 0 <= i < |b| ==> (a + b)[|a| + i] == b[i];
  }

  lemma LeftOutCons(c: Compiler, records: seq<Value>, selected: set<nat>)
    requires records != []
    ensures (exists i :: 0 <= i < |records| && LeftOut(c, records[i], selected))
            <==> LeftOut(c, records[0], selected) || exists i :: 0 <= i < |records[1..]| && LeftOut(c, records[1..][i], selected)
  {
    assert forall i :: 0 <= i < |records[1..]| ==> records[1..][i] == records[i + 1];
    if i :| 0 <= i < |records| && LeftOut(c, records[i], selected) {
      assert i > 0 ==> LeftOut(c, records[1..][i - 1], selected);
    }
  }

  lemma LossOf(c: Compiler, fields: map<string, Value>, selected: set<nat>)
    ensures Loses(c, fields, selected) <==> Omits(CandidateIndices(c, fields), selected)
  {
    if c.names.candidates in fields {
      OmittedIndices(c, ItemsOf(fields[c.names.candidates]), selected);
    }
  }

  /** The object claims to be certain. */
  predicate Claims(n: Vocabulary, fields: map<string, Value>) { n.matchStatus in fields && fields[n.matchStatus] == String(n.matched) }

  predicate Says(fields: map<string, Value>, key: string, reason: string) { key in fields && String(reason) in ItemsOf(fields[key]) }

  /**
   An object claims a match exactly when it did before and has lost no candidate; one that has lost
   a candidate gives both reasons of the omission, and the first one also for its match.
   */
  predicate LossShown(n: Vocabulary, before: map<string, Value>, after: map<string, Value>, loses: bool)
  {
    && (Claims(n, after) <==> Claims(n, before) && !loses)
    && (loses ==> Says(after, n.omissionReasons, n.contextOmitted) && Says(after, n.omissionReasons, n.budgetExceeded))
    && (loses && n.matchReasons in before ==> Says(after, n.matchReasons, n.contextOmitted))
    && after.Keys == before.Keys + if loses then {n.omissionReasons} else {}
  }

  lemma OmissionIsVisible(c: Compiler, v: Value, selected: set<nat>)
    requires FieldNamesDistinct(c.names) && v.Object?
    ensures LossShown(c.names, v.fields, Project(c, v, selected).fields, Loses(c, v.fields, selected))
  {
    var n := c.names;
    var p := Project(c, v, selected).fields;
    LossOf(c, v.fields, selected);
    if n.matchStatus in v.fields {
      assert p[n.matchStatus] == ProjectField(c, v, n.matchStatus, selected);
      StringsUnchanged(c, v.fields[n.matchStatus], n.matched, selected);
    }
    if Omits(CandidateIndices(c, v.fields), selected) {
      assert p[n.omissionReasons] == ProjectField(c, v, n.omissionReasons, selected);
      AddedReasonsPresent(c, v, n.omissionReasons, selected);
      assert ExtraReasons(c, n.omissionReasons) == [n.contextOmitted, n.budgetExceeded];
      if n.matchReasons in v.fields {
        assert p[n.matchReasons] == ProjectField(c, v, n.matchReasons, selected);
        AddedReasonsPresent(c, v, n.matchReasons, selected);
        assert n.contextOmitted in ExtraReasons(c, n.matchReasons);
      }
    }
  }

  lemma StringsUnchanged(c: Compiler, v: Value, text: string, selected: set<nat>)
    ensures Project(c, v, selected) == String(text) <==> v == String(text)
  {
    match v
    case Array(items) => assert Project(c, v, selected).Array?;
    case Object(fields) => assert Project(c, v, selected).Object?;
    case _ =>
  }

  lemma {:induction false} StringValuesMember(texts: seq<string>, text: string)
    requires text in texts
    ensures String(text) in StringValues(texts)
  {
    if texts[0] != text {
      Sequences.HeadTail(texts);
      StringValuesMember(texts[1..], text);
    }
  }

  /** A reason is either already present (and strings project to themselves) or appended. */
  lemma {:induction false} ProjectedItem(c: Compiler, items: seq<Value>, text: string, selected: set<nat>)
    requires String(text) in items
    ensures String(text) in ProjectItems(c, items, selected)
  {
    if items[0] != String(text) {
      Sequences.HeadTail(items);
      ProjectedItem(c, items[1..], text, selected);
    }
  }

  lemma {:induction false} ExtraReasonCovered(present: seq<Value>, extra: seq<string>, text: string)
    requires text in extra
    ensures String(text) in present || text in MissingReasons(present, extra)
    decreases extra
  {
    if extra[0] != text {
      Sequences.HeadTail(extra);
      ExtraReasonCovered(present, extra[1..], text);
      ExtraReasonCovered(present + [String(extra[0])], extra[1..], text);
    }
  }

  lemma AddedReasonsPresent(c: Compiler, v: Value, key: string, selected: set<nat>)
    requires FieldNamesDistinct(c.names) && v.Object?
    requires key == c.names.matchReasons || key == c.names.omissionReasons
    requires Omits(CandidateIndices(c, v.fields), selected)
    requires key in ProjectedKeys(c, v.fields, selected)
    ensures forall text :: text in ExtraReasons(c, key) ==> String(text) in ItemsOf(ProjectField(c, v, key, selected))
  {
    forall text | text in ExtraReasons(c, key) ensures String(text) in ItemsOf(ProjectField(c, v, key, selected)) {
      if key !in v.fields {
        StringValuesMember(ExtraReasons(c, key), text);
      } else {
        var value := v.fields[key];
        var missing := MissingReasons(ItemsOf(value), ExtraReasons(c, key));
        ExtraReasonCovered(ItemsOf(value), ExtraReasons(c, key), text);
        if text in missing {
          StringValuesMember(missing, text);
        } else {
          ProjectedItem(c, value.items, text, selected);
        }
      }
    }
  }

  // ---------------------------------------------------------------- every object

  /**
   p shows v honestly: every object of p that comes from an object of v shows what that one has lost.
   Record lists keep the selected records, reason lists may grow at the end, and the projection report
   is replaced when anything was left out.
   */
  ghost predicate Honest(c: Compiler, v: Value, p: Value, selected: set<nat>)
    decreases v, 1
  {
    match v
    case Array(items) => p.Array? && |p.items| == |items| && HonestItems(c, items, p.items, selected)
    case Object(fields) =>
      && p.Object? && LossShown(c.names, fields, p.fields, Loses(c, fields, selected))
      && forall k :: k in fields ==> HonestField(c, fields, k, p.fields[k], selected)
    case _ => p == v
  }

  ghost predicate HonestItems(c: Compiler, items: seq<Value>, shown: seq<Value>, selected: set<nat>)
    requires |items| <= |shown|
    decreases items, 0
  {
    items == [] || (Honest(c, items[0], shown[0], selected) && HonestItems(c, items[1..], shown[1..], selected))
  }

  ghost predicate HonestField(c: Compiler, fields: map<string, Value>, key: string, p: Value, selected: set<nat>)
    requires key in fields
    decreases fields[key], 3
  {
    var n, v := c.names, fields[key];
    if IsRecordList(c, key) then p.Array? && (if v.Array? then HonestRecords(c, key, v.items, 0, p.items, selected) else p.items == [])
    else if key == n.matchStatus then
      if v == String(n.matched) then p == v || p == String(n.ambiguous) else Honest(c, v, p, selected)
    else if key == n.matchReasons || key == n.omissionReasons then
      if Loses(c, fields, selected) then HonestReasons(c, v, p, selected) else Honest(c, v, p, selected)
    else if key == n.projection && Incomplete(c, selected) then p == Object(map[n.status := String(n.partial)])
    else Honest(c, v, p, selected)
  }

  /** Some record there is is not selected. */
  ghost predicate Incomplete(c: Compiler, selected: set<nat>) { exists i: nat :: i < c.count && i !in selected }

  lemma IncompleteOmits(c: Compiler, selected: set<nat>)
    ensures Incomplete(c, selected) <==> Omits(AllIndices(c), selected)
  {
    if i: nat :| i < c.count && i !in selected {
      assert AllIndices(c)[i] == i;
    }
    if i :| 0 <= i < |AllIndices(c)| && AllIndices(c)[i] !in selected {
      assert AllIndices(c)[i] < c.count;
    }
  }

  /** The reasons there were, and further texts. */
  ghost predicate HonestReasons(c: Compiler, v: Value, p: Value, selected: set<nat>)
    decreases v, 2
  {
    && p.Array?
    && var n := if v.Array? then |v.items| else 0;
       n <= |p.items| && (v.Array? ==> HonestItems(c, v.items, p.items, selected)) && forall i :: n <= i < |p.items| ==> p.items[i].String?
  }

  /** The records shown are the selected ones, in order. */
  ghost predicate HonestRecords(c: Compiler, key: string, records: seq<Value>, position: nat, shown: seq<Value>, selected: set<nat>)
    decreases records, 0
  {
    if records == [] then shown == []
    else if Kept(c, key, records[0], position, selected) then
      shown != [] && Honest(c, records[0], shown[0], selected) && HonestRecords(c, key, records[1..], position + 1, shown[1..], selected)
    else HonestRecords(c, key, records[1..], position + 1, shown, selected)
  }

  /** Whatever is selected, no object anywhere in the projection hides that it has lost a candidate. */
  lemma {:induction false} ProjectionIsHonest(c: Compiler, v: Value, selected: set<nat>)
    requires FieldNamesDistinct(c.names)
    ensures Honest(c, v, Project(c, v, selected), selected)
    decreases v, 1
  {
    match v
    case Array(items) => ItemsAreHonest(c, items, [], selected);
    case Object(fields) =>
      OmissionIsVisible(c, v, selected);
      var p := Project(c, v, selected);
      forall k | k in fields ensures HonestField(c, fields, k, p.fields[k], selected) {
        assert p.fields[k] == ProjectField(c, v, k, selected);
        FieldIsHonest(c, v, k, selected);
      }
    case _ =>
  }

  lemma {:induction false} ItemsAreHonest(c: Compiler, items: seq<Value>, more: seq<Value>, selected: set<nat>)
    requires FieldNamesDistinct(c.names)
    ensures HonestItems(c, items, ProjectItems(c, items, selected) + more, selected)
    ensures ProjectItems(c, items, selected) + [] == ProjectItems(c, items, selected)
    decreases items, 0
  {
    if items != [] {
      ProjectionIsHonest(c, items[0], selected);
      ItemsAreHonest(c, items[1..], more, selected);
      var shown := ProjectItems(c, items, selected);
      assert (shown + more)[1..] == ProjectItems(c, items[1..], selected) + more;
    }
  }

  lemma {:induction false} RecordsAreHonest(c: Compiler, key: string, records: seq<Value>, position: nat, selected: set<nat>)
    requires FieldNamesDistinct(c.names)
    ensures HonestRecords(c, key, records, position, ProjectRecords(c, key, records, position, selected), selected)
    decreases records, 0
  {
    if records != [] {
      ProjectionIsHonest(c, records[0], selected);
      RecordsAreHonest(c, key, records[1..], position + 1, selected);
      var shown, rest := ProjectRecords(c, key, records, position, selected), ProjectRecords(c, key, records[1..], position + 1, selected);
      if Kept(c, key, records[0], position, selected) {
        assert shown[1..] == rest;
      } else {
        assert shown == rest;
      }
    }
  }

  lemma FieldIsHonest(c: Compiler, v: Value, key: string, selected: set<nat>)
    requires FieldNamesDistinct(c.names) && v.Object? && key in v.fields
    ensures HonestField(c, v.fields, key, ProjectField(c, v, key, selected), selected)
    decreases v, 0
  {
    var value := v.fields[key];
    ProjectionIsHonest(c, value, selected);
    LossOf(c, v.fields, selected);
    IncompleteOmits(c, selected);
    if IsRecordList(c, key) {
      if value.Array? {
        RecordsAreHonest(c, key, value.items, 0, selected);
      }
    } else if key == c.names.matchReasons || key == c.names.omissionReasons {
      ReasonsAreHonest(c, value, key, selected);
      if Loses(c, v.fields, selected) {
        assert ProjectField(c, v, key, selected) == ProjectReasons(c, value, key, selected);
      } else {
        assert ProjectField(c, v, key, selected) == Project(c, value, selected);
      }
    }
  }

  lemma ReasonsAreHonest(c: Compiler, value: Value, key: string, selected: set<nat>)
    requires FieldNamesDistinct(c.names)
    ensures HonestReasons(c, value, ProjectReasons(c, value, key, selected), selected)
    decreases value, 2
  {
    var missing := MissingReasons(ItemsOf(value), ExtraReasons(c, key));
    var own := if value.Array? then ProjectItems(c, value.items, selected) else [];
    StringsAreStrings(missing);
    if value.Array? {
      ItemsAreHonest(c, value.items, StringValues(missing), selected);
    }
    var all := own + StringValues(missing);
    assert forall i :: |own| <= i < |all| ==> all[i] == StringValues(missing)[i - |own|];
  }

  lemma {:induction false} StringsAreStrings(texts: seq<string>)
    ensures |StringValues(texts)| == |texts| && forall i :: 0 <= i < |texts| ==> StringValues(texts)[i].String?
  {
    if texts != [] {
      StringsAreStrings(texts[1..]);
    }
  }

  // ---------------------------------------------------------------- both messages

  /** What is known of a message as rendered: whose text it is, what it shows of losses, what its candidates name. */
  ghost predicate ShownWell(c: Compiler, v: Value, selected: set<nat>, refs: set<string>)
  {
    var p := Project(c, v, selected);
    && Render(Compile(c, v), selected) == Print(p, false)
    && (PlainKeys(v) ==> Render(Compile(c, v), selected) == NaturalJson(p))
    && Honest(c, v, p, selected) && CandidatesResolve(c, p, refs)
  }

  /**
   Both messages of a request, rendered with any selection of records: each is the text of a value that
   is honest about what was left out and whose candidates name records listed in the shared message.
   */
  lemma MessagesAreHonest(n: Vocabulary, shared: Value, phase: Value, selected: set<nat>)
    requires FieldNamesDistinct(n) && PlainNames(n) && AllReferenced(n, RecordsUnder(shared, n.contexts))
    ensures var c := DocumentCompiler(n, shared, phase);
            var refs := ListedRefs(c, Project(c, shared, selected));
            ShownWell(c, shared, selected, refs) && ShownWell(c, phase, selected, refs)
  {
    var c := DocumentCompiler(n, shared, phase);
    NoDanglingCandidate(n, shared, phase, selected);
    MessageIsHonest(c, shared, selected);
    MessageIsHonest(c, phase, selected);
  }

  lemma MessageIsHonest(c: Compiler, v: Value, selected: set<nat>)
    requires FieldNamesDistinct(c.names) && PlainNames(c.names)
    ensures var p := Project(c, v, selected);
            && Render(Compile(c, v), selected) == Print(p, false)
            && (PlainKeys(v) ==> Render(Compile(c, v), selected) == NaturalJson(p))
            && Honest(c, v, p, selected)
  {
    RenderOfCompile(c, v, selected);
    ProjectionIsHonest(c, v, selected);
    if PlainKeys(v) {
      PlainValueIsNaturalJson(c, v, selected);
    }
  }

  /** The names of the history schema meet the conditions. */
  lemma RealMessagesAreHonest(shared: Value, phase: Value, selected: set<nat>)
    requires AllReferenced(VOCABULARY, RecordsUnder(shared, VOCABULARY.contexts))
    ensures var c := DocumentCompiler(VOCABULARY, shared, phase);
            var refs := ListedRefs(c, Project(c, shared, selected));
            ShownWell(c, shared, selected, refs) && ShownWell(c, phase, selected, refs)
  {
    RealNamesDistinct();
    RealNamesArePlain();
    MessagesAreHonest(VOCABULARY, shared, phase, selected);
  }

  /**
   A candidate whose reference names no context record is dropped by every selection, and nothing shows
   it: the match stands.
   */
  lemma UnknownCandidateGoesSilently(c: Compiler, ref: string, selected: set<nat>)
    requires FieldNamesDistinct(c.names) && ref !in c.contexts
    ensures var n := c.names;
            var v := Object(map[n.candidates := Array([Object(map[n.contextRef := String(ref)])]), n.matchStatus := String(n.matched)]);
            Project(c, v, selected) == Object(map[n.candidates := Array([]), n.matchStatus := String(n.matched)])
  {
    var n := c.names;
    var candidate := Object(map[n.contextRef := String(ref)]);
    var v := Object(map[n.candidates := Array([candidate]), n.matchStatus := String(n.matched)]);
    assert ItemsOf(v.fields[n.candidates]) == [candidate] && RefOf(c, candidate) == ref;
    assert KnownIndices(c, [candidate]) == [] == CandidateIndices(c, v.fields);
    assert !Kept(c, n.candidates, candidate, 0, selected);
    assert ProjectRecords(c, n.candidates, [candidate], 0, selected) == [];
    var p := Project(c, v, selected);
    assert p.fields.Keys == v.fields.Keys;
    assert p.fields[n.candidates] == ProjectField(c, v, n.candidates, selected);
    assert p.fields[n.matchStatus] == ProjectField(c, v, n.matchStatus, selected) == String(n.matched);
    assert p.fields[n.candidates] == Array([]);
    assert p.fields == map[n.candidates := Array([]), n.matchStatus := String(n.matched)];
  }
}
