/**
 The optional-history display compiler (internal/planning/attributed_history_input.go). A JSON
 value is compiled once into a template; every later choice of history records only renders it.
 Project says directly what a choice means: which records go, what is downgraded, which reasons
 are added. Compiling and rendering gives the print of the projected value.
 */
module DisplayCompiler {
  import opened Json
  import opened DisplayTemplate
  import NaturalOrder
  import Sequences
  import Sorting
  import Strings

  /** The fixed field names and markers of the history schema. Results hold for any such vocabulary. */
  datatype Vocabulary = Vocabulary(
    contexts: string, candidates: string, commands: string,
    matchStatus: string, matchReasons: string, omissionReasons: string, projection: string,
    contextRef: string,
    matched: string, ambiguous: string, contextOmitted: string, budgetExceeded: string,
    status: string, partial: string)

  const VOCABULARY := Vocabulary(
    "agent_history_contexts", "agent_history_candidates", "agent_command_execution_contexts",
    "agent_history_match_status", "agent_history_match_reasons", "agent_history_omission_reasons",
    "agent_history_projection",
    "context_ref",
    "matched", "ambiguous", "candidate_context_omitted", "input_budget_exceeded",
    "status", "partial")

  /** contexts numbers the context records by reference; commands are numbered from commandStart. */
  datatype Compiler = Compiler(names: Vocabulary, contexts: map<string, nat>, commandStart: nat, count: nat)

  /** The record's string reference, or "" when it has none. */
  function RefOf(c: Compiler, record: Value): string
  {
    if record.Object? && c.names.contextRef in record.fields && record.fields[c.names.contextRef].String?
    then record.fields[c.names.contextRef].s
    else ""
  }

  function KnownIndices(c: Compiler, records: seq<Value>): seq<nat>
  {
    if records == [] then []
    else
      var ref := RefOf(c, records[0]);
      (if ref in c.contexts then [c.contexts[ref]] else []) + KnownIndices(c, records[1..])
  }

  /** Value.([]any) with the zero value for anything else. */
  function ItemsOf(v: Value): (items: seq<Value>)
  {
    if v.Array? then v.items else []
  }

  function CandidateIndices(c: Compiler, fields: map<string, Value>): seq<nat>
  {
    if c.names.candidates in fields then KnownIndices(c, ItemsOf(fields[c.names.candidates])) else []
  }

  predicate IsRecordList(c: Compiler, key: string)
  {
    key == c.names.contexts || key == c.names.candidates || key == c.names.commands
  }

  /** The selection indices record number position of list key depends on, if its reference is known. */
  function Requires(c: Compiler, key: string, record: Value, position: nat): seq<nat>
    requires RefOf(c, record) in c.contexts
  {
    [c.contexts[RefOf(c, record)]] + if key == c.names.commands then [c.commandStart + position] else []
  }

  /** What is added to a reason list when candidates were left out. */
  function ExtraReasons(c: Compiler, key: string): seq<string>
  {
    [c.names.contextOmitted] + if key == c.names.omissionReasons then [c.names.budgetExceeded] else []
  }

  /** The extra reasons not yet among those present, in order. */
  function MissingReasons(present: seq<Value>, extra: seq<string>): seq<string>
    decreases extra
  {
    if extra == [] then []
    else if String(extra[0]) in present then MissingReasons(present, extra[1..])
    else [extra[0]] + MissingReasons(present + [String(extra[0])], extra[1..])
  }

  function StringValues(texts: seq<string>): seq<Value>
  {
    if texts == [] then [] else [String(texts[0])] + StringValues(texts[1..])
  }

  // ---------------------------------------------------------------- the compiler

  function LiteralTemplate(text: string): Template { Template(text, [], "", [], []) }

  function ListTemplate(open: string, close: string, separator: string, parts: seq<Template>): Template
  {
    Template("", [LiteralTemplate(open), Template("", parts, separator, [], []), LiteralTemplate(close)], "", [], [])
  }

  function OptionalTemplate(node: Template, indices: seq<nat>, fallback: seq<Template>): Template
  {
    node.(require := indices, ifMissing := fallback)
  }

  function AllIndices(c: Compiler): seq<nat> { seq(c.count, i => i) }

  function ScalarTemplate(v: Value): Template
    requires !v.Array? && !v.Object?
  {
    LiteralTemplate(match v
                    case Null => "null"
                    case Bool(b) => if b then "true" else "false"
                    case Number(text) => text
                    case String(s) => Quote(s, false))
  }

  function EntryTemplate(key: string, field: Template): Template
  {
    Template("", [LiteralTemplate(Quote(key, false)), LiteralTemplate(":"), field], "", [], [])
  }

  /** The compiled form of {"status": "partial"}. */
  function PartialTemplate(c: Compiler): Template
  {
    ListTemplate("{", "}", ",", [EntryTemplate(c.names.status, ScalarTemplate(String(c.names.partial)))])
  }

  function StringTemplates(texts: seq<string>): seq<Template>
  {
    if texts == [] then [] else [ScalarTemplate(String(texts[0]))] + StringTemplates(texts[1..])
  }

  /** The fields written for an object: its own, and the omission reasons when candidates may go. */
  function TemplateKeys(c: Compiler, fields: map<string, Value>, candidates: seq<nat>): (keys: set<string>)
    ensures forall k :: k in keys <==> k in fields || (k == c.names.omissionReasons && candidates != [])
  {
    fields.Keys + if candidates != [] then {c.names.omissionReasons} else {}
  }

  ghost function Compile(c: Compiler, v: Value): Template
    decreases v, 1
  {
    match v
    case Array(items) => ListTemplate("[", "]", ",", CompileItems(c, items))
    case Object(fields) =>
      var candidates := CandidateIndices(c, fields);
      ListTemplate("{", "}", ",", CompileFields(c, v, SortedKeys(TemplateKeys(c, fields, candidates))))
    case _ => ScalarTemplate(v)
  }

  ghost function CompileItems(c: Compiler, items: seq<Value>): seq<Template>
    decreases items, 0
  {
    if items == [] then [] else [Compile(c, items[0])] + CompileItems(c, items[1..])
  }

  ghost function CompileFields(c: Compiler, v: Value, keys: seq<string>): seq<Template>
    requires v.Object? && forall k :: k in keys ==> k in v.fields || k == c.names.omissionReasons
    decreases v, 0, |keys|
  {
    if keys == [] then [] else [CompileField(c, v, keys[0])] + CompileFields(c, v, keys[1..])
  }

  ghost function CompileField(c: Compiler, v: Value, key: string): Template
    requires v.Object? && (key in v.fields || key == c.names.omissionReasons)
    decreases v, 0, 0, 1
  {
    if key in v.fields then EntryTemplate(key, CompileValue(c, v, key))
    else AddedReasonsTemplate(c, CandidateIndices(c, v.fields))
  }

  /** Nothing while every candidate is selected, otherwise a whole omission-reasons field. */
  function AddedReasonsTemplate(c: Compiler, candidates: seq<nat>): Template
  {
    OptionalTemplate(LiteralTemplate(""), candidates,
                     [Template("", [LiteralTemplate(Quote(c.names.omissionReasons, false) + ":"),
                                    ListTemplate("[", "]", ",", StringTemplates(ExtraReasons(c, c.names.omissionReasons)))],
                               "", [], [])])
  }

  ghost function CompileValue(c: Compiler, v: Value, key: string): Template
    requires v.Object? && key in v.fields
    decreases v, 0, 0, 0
  {
    var candidates := CandidateIndices(c, v.fields);
    var value := v.fields[key];
    if IsRecordList(c, key) then
      ListTemplate("[", "]", ",", if value.Array? then CompileRecords(c, key, value.items, 0) else [])
    else if key == c.names.matchStatus then
      if value == String(c.names.matched) && candidates != [] then
        OptionalTemplate(Compile(c, value), candidates, [ScalarTemplate(String(c.names.ambiguous))])
      else Compile(c, value)
    else if key == c.names.matchReasons || key == c.names.omissionReasons then
      if candidates != [] then OptionalTemplate(Compile(c, value), candidates, [CompileReasons(c, value, key)])
      else Compile(c, value)
    else if key == c.names.projection then
      OptionalTemplate(Compile(c, value), AllIndices(c), [PartialTemplate(c)])
    else
      Compile(c, value)
  }

  /** The reason list extended by what an omission adds. */
  ghost function CompileReasons(c: Compiler, value: Value, key: string): Template
    decreases value, 2
  {
    ListTemplate("[", "]", ",",
                 (if value.Array? then CompileItems(c, value.items) else [])
                 + StringTemplates(MissingReasons(ItemsOf(value), ExtraReasons(c, key))))
  }

  ghost function CompileRecords(c: Compiler, key: string, records: seq<Value>, position: nat): seq<Template>
    decreases records, 0
  {
    if records == [] then []
    else
      (if RefOf(c, records[0]) in c.contexts
       then [OptionalTemplate(Compile(c, records[0]), Requires(c, key, records[0], position), [])]
       else [])
      + CompileRecords(c, key, records[1..], position + 1)
  }

  // ---------------------------------------------------------------- what a selection means

  predicate Omits(indices: seq<nat>, selected: set<nat>)
  {
    exists i :: 0 <= i < |indices| && indices[i] !in selected
  }

  predicate Kept(c: Compiler, key: string, record: Value, position: nat, selected: set<nat>)
  {
    RefOf(c, record) in c.contexts && !Omits(Requires(c, key, record, position), selected)
  }

  ghost function Project(c: Compiler, v: Value, selected: set<nat>): Value
    decreases v, 1
  {
    match v
    case Array(items) => Array(ProjectItems(c, items, selected))
    case Object(fields) =>
      Object(map k | k in ProjectedKeys(c, fields, selected) :: ProjectField(c, v, k, selected))
    case _ => v
  }

  function ProjectedKeys(c: Compiler, fields: map<string, Value>, selected: set<nat>): (keys: set<string>)
    ensures forall k :: k in keys <==> k in fields || (k == c.names.omissionReasons && Omits(CandidateIndices(c, fields), selected))
  {
    fields.Keys + if Omits(CandidateIndices(c, fields), selected) then {c.names.omissionReasons} else {}
  }

  ghost function ProjectItems(c: Compiler, items: seq<Value>, selected: set<nat>): (r: seq<Value>)
    ensures |r| == |items|
    decreases items, 0
  {
    if items == [] then [] else [Project(c, items[0], selected)] + ProjectItems(c, items[1..], selected)
  }

  ghost function ProjectField(c: Compiler, v: Value, key: string, selected: set<nat>): Value
    requires v.Object? && key in ProjectedKeys(c, v.fields, selected)
    decreases v, 0
  {
    var omitted := Omits(CandidateIndices(c, v.fields), selected);
    if key !in v.fields then
      Array(StringValues(ExtraReasons(c, c.names.omissionReasons)))
    else
      var value := v.fields[key];
      if IsRecordList(c, key) then
        Array(if value.Array? then ProjectRecords(c, key, value.items, 0, selected) else [])
      else if key == c.names.matchStatus then
        if value == String(c.names.matched) && omitted then String(c.names.ambiguous) else Project(c, value, selected)
      else if key == c.names.matchReasons || key == c.names.omissionReasons then
        if omitted then ProjectReasons(c, value, key, selected) else Project(c, value, selected)
      else if key == c.names.projection && Omits(AllIndices(c), selected) then
        Object(map[c.names.status := String(c.names.partial)])
      else
        Project(c, value, selected)
  }

  ghost function ProjectReasons(c: Compiler, value: Value, key: string, selected: set<nat>): Value
    decreases value, 2
  {
    Array((if value.Array? then ProjectItems(c, value.items, selected) else [])
          + StringValues(MissingReasons(ItemsOf(value), ExtraReasons(c, key))))
  }

  ghost function ProjectRecords(c: Compiler, key: string, records: seq<Value>, position: nat, selected: set<nat>): seq<Value>
    decreases records, 0
  {
    if records == [] then []
    else
      (if Kept(c, key, records[0], position, selected) then [Project(c, records[0], selected)] else [])
      + ProjectRecords(c, key, records[1..], position + 1, selected)
  }

  // ---------------------------------------------------------------- rendering what was compiled

  lemma RenderList(open: string, close: string, separator: string, parts: seq<Template>, selected: set<nat>)
    requires open != "" && close != ""
    ensures Render(ListTemplate(open, close, separator, parts), selected)
         == open + Strings.Join(RenderParts(parts, selected), separator) + close
  {
    var inner := Template("", parts, separator, [], []);
    var text := Strings.Join(RenderParts(parts, selected), separator);
    assert Render(inner, selected) == text;
    var three := [LiteralTemplate(open), inner, LiteralTemplate(close)];
    assert three[1..] == [inner, LiteralTemplate(close)] && three[1..][1..] == [LiteralTemplate(close)];
    assert RenderParts([LiteralTemplate(close)], selected) == [close];
    assert RenderParts(three[1..], selected) == (if text == "" then [] else [text]) + [close];
    assert Render(three[0], selected) == open;
    var texts := RenderParts(three, selected);
    assert texts == [open] + RenderParts(three[1..], selected);
    JoinAll(open, text, close);
    if text == "" {
      assert texts == [open, close];
      assert open + text == open;
    } else {
      assert texts == [open, text, close];
    }
  }

  lemma JoinAll(a: string, b: string, c: string)
    ensures Strings.Join([a, b, c], "") == a + b + c
    ensures Strings.Join([a, c], "") == a + c
  {
    assert [a, b, c][1..] == [b, c] && [b, c][1..] == [c] && [a, c][1..] == [c];
    assert Strings.Join([b, c], "") == b + "" + c == b + c;
    assert Strings.Join([a, b, c], "") == a + "" + (b + c);
    assert a + "" == a;
    Strings.Associative(a, b, c);
  }

  lemma RenderEntry(key: string, field: Template, selected: set<nat>)
    requires Render(field, selected) != ""
    ensures Render(EntryTemplate(key, field), selected) == Quote(key, false) + ":" + Render(field, selected)
  {
    var parts := [LiteralTemplate(Quote(key, false)), LiteralTemplate(":"), field];
    var text := Render(field, selected);
    assert parts[1..] == [LiteralTemplate(":"), field] && parts[1..][1..] == [field] && [field][1..] == [];
    assert RenderParts([field], selected) == [text];
    assert RenderParts(parts[1..], selected) == [":", text];
    assert RenderParts(parts, selected) == [Quote(key, false), ":", text];
    JoinAll(Quote(key, false), ":", text);
  }

  lemma RenderString(text: string, selected: set<nat>)
    ensures Render(ScalarTemplate(String(text)), selected) == Print(String(text), false)
  {
  }

  lemma {:induction false} RenderStrings(texts: seq<string>, selected: set<nat>)
    ensures RenderParts(StringTemplates(texts), selected) == PrintItems(StringValues(texts), false)
  {
    if texts != [] {
      RenderStrings(texts[1..], selected);
    }
  }

  lemma {:induction false} PrintItemsConcat(a: seq<Value>, b: seq<Value>, htmlKeys: bool)
    ensures PrintItems(a + b, htmlKeys) == PrintItems(a, htmlKeys) + PrintItems(b, htmlKeys)
  {
    if a == [] {
      assert a + b == b;
    } else {
      PrintItemsConcat(a[1..], b, htmlKeys);
      Sequences.TailOfConcat(a, b);
    }
  }

  // ---------------------------------------------------------------- compiler correctness

  lemma {:induction false} RenderOfCompile(c: Compiler, v: Value, selected: set<nat>)
    ensures Render(Compile(c, v), selected) == Print(Project(c, v, selected), false)
    decreases v, 1
  {
    match v
    case Array(items) =>
      RenderItems(c, items, selected);
      RenderList("[", "]", ",", CompileItems(c, items), selected);
    case Object(fields) => RenderObject(c, v, selected);
    case _ =>
  }

  lemma RenderObject(c: Compiler, v: Value, selected: set<nat>)
    requires v.Object?
    ensures Render(Compile(c, v), selected) == Print(Project(c, v, selected), false)
    decreases v, 0, 1 + |SortedKeys(TemplateKeys(c, v.fields, CandidateIndices(c, v.fields)))|
  {
    var keys := SortedKeys(TemplateKeys(c, v.fields, CandidateIndices(c, v.fields)));
    var p := Project(c, v, selected);
    assert p.fields.Keys == ProjectedKeys(c, v.fields, selected);
    RenderFields(c, v, keys, selected);
    LiveKeysSorted(c, v, selected);
    RenderList("{", "}", ",", CompileFields(c, v, keys), selected);
    PrintObject(p, SortedKeys(p.fields.Keys));
  }

  lemma PrintObject(p: Value, keys: seq<string>)
    requires p.Object? && keys == SortedKeys(p.fields.Keys)
    ensures Print(p, false) == "{" + Strings.Join(PrintFields(p, keys, false), ",") + "}"
  {
  }

  lemma {:induction false} RenderItems(c: Compiler, items: seq<Value>, selected: set<nat>)
    ensures RenderParts(CompileItems(c, items), selected) == PrintItems(ProjectItems(c, items, selected), false)
    decreases items, 0
  {
    if items != [] {
      RenderOfCompile(c, items[0], selected);
      RenderItems(c, items[1..], selected);
    }
  }

  lemma {:induction false} RenderRecords(c: Compiler, key: string, records: seq<Value>, position: nat, selected: set<nat>)
    ensures RenderParts(CompileRecords(c, key, records, position), selected)
         == PrintItems(ProjectRecords(c, key, records, position, selected), false)
    decreases records, 0
  {
    if records != [] {
      RenderRecords(c, key, records[1..], position + 1, selected);
      var here := if RefOf(c, records[0]) in c.contexts
                  then [OptionalTemplate(Compile(c, records[0]), Requires(c, key, records[0], position), [])] else [];
      var kept := if Kept(c, key, records[0], position, selected) then [Project(c, records[0], selected)] else [];
      RenderPartsConcat(here, CompileRecords(c, key, records[1..], position + 1), selected);
      PrintItemsConcat(kept, ProjectRecords(c, key, records[1..], position + 1, selected), false);
      if here != [] {
        RenderOfCompile(c, records[0], selected);
        CompileIsPlain(c, records[0]);
      }
    }
  }

  /** Compiled values carry no condition of their own, so attaching one overwrites nothing. */
  lemma CompileIsPlain(c: Compiler, v: Value)
    ensures Compile(c, v).require == [] && Compile(c, v).ifMissing == []
  {
  }

  lemma RenderOptional(c: Compiler, v: Value, indices: seq<nat>, fallback: Template, selected: set<nat>)
    ensures Render(OptionalTemplate(Compile(c, v), indices, [fallback]), selected)
         == Render(if Omits(indices, selected) then fallback else Compile(c, v), selected)
  {
    CompileIsPlain(c, v);
  }

  lemma RenderPartial(c: Compiler, selected: set<nat>)
    ensures Render(PartialTemplate(c), selected) == Print(Object(map[c.names.status := String(c.names.partial)]), false)
  {
    var p := Object(map[c.names.status := String(c.names.partial)]);
    assert p.fields.Keys == {c.names.status};
    SortedKeysUnique({c.names.status}, [c.names.status]);
    PrintObject(p, [c.names.status]);
    assert PrintFields(p, [c.names.status], false)
        == [Quote(c.names.status, false) + ":" + Print(String(c.names.partial), false)] + PrintFields(p, [c.names.status][1..], false);
    RenderEntry(c.names.status, ScalarTemplate(String(c.names.partial)), selected);
    var parts := [EntryTemplate(c.names.status, ScalarTemplate(String(c.names.partial)))];
    assert RenderParts(parts, selected) == [Render(parts[0], selected)];
    RenderList("{", "}", ",", parts, selected);
  }

  /** The fields of the template that the selection leaves in, in the same order. */
  ghost function LiveKeys(c: Compiler, v: Value, keys: seq<string>, selected: set<nat>): (live: seq<string>)
    requires v.Object?
    ensures forall k :: k in live <==> k in keys && k in ProjectedKeys(c, v.fields, selected)
  {
    if keys == [] then []
    else (if keys[0] in ProjectedKeys(c, v.fields, selected) then [keys[0]] else []) + LiveKeys(c, v, keys[1..], selected)
  }

  lemma {:induction false} LiveKeysAscending(c: Compiler, v: Value, keys: seq<string>, selected: set<nat>)
    requires v.Object? && Sorting.Ascending(NaturalOrder.Less, keys)
    ensures Sorting.Ascending(NaturalOrder.Less, LiveKeys(c, v, keys, selected))
  {
    if keys != [] {
      LiveKeysAscending(c, v, keys[1..], selected);
      Sequences.HeadTail(keys);
      forall k | k in keys[1..] ensures NaturalOrder.Less(keys[0], k) {
        var i :| 0 <= i < |keys[1..]| && keys[1..][i] == k;
        assert keys[i + 1] == k;
      }
    }
  }

  /** Dropping the unused field keeps the order naturalJSON would choose for what remains. */
  lemma LiveKeysSorted(c: Compiler, v: Value, selected: set<nat>)
    requires v.Object?
    ensures LiveKeys(c, v, SortedKeys(TemplateKeys(c, v.fields, CandidateIndices(c, v.fields))), selected)
         == SortedKeys(ProjectedKeys(c, v.fields, selected))
  {
    var keys := SortedKeys(TemplateKeys(c, v.fields, CandidateIndices(c, v.fields)));
    LiveKeysAscending(c, v, keys, selected);
    SortedKeysUnique(ProjectedKeys(c, v.fields, selected), LiveKeys(c, v, keys, selected));
  }

  lemma PrintFieldsCons(p: Value, key: string, rest: seq<string>, htmlKeys: bool)
    requires p.Object? && key in p.fields && forall k :: k in rest ==> k in p.fields
    ensures PrintFields(p, [key] + rest, htmlKeys)
         == [Quote(key, htmlKeys) + ":" + Print(p.fields[key], htmlKeys)] + PrintFields(p, rest, htmlKeys)
  {
    assert ([key] + rest)[1..] == rest;
  }

  lemma {:induction false} RenderFields(c: Compiler, v: Value, keys: seq<string>, selected: set<nat>)
    requires v.Object?
    requires forall k :: k in keys ==> k in v.fields || (k == c.names.omissionReasons && CandidateIndices(c, v.fields) != [])
    ensures RenderParts(CompileFields(c, v, keys), selected)
         == PrintFields(Project(c, v, selected), LiveKeys(c, v, keys, selected), false)
    decreases v, 0, |keys|
  {
    if keys != [] {
      RenderFields(c, v, keys[1..], selected);
      RenderField(c, v, keys[0], selected);
      var p := Project(c, v, selected);
      var rest := LiveKeys(c, v, keys[1..], selected);
      if keys[0] in ProjectedKeys(c, v.fields, selected) {
        assert LiveKeys(c, v, keys, selected) == [keys[0]] + rest;
        assert p.fields[keys[0]] == ProjectField(c, v, keys[0], selected);
        PrintFieldsCons(p, keys[0], rest, false);
      } else {
        assert LiveKeys(c, v, keys, selected) == rest;
        assert RenderParts(CompileFields(c, v, keys), selected) == RenderParts(CompileFields(c, v, keys[1..]), selected);
      }
    }
  }

  lemma {:induction false} RenderField(c: Compiler, v: Value, key: string, selected: set<nat>)
    requires v.Object? && (key in v.fields || (key == c.names.omissionReasons && CandidateIndices(c, v.fields) != []))
    ensures Render(CompileField(c, v, key), selected)
         == if key in ProjectedKeys(c, v.fields, selected)
            then Quote(key, false) + ":" + Print(ProjectField(c, v, key, selected), false)
            else ""
    decreases v, 0, 0, 1
  {
    var candidates := CandidateIndices(c, v.fields);
    if key !in v.fields {
      RenderAddedReasons(c, candidates, selected);
    } else {
      RenderValue(c, v, key, selected);
      RenderEntry(key, CompileValue(c, v, key), selected);
    }
  }

  lemma RenderValue(c: Compiler, v: Value, key: string, selected: set<nat>)
    requires v.Object? && key in v.fields
    ensures Render(CompileValue(c, v, key), selected) == Print(ProjectField(c, v, key, selected), false)
    decreases v, 0, 0, 0
  {
    var value := v.fields[key];
    var candidates := CandidateIndices(c, v.fields);
    RenderOfCompile(c, value, selected);
    if IsRecordList(c, key) {
      RenderRecordList(c, key, value, selected);
    } else if key == c.names.matchStatus {
      RenderString(c.names.ambiguous, selected);
      RenderOptional(c, value, candidates, ScalarTemplate(String(c.names.ambiguous)), selected);
    } else if key == c.names.matchReasons || key == c.names.omissionReasons {
      RenderReasons(c, value, key, selected);
      RenderOptional(c, value, candidates, CompileReasons(c, value, key), selected);
    } else if key == c.names.projection {
      RenderPartial(c, selected);
      RenderOptional(c, value, AllIndices(c), PartialTemplate(c), selected);
    }
  }

  lemma RenderRecordList(c: Compiler, key: string, value: Value, selected: set<nat>)
    ensures Render(ListTemplate("[", "]", ",", if value.Array? then CompileRecords(c, key, value.items, 0) else []), selected)
         == Print(Array(if value.Array? then ProjectRecords(c, key, value.items, 0, selected) else []), false)
    decreases value, 2
  {
    if value.Array? {
      RenderRecords(c, key, value.items, 0, selected);
    }
    RenderList("[", "]", ",", if value.Array? then CompileRecords(c, key, value.items, 0) else [], selected);
  }

  lemma RenderReasons(c: Compiler, value: Value, key: string, selected: set<nat>)
    ensures Render(CompileReasons(c, value, key), selected) == Print(ProjectReasons(c, value, key, selected), false)
    decreases value, 2
  {
    var own := if value.Array? then CompileItems(c, value.items) else [];
    var kept := if value.Array? then ProjectItems(c, value.items, selected) else [];
    var extra := MissingReasons(ItemsOf(value), ExtraReasons(c, key));
    if value.Array? {
      RenderItems(c, value.items, selected);
    }
    RenderStrings(extra, selected);
    RenderPartsConcat(own, StringTemplates(extra), selected);
    PrintItemsConcat(kept, StringValues(extra), false);
    RenderList("[", "]", ",", own + StringTemplates(extra), selected);
  }

  lemma RenderAddedReasons(c: Compiler, candidates: seq<nat>, selected: set<nat>)
    ensures Render(AddedReasonsTemplate(c, candidates), selected)
         == if Omits(candidates, selected)
            then Quote(c.names.omissionReasons, false) + ":" + Print(Array(StringValues(ExtraReasons(c, c.names.omissionReasons))), false)
            else ""
  {
    var list := ListTemplate("[", "]", ",", StringTemplates(ExtraReasons(c, c.names.omissionReasons)));
    RenderStrings(ExtraReasons(c, c.names.omissionReasons), selected);
    RenderList("[", "]", ",", StringTemplates(ExtraReasons(c, c.names.omissionReasons)), selected);
    RenderPair(Quote(c.names.omissionReasons, false) + ":", list, selected);
  }

  lemma RenderPair(name: string, list: Template, selected: set<nat>)
    requires name != "" && Render(list, selected) != ""
    ensures Render(Template("", [LiteralTemplate(name), list], "", [], []), selected) == name + Render(list, selected)
  {
    var text := Render(list, selected);
    assert [LiteralTemplate(name), list][1..] == [list] && [list][1..] == [];
    assert RenderParts([list], selected) == [text];
    assert RenderParts([LiteralTemplate(name), list], selected) == [name, text];
    JoinAll(name, "", text);
  }
}
