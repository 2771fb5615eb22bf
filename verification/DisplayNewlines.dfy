/**
 Choosing the literal-newline display before or after the history is chosen gives the same text:
 LiteralNewlines on a compiled template commutes with rendering.
 */
module DisplayNewlines {
  import opened Json
  import opened DisplayTemplate
  import opened DisplayCompiler
  import NewlineView
  import Sequences
  import Strings

  /** json.Valid accepts every encoded string; the other leaves show no escape. */
  ghost predicate AcceptsStrings(validJson: string -> bool)
  {
    forall s: string :: validJson(Quote(s, false))
  }

  lemma {:induction false} EscapeClosed(s: string)
    ensures NewlineView.EscapesComplete(Escape(s, false), true)
    ensures NewlineView.QuotedAfter(Escape(s, false), true)
  {
    if s != "" {
      var e := EscapeChar(s[0], false);
      assert NewlineView.EscapesComplete(e, true) && NewlineView.QuotedAfter(e, true) by {
        EscapeCharClosed(s[0]);
      }
      EscapeClosed(s[1..]);
      NewlineView.ScanConcat(e, Escape(s[1..], false), true);
    }
  }

  lemma EscapeCharClosed(c: char)
    ensures var e := EscapeChar(c, false); NewlineView.EscapesComplete(e, true) && NewlineView.QuotedAfter(e, true)
  {
    var e := EscapeChar(c, false);
    if |e| == 1 {
      assert e[1..] == "";
    } else {
      assert e[0] == '\\' && (|e| == 2 || |e| == 6);
      PlainTail(e[2..]);
    }
  }

  lemma {:induction false} PlainTail(s: string)
    requires forall i :: 0 <= i < |s| ==> s[i] != '"' && s[i] != '\\'
    ensures NewlineView.EscapesComplete(s, true) && NewlineView.QuotedAfter(s, true)
    ensures NewlineView.EscapesComplete(s, false) && !NewlineView.QuotedAfter(s, false)
    ensures NewlineView.View(s, false) == s
  {
    if s != "" {
      PlainTail(s[1..]);
    }
  }

  lemma QuoteClosed(s: string)
    ensures NewlineView.Closed(Quote(s, false))
    ensures NewlineView.Closed(Quote(s, false) + ":")
  {
    var e := Escape(s, false);
    EscapeClosed(s);
    var tail := e + "\"";
    assert "\""[1..] == "";
    NewlineView.ScanConcat(e, "\"", true);
    assert Quote(s, false)[1..] == tail;
    assert Quote(s, false)[0] == '"';
    assert NewlineView.Closed(":") by { PlainTail(":"); }
    NewlineView.ScanConcat(Quote(s, false), ":", false);
  }

  /** The names of the real schema are lower-case letters and underscores. */
  predicate Lowercase(s: string)
  {
    forall i :: 0 <= i < |s| ==> 'a' <= s[i] <= 'z' || s[i] == '_'
  }

  lemma {:induction false} EscapeLowercase(s: string)
    requires Lowercase(s)
    ensures Escape(s, false) == s
  {
    if s != "" {
      EscapeLowercase(s[1..]);
    }
  }

  lemma VocabularyIsLowercase()
    ensures Lowercase(VOCABULARY.omissionReasons)
  {
  }

  lemma LowercaseNameShown(s: string)
    requires Lowercase(s)
    ensures NewlineView.View(Quote(s, false) + ":", false) == Quote(s, false) + ":"
  {
    EscapeLowercase(s);
    var text := Quote(s, false) + ":";
    assert text == "\"" + (s + "\":");
    ViewLowercase(s, "\":");
    assert text[1..] == s + "\":";
    assert "\":"[1..] == ":" && ":"[1..] == "";
  }

  lemma {:induction false} ViewLowercase(s: string, tail: string)
    requires Lowercase(s)
    ensures NewlineView.View(s + tail, true) == s + NewlineView.View(tail, true)
  {
    if s == "" {
      assert s + tail == tail;
    } else {
      ViewLowercase(s[1..], tail);
      Strings.SlicesOfConcat(s, tail, 1);
      Sequences.HeadTail(s);
      Strings.Associative([s[0]], s[1..], NewlineView.View(tail, true));
    }
  }

  lemma DisplayableList(open: string, close: string, parts: seq<Template>, validJson: string -> bool)
    requires (open == "[" && close == "]") || (open == "{" && close == "}")
    requires DisplayableAll(parts, validJson)
    ensures Displayable(ListTemplate(open, close, ",", parts), validJson)
  {
    PlainTail("");
    PlainTail(open);
    PlainTail(close);
    PlainTail(",");
    var inner := Template("", parts, ",", [], []);
    assert Displayable(inner, validJson);
    DisplayableThree(LiteralTemplate(open), inner, LiteralTemplate(close), validJson);
  }

  lemma DisplayableThree(a: Template, b: Template, c: Template, validJson: string -> bool)
    requires Displayable(a, validJson) && Displayable(b, validJson) && Displayable(c, validJson)
    ensures DisplayableAll([a, b, c], validJson)
  {
    assert [a, b, c][1..] == [b, c] && [b, c][1..] == [c];
    DisplayableOne(c, validJson);
    assert DisplayableAll([b, c], validJson);
  }

  lemma DisplayableString(s: string, validJson: string -> bool)
    requires AcceptsStrings(validJson)
    ensures Displayable(LiteralTemplate(Quote(s, false)), validJson)
    ensures Displayable(ScalarTemplate(String(s)), validJson)
  {
    QuoteClosed(s);
    PlainTail("");
  }

  lemma DisplayableScalar(v: Value, validJson: string -> bool)
    requires AcceptsStrings(validJson) && !v.Array? && !v.Object?
    ensures Displayable(ScalarTemplate(v), validJson)
  {
    PlainTail("");
    match v
    case String(s) => DisplayableString(s, validJson);
    case Number(text) => DisplayablePlain(text, validJson);
    case Null => DisplayablePlain("null", validJson);
    case Bool(b) => DisplayablePlain("true", validJson); DisplayablePlain("false", validJson);
  }

  lemma DisplayablePlain(text: string, validJson: string -> bool)
    requires forall i :: 0 <= i < |text| ==> text[i] != '"' && text[i] != '\\'
    ensures Displayable(LiteralTemplate(text), validJson)
  {
    PlainTail("");
    PlainTail(text);
  }

  lemma DisplayableEntry(key: string, field: Template, validJson: string -> bool)
    requires AcceptsStrings(validJson) && Displayable(field, validJson)
    ensures Displayable(EntryTemplate(key, field), validJson)
  {
    PlainTail("");
    PlainTail(":");
    DisplayableString(key, validJson);
    DisplayableThree(LiteralTemplate(Quote(key, false)), LiteralTemplate(":"), field, validJson);
  }

  lemma {:induction false} DisplayableStrings(texts: seq<string>, validJson: string -> bool)
    requires AcceptsStrings(validJson)
    ensures DisplayableAll(StringTemplates(texts), validJson)
  {
    if texts != [] {
      DisplayableString(texts[0], validJson);
      DisplayableStrings(texts[1..], validJson);
    }
  }

  lemma {:induction false} DisplayableConcat(a: seq<Template>, b: seq<Template>, validJson: string -> bool)
    requires DisplayableAll(a, validJson) && DisplayableAll(b, validJson)
    ensures DisplayableAll(a + b, validJson)
  {
    if a == [] {
      assert a + b == b;
    } else {
      DisplayableConcat(a[1..], b, validJson);
      Sequences.TailOfConcat(a, b);
    }
  }

  lemma DisplayableOptional(node: Template, indices: seq<nat>, fallback: seq<Template>, validJson: string -> bool)
    requires Displayable(node, validJson) && DisplayableAll(fallback, validJson)
    ensures Displayable(OptionalTemplate(node, indices, fallback), validJson)
  {
  }

  lemma DisplayableOne(t: Template, validJson: string -> bool)
    requires Displayable(t, validJson)
    ensures DisplayableAll([t], validJson)
  {
    assert [t][1..] == [];
  }

  lemma DisplayableAddedReasons(c: Compiler, indices: seq<nat>, validJson: string -> bool)
    requires AcceptsStrings(validJson) && Lowercase(c.names.omissionReasons)
    ensures Displayable(AddedReasonsTemplate(c, indices), validJson)
  {
    PlainTail("");
    var name := LiteralTemplate(Quote(c.names.omissionReasons, false) + ":");
    var texts := StringTemplates(ExtraReasons(c, c.names.omissionReasons));
    var list := ListTemplate("[", "]", ",", texts);
    QuoteClosed(c.names.omissionReasons);
    LowercaseNameShown(c.names.omissionReasons);
    assert Displayable(name, validJson);
    DisplayableStrings(ExtraReasons(c, c.names.omissionReasons), validJson);
    DisplayableList("[", "]", texts, validJson);
    assert [name, list][1..] == [list];
    DisplayableOne(list, validJson);
    DisplayableOne(Template("", [name, list], "", [], []), validJson);
    DisplayableOptional(LiteralTemplate(""), indices, [Template("", [name, list], "", [], [])], validJson);
  }

  lemma {:induction false} CompileDisplayable(c: Compiler, v: Value, validJson: string -> bool)
    requires AcceptsStrings(validJson) && Lowercase(c.names.omissionReasons)
    ensures Displayable(Compile(c, v), validJson)
    decreases v, 1
  {
    match v
    case Array(items) =>
      ItemsDisplayable(c, items, validJson);
      DisplayableList("[", "]", CompileItems(c, items), validJson);
    case Object(fields) =>
      var keys := SortedKeys(TemplateKeys(c, fields, CandidateIndices(c, fields)));
      FieldsDisplayable(c, v, keys, validJson);
      DisplayableList("{", "}", CompileFields(c, v, keys), validJson);
    case _ => DisplayableScalar(v, validJson);
  }

  lemma {:induction false} ItemsDisplayable(c: Compiler, items: seq<Value>, validJson: string -> bool)
    requires AcceptsStrings(validJson) && Lowercase(c.names.omissionReasons)
    ensures DisplayableAll(CompileItems(c, items), validJson)
    decreases items, 0
  {
    if items != [] {
      CompileDisplayable(c, items[0], validJson);
      ItemsDisplayable(c, items[1..], validJson);
    }
  }

  lemma {:induction false} RecordsDisplayable(c: Compiler, key: string, records: seq<Value>, position: nat, validJson: string -> bool)
    requires AcceptsStrings(validJson) && Lowercase(c.names.omissionReasons)
    ensures DisplayableAll(CompileRecords(c, key, records, position), validJson)
    decreases records, 0
  {
    if records != [] {
      RecordsDisplayable(c, key, records[1..], position + 1, validJson);
      if RefOf(c, records[0]) in c.contexts {
        CompileDisplayable(c, records[0], validJson);
        var kept := OptionalTemplate(Compile(c, records[0]), Requires(c, key, records[0], position), []);
        DisplayableOptional(Compile(c, records[0]), Requires(c, key, records[0], position), [], validJson);
        DisplayableOne(kept, validJson);
        DisplayableConcat([kept], CompileRecords(c, key, records[1..], position + 1), validJson);
      } else {
        assert [] + CompileRecords(c, key, records[1..], position + 1) == CompileRecords(c, key, records[1..], position + 1);
      }
    }
  }

  lemma {:induction false} FieldsDisplayable(c: Compiler, v: Value, keys: seq<string>, validJson: string -> bool)
    requires AcceptsStrings(validJson) && Lowercase(c.names.omissionReasons)
    requires v.Object? && forall k :: k in keys ==> k in v.fields || k == c.names.omissionReasons
    ensures DisplayableAll(CompileFields(c, v, keys), validJson)
    decreases v, 0, |keys|
  {
    if keys != [] {
      FieldsDisplayable(c, v, keys[1..], validJson);
      if keys[0] in v.fields {
        ValueDisplayable(c, v, keys[0], validJson);
        DisplayableEntry(keys[0], CompileValue(c, v, keys[0]), validJson);
      } else {
        DisplayableAddedReasons(c, CandidateIndices(c, v.fields), validJson);
      }
    }
  }

  lemma ValueDisplayable(c: Compiler, v: Value, key: string, validJson: string -> bool)
    requires AcceptsStrings(validJson) && Lowercase(c.names.omissionReasons)
    requires v.Object? && key in v.fields
    ensures Displayable(CompileValue(c, v, key), validJson)
    decreases v, 0, 0
  {
    var candidates := CandidateIndices(c, v.fields);
    var value := v.fields[key];
    CompileDisplayable(c, value, validJson);
    if IsRecordList(c, key) {
      if value.Array? {
        RecordsDisplayable(c, key, value.items, 0, validJson);
      }
      DisplayableList("[", "]", if value.Array? then CompileRecords(c, key, value.items, 0) else [], validJson);
    } else if key == c.names.matchStatus {
      DisplayableString(c.names.ambiguous, validJson);
      DisplayableOne(ScalarTemplate(String(c.names.ambiguous)), validJson);
    } else if key == c.names.matchReasons || key == c.names.omissionReasons {
      var own := if value.Array? then CompileItems(c, value.items) else [];
      var extra := MissingReasons(ItemsOf(value), ExtraReasons(c, key));
      if value.Array? {
        ItemsDisplayable(c, value.items, validJson);
      }
      DisplayableStrings(extra, validJson);
      DisplayableConcat(own, StringTemplates(extra), validJson);
      DisplayableList("[", "]", own + StringTemplates(extra), validJson);
      DisplayableOne(CompileReasons(c, value, key), validJson);
    } else if key == c.names.projection {
      DisplayableString(c.names.partial, validJson);
      DisplayableEntry(c.names.status, ScalarTemplate(String(c.names.partial)), validJson);
      DisplayableOne(EntryTemplate(c.names.status, ScalarTemplate(String(c.names.partial))), validJson);
      DisplayableList("{", "}", [EntryTemplate(c.names.status, ScalarTemplate(String(c.names.partial)))], validJson);
      DisplayableOne(PartialTemplate(c), validJson);
    }
  }

  /**
   Rewriting line breaks in the template and rendering equals displaying the projected JSON with
   literal line breaks, for every selection.
   */
  lemma LiteralNewlinesPreserveMeaning(c: Compiler, v: Value, validJson: string -> bool, selected: set<nat>)
    requires AcceptsStrings(validJson) && Lowercase(c.names.omissionReasons)
    ensures Render(LiteralNewlines(Compile(c, v), validJson), selected)
         == NewlineView.View(Print(Project(c, v, selected), false), false)
  {
    CompileDisplayable(c, v, validJson);
    RenderOfLiteralNewlines(Compile(c, v), validJson, selected);
    RenderOfCompile(c, v, selected);
  }

  /** The names of the history schema meet the condition. */
  lemma RealNamesPreserveMeaning(c: Compiler, v: Value, validJson: string -> bool, selected: set<nat>)
    requires AcceptsStrings(validJson) && c.names == VOCABULARY
    ensures Render(LiteralNewlines(Compile(c, v), validJson), selected)
         == NewlineView.View(Print(Project(c, v, selected), false), false)
  {
    VocabularyIsLowercase();
    LiteralNewlinesPreserveMeaning(c, v, validJson, selected);
  }
}
