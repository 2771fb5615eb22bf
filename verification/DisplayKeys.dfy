/**
 The two ways keys are encoded (internal/planning/harness004.go:62 and attributed_history_input.go:153):
 naturalJSON escapes <, > and & in keys, the display compiler does not. When that can be seen in what a
 template renders, and what is known of it before anything is selected.
 */
module DisplayKeys {
  import opened Json
  import opened DisplayTemplate
  import opened DisplayCompiler

  // ---------------------------------------------------------------- for one selection

  /**
   The compiled template renders the canonical JSON of the projected value exactly when no
   projected key contains <, > or &: naturalJSON escapes those in keys, the compiler does not.
   */
  lemma RenderIsNaturalJson(c: Compiler, v: Value, selected: set<nat>)
    ensures Render(Compile(c, v), selected) == NaturalJson(Project(c, v, selected))
        <==> PlainKeys(Project(c, v, selected))
  {
    RenderOfCompile(c, v, selected);
    KeyEncodingsAgree(Project(c, v, selected));
  }

  /** An object whose one key is "<" is rendered differently by the two encodings. */
  lemma HtmlKeyDiffers(c: Compiler)
    ensures Render(Compile(c, Object(map["<" := Null])), {}) != NaturalJson(Project(c, Object(map["<" := Null]), {}))
  {
    var v := Object(map["<" := Null]);
    assert "<" in v.fields;
    var p := Project(c, v, {});
    assert "<" in p.fields;
    assert HtmlChar("<"[0]) && !HtmlFree("<");
    RenderIsNaturalJson(c, v, {});
  }

  // ---------------------------------------------------------------- before anything is selected

  /** The two names a projection may add to a value. */
  predicate PlainNames(n: Vocabulary) { HtmlFree(n.omissionReasons) && HtmlFree(n.status) }

  lemma RealNamesArePlain()
    ensures PlainNames(VOCABULARY)
  {
  }

  /** Projecting adds no key with <, > or &. */
  lemma {:induction false} ProjectionIsPlain(c: Compiler, v: Value, selected: set<nat>)
    requires PlainNames(c.names) && PlainKeys(v)
    ensures PlainKeys(Project(c, v, selected))
    decreases v, 1
  {
    match v
    case Array(items) => ItemsArePlain(c, items, selected);
    case Object(fields) =>
      var p := Project(c, v, selected);
      forall k | k in p.fields ensures HtmlFree(k) && PlainKeys(p.fields[k]) {
        assert p.fields[k] == ProjectField(c, v, k, selected);
        FieldIsPlain(c, v, k, selected);
      }
    case _ =>
  }

  lemma {:induction false} ItemsArePlain(c: Compiler, items: seq<Value>, selected: set<nat>)
    requires PlainNames(c.names) && forall i :: 0 <= i < |items| ==> PlainKeys(items[i])
    ensures forall i :: 0 <= i < |items| ==> PlainKeys(ProjectItems(c, items, selected)[i])
    decreases items, 0
  {
    if items != [] {
      ProjectionIsPlain(c, items[0], selected);
      ItemsArePlain(c, items[1..], selected);
    }
  }

  lemma {:induction false} RecordsArePlain(c: Compiler, key: string, records: seq<Value>, position: nat, selected: set<nat>)
    requires PlainNames(c.names) && forall i :: 0 <= i < |records| ==> PlainKeys(records[i])
    ensures PlainKeys(Array(ProjectRecords(c, key, records, position, selected)))
    decreases records, 0
  {
    if records != [] {
      ProjectionIsPlain(c, records[0], selected);
      RecordsArePlain(c, key, records[1..], position + 1, selected);
      var rest := ProjectRecords(c, key, records[1..], position + 1, selected);
      assert forall i :: 0 <= i < |rest| ==> PlainKeys(Array(rest).items[i]);
    }
  }

  lemma {:induction false} TextsArePlain(texts: seq<string>)
    ensures |StringValues(texts)| == |texts| && forall i :: 0 <= i < |texts| ==> PlainKeys(StringValues(texts)[i])
  {
    if texts != [] {
      TextsArePlain(texts[1..]);
    }
  }

  lemma ReasonsArePlain(c: Compiler, value: Value, key: string, selected: set<nat>)
    requires PlainNames(c.names) && PlainKeys(value)
    ensures PlainKeys(ProjectReasons(c, value, key, selected))
    decreases value, 2
  {
    TextsArePlain(MissingReasons(ItemsOf(value), ExtraReasons(c, key)));
    if value.Array? {
      ItemsArePlain(c, value.items, selected);
    }
  }

  lemma FieldIsPlain(c: Compiler, v: Value, key: string, selected: set<nat>)
    requires PlainNames(c.names) && PlainKeys(v) && v.Object? && key in ProjectedKeys(c, v.fields, selected)
    ensures HtmlFree(key) && PlainKeys(ProjectField(c, v, key, selected))
    decreases v, 0
  {
    if key !in v.fields {
      TextsArePlain(ExtraReasons(c, c.names.omissionReasons));
    } else {
      var value := v.fields[key];
      ProjectionIsPlain(c, value, selected);
      ReasonsArePlain(c, value, key, selected);
      if value.Array? {
        RecordsArePlain(c, key, value.items, 0, selected);
      }
    }
  }

  /** A value with plain keys is rendered as its projection's naturalJSON, whatever will be selected. */
  lemma PlainValueIsNaturalJson(c: Compiler, v: Value, selected: set<nat>)
    requires PlainNames(c.names) && PlainKeys(v)
    ensures Render(Compile(c, v), selected) == NaturalJson(Project(c, v, selected))
  {
    ProjectionIsPlain(c, v, selected);
    RenderIsNaturalJson(c, v, selected);
  }

  /** No selection takes away what is below such a field. */
  predicate Lasts(n: Vocabulary, key: string, value: Value)
  {
    && key !in {n.contexts, n.candidates, n.commands, n.projection}
    && (key == n.matchReasons || key == n.omissionReasons ==> value.Array?)
  }

  /** No key that every selection leaves in contains <, > or &. */
  ghost predicate LastingKeysPlain(n: Vocabulary, v: Value)
  {
    match v
    case Array(items) => forall i :: 0 <= i < |items| ==> LastingKeysPlain(n, items[i])
    case Object(fields) => forall k :: k in fields ==> HtmlFree(k) && (Lasts(n, k, fields[k]) ==> LastingKeysPlain(n, fields[k]))
    case _ => true
  }

  /** One lasting key with <, > or & shows in what is rendered, whatever is selected. */
  lemma LastingKeyDiffers(c: Compiler, v: Value, selected: set<nat>)
    requires !LastingKeysPlain(c.names, v)
    ensures Render(Compile(c, v), selected) != NaturalJson(Project(c, v, selected))
  {
    RenderIsNaturalJson(c, v, selected);
    if PlainKeys(Project(c, v, selected)) {
      LastingKeysRemain(c, v, selected);
    }
  }

  lemma {:induction false} LastingKeysRemain(c: Compiler, v: Value, selected: set<nat>)
    requires PlainKeys(Project(c, v, selected))
    ensures LastingKeysPlain(c.names, v)
    decreases v, 1
  {
    match v
    case Array(items) => LastingItems(c, items, selected, ProjectItems(c, items, selected));
    case Object(fields) =>
      var p := Project(c, v, selected);
      forall k | k in fields ensures HtmlFree(k) && (Lasts(c.names, k, fields[k]) ==> LastingKeysPlain(c.names, fields[k])) {
        assert k in p.fields && p.fields[k] == ProjectField(c, v, k, selected);
        if Lasts(c.names, k, fields[k]) {
          LastingField(c, v, k, selected);
        }
      }
    case _ =>
  }

  lemma {:induction false} LastingItems(c: Compiler, items: seq<Value>, selected: set<nat>, shown: seq<Value>)
    requires |items| <= |shown| && shown[..|items|] == ProjectItems(c, items, selected)
    requires forall i :: 0 <= i < |shown| ==> PlainKeys(shown[i])
    ensures forall i :: 0 <= i < |items| ==> LastingKeysPlain(c.names, items[i])
    decreases items, 0
  {
    if items != [] {
      assert shown[0] == shown[..|items|][0];
      LastingKeysRemain(c, items[0], selected);
      assert shown[1..][..|items| - 1] == shown[..|items|][1..];
      LastingItems(c, items[1..], selected, shown[1..]);
      assert forall i :: 1 <= i < |items| ==> items[i] == items[1..][i - 1];
    }
  }

  lemma LastingField(c: Compiler, v: Value, key: string, selected: set<nat>)
    requires v.Object? && key in v.fields && Lasts(c.names, key, v.fields[key])
    requires PlainKeys(ProjectField(c, v, key, selected))
    ensures LastingKeysPlain(c.names, v.fields[key])
    decreases v, 0
  {
    var value := v.fields[key];
    if ProjectField(c, v, key, selected) == Project(c, value, selected) {
      LastingKeysRemain(c, value, selected);
    } else if value.Array? {
      LastingItems(c, value.items, selected, ProjectReasons(c, value, key, selected).items);
    }
  }
}
