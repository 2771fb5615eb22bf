/** The host-authored display template and its renderer (internal/llm/history_input.go:46-85). */
module DisplayTemplate {
  import Sequences
  import Strings
  import NewlineView

  datatype Template = Template(
    literal: string,
    parts: seq<Template>,
    separator: string,
    require: seq<nat>,
    ifMissing: seq<Template>)

  /** Parts that render to nothing are dropped before joining. */
  function Render(t: Template, selected: set<nat>): string
  {
    if exists i :: 0 <= i < |t.require| && t.require[i] !in selected then
      if |t.ifMissing| == 1 then Render(t.ifMissing[0], selected) else ""
    else if t.parts == [] then t.literal
    else Strings.Join(RenderParts(t.parts, selected), t.separator)
  }

  function RenderParts(parts: seq<Template>, selected: set<nat>): seq<string>
  {
    if parts == [] then []
    else
      var text := Render(parts[0], selected);
      (if text == "" then [] else [text]) + RenderParts(parts[1..], selected)
  }

  lemma {:induction false} RenderPartsConcat(a: seq<Template>, b: seq<Template>, selected: set<nat>)
    ensures RenderParts(a + b, selected) == RenderParts(a, selected) + RenderParts(b, selected)
  {
    if a == [] {
      assert a + b == b;
    } else {
      RenderPartsConcat(a[1..], b, selected);
      Sequences.TailOfConcat(a, b);
    }
  }

  // ---------------------------------------------------------------- literal line breaks

  /** Rewrites the literals that are complete JSON texts, never template syntax (lines 24-44). */
  function LiteralNewlines(t: Template, validJson: string -> bool): Template
  {
    Template(
      if validJson(t.literal) then NewlineView.View(t.literal, false) else t.literal,
      LiteralNewlinesAll(t.parts, validJson),
      t.separator,
      t.require,
      LiteralNewlinesAll(t.ifMissing, validJson))
  }

  function LiteralNewlinesAll(ts: seq<Template>, validJson: string -> bool): (r: seq<Template>)
    ensures |r| == |ts|
  {
    if ts == [] then [] else [LiteralNewlines(ts[0], validJson)] + LiteralNewlinesAll(ts[1..], validJson)
  }

  /**
   Every literal and separator closes the strings it opens, and a literal that is not rewritten
   shows no escape anyway.
   */
  ghost predicate Displayable(t: Template, validJson: string -> bool)
  {
    && NewlineView.Closed(t.literal)
    && (!validJson(t.literal) ==> NewlineView.View(t.literal, false) == t.literal)
    && NewlineView.Closed(t.separator) && NewlineView.View(t.separator, false) == t.separator
    && DisplayableAll(t.parts, validJson)
    && DisplayableAll(t.ifMissing, validJson)
  }

  ghost predicate DisplayableAll(ts: seq<Template>, validJson: string -> bool)
  {
    ts == [] || (Displayable(ts[0], validJson) && DisplayableAll(ts[1..], validJson))
  }

  function ViewAll(texts: seq<string>): seq<string>
  {
    if texts == [] then [] else [NewlineView.View(texts[0], false)] + ViewAll(texts[1..])
  }

  ghost predicate ClosedAll(texts: seq<string>)
  {
    texts == [] || (NewlineView.Closed(texts[0]) && ClosedAll(texts[1..]))
  }

  lemma {:induction false} ViewOfJoin(texts: seq<string>, separator: string)
    requires ClosedAll(texts) && NewlineView.Closed(separator)
    requires NewlineView.View(separator, false) == separator
    ensures NewlineView.Closed(Strings.Join(texts, separator))
    ensures NewlineView.View(Strings.Join(texts, separator), false) == Strings.Join(ViewAll(texts), separator)
  {
    if 1 < |texts| {
      ViewOfJoin(texts[1..], separator);
      var rest := Strings.Join(texts[1..], separator);
      NewlineView.ScanConcat(texts[0], separator, false);
      NewlineView.ScanConcat(texts[0] + separator, rest, false);
    } else if |texts| == 1 {
      assert ViewAll(texts)[1..] == [];
    }
  }

  lemma ViewEmpty(s: string)
    ensures NewlineView.View(s, false) == "" <==> s == ""
  {
  }

  /** Rewriting the template's leaves and then rendering gives the display of the rendered text. */
  lemma {:induction false} RenderOfLiteralNewlines(t: Template, validJson: string -> bool, selected: set<nat>)
    requires Displayable(t, validJson)
    ensures NewlineView.Closed(Render(t, selected))
    ensures Render(LiteralNewlines(t, validJson), selected) == NewlineView.View(Render(t, selected), false)
    decreases t
  {
    if exists i :: 0 <= i < |t.require| && t.require[i] !in selected {
      if |t.ifMissing| == 1 {
        RenderOfLiteralNewlines(t.ifMissing[0], validJson, selected);
      }
    } else if t.parts != [] {
      RenderPartsOfLiteralNewlines(t.parts, validJson, selected);
      ViewOfJoin(RenderParts(t.parts, selected), t.separator);
    }
  }

  lemma {:induction false} RenderPartsOfLiteralNewlines(parts: seq<Template>, validJson: string -> bool, selected: set<nat>)
    requires DisplayableAll(parts, validJson)
    ensures ClosedAll(RenderParts(parts, selected))
    ensures RenderParts(LiteralNewlinesAll(parts, validJson), selected) == ViewAll(RenderParts(parts, selected))
    decreases parts
  {
    if parts != [] {
      RenderOfLiteralNewlines(parts[0], validJson, selected);
      RenderPartsOfLiteralNewlines(parts[1..], validJson, selected);
      var text, rest := Render(parts[0], selected), RenderParts(parts[1..], selected);
      ViewEmpty(text);
      var display := LiteralNewlinesAll(parts, validJson);
      assert display[0] == LiteralNewlines(parts[0], validJson);
      assert display[1..] == LiteralNewlinesAll(parts[1..], validJson);
      if text != "" {
        assert ([text] + rest)[1..] == rest;
      } else {
        assert [] + rest == rest;
        assert [] + RenderParts(display[1..], selected) == RenderParts(display[1..], selected);
      }
    }
  }
}
