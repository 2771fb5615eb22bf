/**
 The display form of JSON text in which the escape \n inside strings becomes a line break
 (tools/benchmark184/multiline_view.py, internal/llm/display.go), and its inverse.
 */
module NewlineView {
  import opened Wrappers
  import Strings

  // ---------------------------------------------------------------- reference functions

  /** Display of the text s, where quoted says whether s starts inside a string. */
  function View(s: string, quoted: bool): string
    decreases |s|
  {
    if s == "" then ""
    else if quoted && s[0] == '\\' && 2 <= |s| then
      (if s[1] == 'n' then "\n" else s[..2]) + View(s[2..], quoted)
    else [s[0]] + View(s[1..], (s[0] == '"') != quoted)
  }

  function Restore(s: string, quoted: bool): string
    decreases |s|
  {
    if s == "" then ""
    else if quoted && s[0] == '\\' && 2 <= |s| then s[..2] + Restore(s[2..], quoted)
    else
      var next := (s[0] == '"') != quoted;
      (if next && s[0] == '\n' then "\\n" else [s[0]]) + Restore(s[1..], next)
  }

  /** Whether the scan of s ends inside a string. */
  function QuotedAfter(s: string, quoted: bool): bool
    decreases |s|
  {
    if s == "" then quoted
    else if quoted && s[0] == '\\' && 2 <= |s| then QuotedAfter(s[2..], quoted)
    else QuotedAfter(s[1..], (s[0] == '"') != quoted)
  }

  /** No string ends in the middle of an escape; every JSON text satisfies this. */
  predicate EscapesComplete(s: string, quoted: bool)
    decreases |s|
  {
    if s == "" then true
    else if quoted && s[0] == '\\' then 2 <= |s| && EscapesComplete(s[2..], quoted)
    else EscapesComplete(s[1..], (s[0] == '"') != quoted)
  }

  /** No line break occurs unescaped inside a string (section 7 of RFC 8259), nor after a backslash in one. */
  predicate NoRawNewline(s: string, quoted: bool)
    decreases |s|
  {
    if s == "" then true
    else if quoted && s[0] == '\\' && 2 <= |s| then NoRawNewline(s[2..], quoted)
    else !(quoted && s[0] == '\n') && NoRawNewline(s[1..], (s[0] == '"') != quoted)
  }

  // ---------------------------------------------------------------- round trip

  /** Restoring a display gives the text in which every raw line break of a string is escaped. */
  function Escaped(s: string, quoted: bool): string
    decreases |s|
  {
    if s == "" then ""
    else if quoted && s[0] == '\\' && 2 <= |s| then s[..2] + Escaped(s[2..], quoted)
    else (if quoted && s[0] == '\n' then "\\n" else [s[0]]) + Escaped(s[1..], (s[0] == '"') != quoted)
  }

  lemma {:induction false} RestoreOfView(s: string, quoted: bool)
    requires EscapesComplete(s, quoted)
    ensures Restore(View(s, quoted), quoted) == Escaped(s, quoted)
    decreases |s|
  {
    if s != "" {
      if quoted && s[0] == '\\' {
        RestoreOfView(s[2..], quoted);
        if s[1] == 'n' {
          assert s[..2] == "\\n";
          assert View(s, quoted)[1..] == View(s[2..], quoted);
        } else {
          assert View(s, quoted)[..2] == s[..2];
          assert View(s, quoted)[2..] == View(s[2..], quoted);
        }
      } else {
        var next := (s[0] == '"') != quoted;
        RestoreOfView(s[1..], next);
        assert View(s, quoted)[1..] == View(s[1..], next);
      }
    }
  }

  lemma {:induction false} EscapedGrows(s: string, quoted: bool)
    ensures |Escaped(s, quoted)| >= |s|
    ensures |Escaped(s, quoted)| == |s| <==> NoRawNewline(s, quoted)
    ensures NoRawNewline(s, quoted) ==> Escaped(s, quoted) == s
    decreases |s|
  {
    if s != "" {
      if quoted && s[0] == '\\' && 2 <= |s| {
        EscapedGrows(s[2..], quoted);
        assert s == s[..2] + s[2..];
      } else {
        EscapedGrows(s[1..], (s[0] == '"') != quoted);
        assert s == [s[0]] + s[1..];
      }
    }
  }

  /** The round trip is exact precisely on texts without a raw line break inside a string. */
  lemma RoundTrip(s: string)
    requires EscapesComplete(s, false)
    ensures Restore(View(s, false), false) == s <==> NoRawNewline(s, false)
  {
    RestoreOfView(s, false);
    EscapedGrows(s, false);
  }

  // ---------------------------------------------------------------- scanning piece by piece

  /** A text whose strings are all closed: scanning can resume after it as after nothing. */
  predicate Closed(s: string)
  {
    EscapesComplete(s, false) && !QuotedAfter(s, false)
  }

  lemma {:induction false} ScanConcat(s: string, t: string, quoted: bool)
    requires EscapesComplete(s, quoted)
    ensures View(s + t, quoted) == View(s, quoted) + View(t, QuotedAfter(s, quoted))
    ensures QuotedAfter(s + t, quoted) == QuotedAfter(t, QuotedAfter(s, quoted))
    ensures EscapesComplete(s + t, quoted) == EscapesComplete(t, QuotedAfter(s, quoted))
    decreases |s|
  {
    if s == "" {
      assert s + t == t;
    } else if quoted && s[0] == '\\' {
      ScanConcat(s[2..], t, quoted);
      Strings.SlicesOfConcat(s, t, 2);
      Strings.Associative(if s[1] == 'n' then "\n" else s[..2], View(s[2..], quoted), View(t, QuotedAfter(s, quoted)));
    } else {
      var next := (s[0] == '"') != quoted;
      ScanConcat(s[1..], t, next);
      Strings.SlicesOfConcat(s, t, 1);
      Strings.Associative([s[0]], View(s[1..], next), View(t, QuotedAfter(s, quoted)));
    }
  }

  // ---------------------------------------------------------------- the loops

  /** One step of the reference scan at position i. */
  function ViewPiece(s: string, i: nat, quoted: bool): string
    requires i < |s|
  {
    if quoted && s[i] == '\\' && i + 2 <= |s| then (if s[i + 1] == 'n' then "\n" else s[i..i + 2]) else [s[i]]
  }

  function RestorePiece(s: string, i: nat, quoted: bool): string
    requires i < |s|
  {
    if quoted && s[i] == '\\' && i + 2 <= |s| then s[i..i + 2]
    else if (s[i] == '"') != quoted && s[i] == '\n' then "\\n"
    else [s[i]]
  }

  lemma Step(s: string, i: nat, quoted: bool)
    requires i < |s|
    ensures
      var skip := if quoted && s[i] == '\\' && i + 2 <= |s| then 2 else 1;
      var next := if skip == 2 then quoted else (s[i] == '"') != quoted;
      && View(s[i..], quoted) == ViewPiece(s, i, quoted) + View(s[i + skip..], next)
      && Restore(s[i..], quoted) == RestorePiece(s, i, quoted) + Restore(s[i + skip..], next)
      && (EscapesComplete(s[i..], quoted) ==> EscapesComplete(s[i + skip..], next))
  {
    assert s[i..][1..] == s[i + 1..];
    if i + 2 <= |s| {
      assert s[i..][2..] == s[i + 2..];
      assert s[i..][..2] == s[i..i + 2];
    }
  }

  /** What a decoder that accepts only texts with complete escapes refuses is refused, and the rest displayed. */
  method LiteralNewlineDisplay(canonical: string, decodes: string -> bool) returns (result: Option<string>)
    requires forall s :: decodes(s) ==> EscapesComplete(s, false)
    ensures result == if decodes(canonical) then Some(View(canonical, false)) else None
  {
    if !decodes(canonical) {
      return None;
    }
    var display := Scan(canonical);
    result := Some(display);
  }

  /** The Go scanner. */
  method Scan(canonical: string) returns (result: string)
    requires EscapesComplete(canonical, false)
    ensures result == View(canonical, false)
  {
    result := "";
    var inString := false;
    var i := 0;
    while i < |canonical|
      invariant 0 <= i <= |canonical|
      invariant EscapesComplete(canonical[i..], inString)
      invariant View(canonical, false) == result + View(canonical[i..], inString)
    {
      Step(canonical, i, inString);
      ghost var tail := if inString && canonical[i] == '\\' then View(canonical[i + 2..], inString)
                        else View(canonical[i + 1..], (canonical[i] == '"') != inString);
      Strings.Associative(result, ViewPiece(canonical, i, inString), tail);
      var c := canonical[i];
      if inString && c == '\\' {
        i := i + 1;
        if canonical[i] == 'n' {
          result := result + "\n";
        } else {
          assert canonical[i - 1..i + 1] == ['\\', canonical[i]];
          result := result + ['\\', canonical[i]];
        }
        i := i + 1;
        continue;
      }
      if c == '"' {
        inString := !inString;
      }
      result := result + [c];
      i := i + 1;
    }
  }

  /** The Python scanner: the same view, computed with a two-character step. */
  method MultilineView(compact: string) returns (rendered: string)
    requires EscapesComplete(compact, false)
    ensures rendered == View(compact, false)
  {
    rendered := "";
    var inString := false;
    var index := 0;
    while index < |compact|
      invariant 0 <= index <= |compact|
      invariant EscapesComplete(compact[index..], inString)
      invariant View(compact, false) == rendered + View(compact[index..], inString)
    {
      Step(compact, index, inString);
      ghost var tail := if inString && compact[index] == '\\' then View(compact[index + 2..], inString)
                        else View(compact[index + 1..], (compact[index] == '"') != inString);
      Strings.Associative(rendered, ViewPiece(compact, index, inString), tail);
      var c := compact[index];
      if inString && c == '\\' {
        var escape := compact[index + 1];
        assert compact[index..index + 2] == [c] + [escape];
        rendered := rendered + if escape == 'n' then "\n" else [c] + [escape];
        index := index + 2;
        continue;
      }
      if c == '"' {
        inString := !inString;
      }
      rendered := rendered + [c];
      index := index + 1;
    }
  }

  /** A slice past the end is cut, as in Python: a final lone backslash is kept. */
  method RestoreView(rendered: string) returns (text: string)
    ensures text == Restore(rendered, false)
  {
    text := "";
    var inString := false;
    var index := 0;
    while index < |rendered|
      invariant 0 <= index <= |rendered|
      invariant Restore(rendered, false) == text + Restore(rendered[index..], inString)
    {
      Step(rendered, index, inString);
      var c := rendered[index];
      var pair := inString && c == '\\';
      ghost var tail := if pair && index + 2 <= |rendered| then Restore(rendered[index + 2..], inString)
                        else Restore(rendered[index + 1..], (c == '"') != inString);
      Strings.Associative(text, RestorePiece(rendered, index, inString), tail);
      if pair {
        var end := if index + 2 <= |rendered| then index + 2 else |rendered|;
        assert end == index + 1 ==> rendered[index..end] == [c];
        text := text + rendered[index..end];
        index := end;
        continue;
      }
      if c == '"' {
        inString := !inString;
      }
      text := text + if inString && c == '\n' then "\\n" else [c];
      index := index + 1;
    }
  }
}
