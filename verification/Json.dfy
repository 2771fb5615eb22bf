/**
 JSON values as encoding/json decodes them into Go's any, and the canonical printer
 naturalJSON (internal/planning/harness004.go:48-87). One char stands for one code point;
 on valid UTF-8 Go's byte order and code point order agree.
 */
module Json {
  import Strings
  import Sequences
  import Sorting
  import NaturalOrder

  /** The text Go prints for a float64: never empty, no quotes, no escapes. */
  type NumberText = s: string | s != "" && forall i :: 0 <= i < |s| ==> s[i] != '"' && s[i] != '\\' witness "0"

  datatype Value =
    | Null
    | Bool(b: bool)
    | Number(text: NumberText)
    | String(s: string)
    | Array(items: seq<Value>)
    | Object(fields: map<string, Value>)

  // ---------------------------------------------------------------- strings

  predicate HtmlChar(c: char) { c == '<' || c == '>' || c == '&' }

  const Hex := "0123456789abcdef"

  /** The escape of one code point; json.Marshal also escapes <, > and &. */
  function EscapeChar(c: char, escapeHtml: bool): string
  {
    if c == '"' then "\\\""
    else if c == '\\' then "\\\\"
    else if c == '\n' then "\\n"
    else if c == '\r' then "\\r"
    else if c == '\t' then "\\t"
    else if c == '\U{8}' then "\\b"
    else if c == '\U{C}' then "\\f"
    else if c < ' ' then "\\u00" + [Hex[c as int / 16], Hex[c as int % 16]]
    else if escapeHtml && HtmlChar(c) then "\\u00" + [Hex[c as int / 16], Hex[c as int % 16]]
    else if c == '\U{2028}' then "\\u2028"
    else if c == '\U{2029}' then "\\u2029"
    else [c]
  }

  function Escape(s: string, escapeHtml: bool): string
  {
    if s == "" then "" else EscapeChar(s[0], escapeHtml) + Escape(s[1..], escapeHtml)
  }

  function Quote(s: string, escapeHtml: bool): string
  {
    "\"" + Escape(s, escapeHtml) + "\""
  }

  predicate HtmlFree(s: string)
  {
    forall i :: 0 <= i < |s| ==> !HtmlChar(s[i])
  }

  lemma HtmlFreeStep(s: string)
    requires |s| > 0
    ensures HtmlFree(s) <==> !HtmlChar(s[0]) && HtmlFree(s[1..])
  {
    if HtmlFree(s[1..]) && !HtmlChar(s[0]) {
      forall i | 0 <= i < |s| ensures !HtmlChar(s[i]) {
        assert i > 0 ==> s[i] == s[1..][i - 1];
      }
    }
    if HtmlFree(s) {
      forall i | 0 <= i < |s[1..]| ensures !HtmlChar(s[1..][i]) {
        assert s[1..][i] == s[i + 1];
      }
    }
  }

  lemma EscapeCharHtml(c: char)
    ensures HtmlChar(c) ==> |EscapeChar(c, true)| > |EscapeChar(c, false)|
    ensures !HtmlChar(c) ==> EscapeChar(c, true) == EscapeChar(c, false)
  {
  }

  /** The lengths of two escapes of a string, from those of its first character and of the rest. */
  lemma EscapeLength(s: string, escapeHtml: bool)
    requires |s| > 0
    ensures |Escape(s, escapeHtml)| == |EscapeChar(s[0], escapeHtml)| + |Escape(s[1..], escapeHtml)|
  {
  }

  lemma SameEscape(s: string)
    requires |s| > 0 && EscapeChar(s[0], true) == EscapeChar(s[0], false) && Escape(s[1..], true) == Escape(s[1..], false)
    ensures Escape(s, true) == Escape(s, false)
  {
  }

  /** json.Marshal and the encoder without HTML escaping agree exactly on strings free of <, >, &. */
  lemma {:induction false} EscapeHtmlLonger(s: string)
    ensures |Escape(s, true)| >= |Escape(s, false)|
    ensures !HtmlFree(s) ==> |Escape(s, true)| > |Escape(s, false)|
    ensures HtmlFree(s) ==> Escape(s, true) == Escape(s, false)
  {
    if |s| > 0 {
      EscapeHtmlLonger(s[1..]);
      HtmlFreeStep(s);
      EscapeCharHtml(s[0]);
      EscapeLength(s, true);
      EscapeLength(s, false);
      if HtmlFree(s) {
        SameEscape(s);
      }
    }
  }

  // ---------------------------------------------------------------- sorted keys

  lemma {:induction false} EnumerationExists(s: set<string>) returns (xs: seq<string>)
    ensures Sorting.Enumerates(xs, s)
  {
    if s == {} {
      xs := [];
    } else {
      var x :| x in s;
      var rest := EnumerationExists(s - {x});
      xs := [x] + rest;
    }
  }

  /** The keys of a map in the order naturalJSON writes them. */
  ghost function SortedKeys(s: set<string>): (keys: seq<string>)
    ensures Sorting.Enumerates(keys, s) && Sorting.Ascending(NaturalOrder.Less, keys)
  {
    assert exists xs: seq<string> :: Sorting.Enumerates(xs, s) by {
      var xs := EnumerationExists(s);
    }
    var xs: seq<string> :| Sorting.Enumerates(xs, s);
    NaturalOrder.LessIsStrictTotalOrder();
    Sorting.SortAscending(NaturalOrder.Less, xs);
    var keys := Sorting.Sort(NaturalOrder.Less, xs);
    assert Sorting.Ascending(NaturalOrder.Less, keys);
    keys
  }

  /** Any ascending listing of the keys is the one naturalJSON uses. */
  lemma SortedKeysUnique(s: set<string>, xs: seq<string>)
    requires forall k :: k in xs <==> k in s
    requires Sorting.Ascending(NaturalOrder.Less, xs)
    ensures xs == SortedKeys(s)
  {
    NaturalOrder.LessIsStrictTotalOrder();
    Sorting.AscendingUnique(NaturalOrder.Less, xs, SortedKeys(s));
  }

  // ---------------------------------------------------------------- the printer

  /** htmlKeys says how keys are encoded: json.Marshal (true) or the encoder without HTML escaping. */
  ghost function Print(v: Value, htmlKeys: bool): (text: string)
    ensures text != ""
    decreases v, 1
  {
    match v
    case Null => "null"
    case Bool(b) => if b then "true" else "false"
    case Number(text) => text
    case String(s) => Quote(s, false)
    case Array(items) => "[" + Strings.Join(PrintItems(items, htmlKeys), ",") + "]"
    case Object(fields) => "{" + Strings.Join(PrintFields(v, SortedKeys(fields.Keys), htmlKeys), ",") + "}"
  }

  ghost function PrintItems(items: seq<Value>, htmlKeys: bool): (texts: seq<string>)
    ensures |texts| == |items|
    decreases items, 0
  {
    if items == [] then [] else [Print(items[0], htmlKeys)] + PrintItems(items[1..], htmlKeys)
  }

  ghost function PrintFields(v: Value, keys: seq<string>, htmlKeys: bool): (texts: seq<string>)
    requires v.Object? && forall k :: k in keys ==> k in v.fields
    ensures |texts| == |keys|
    decreases v, 0, keys
  {
    if keys == [] then []
    else [Quote(keys[0], htmlKeys) + ":" + Print(v.fields[keys[0]], htmlKeys)] + PrintFields(v, keys[1..], htmlKeys)
  }

  ghost function NaturalJson(v: Value): string
  {
    Print(v, true)
  }

  // ---------------------------------------------------------------- naturalJSON as written

  lemma {:induction false} JoinSnoc(parts: seq<string>, last: string, sep: string)
    ensures Strings.Join(parts + [last], sep) == if parts == [] then last else Strings.Join(parts, sep) + sep + last
  {
    if parts != [] {
      JoinSnoc(parts[1..], last, sep);
      assert (parts + [last])[1..] == parts[1..] + [last];
      if 1 < |parts| {
        Strings.Associative(parts[0] + sep, Strings.Join(parts[1..], sep), sep);
        Strings.Associative(parts[0] + sep, Strings.Join(parts[1..], sep) + sep, last);
      }
    }
  }

  lemma {:induction false} PrintItemsPrefix(items: seq<Value>, n: nat, htmlKeys: bool)
    requires n < |items|
    ensures PrintItems(items[..n + 1], htmlKeys) == PrintItems(items[..n], htmlKeys) + [Print(items[n], htmlKeys)]
  {
    Sequences.TailOfTake(items, n);
    if 0 < n {
      PrintItemsPrefix(items[1..], n - 1, htmlKeys);
      Sequences.TailOfTake(items, n - 1);
    }
  }

  lemma {:induction false} PrintFieldsPrefix(v: Value, keys: seq<string>, n: nat, htmlKeys: bool)
    requires v.Object? && n < |keys| && forall k :: k in keys ==> k in v.fields
    ensures PrintFields(v, keys[..n + 1], htmlKeys)
         == PrintFields(v, keys[..n], htmlKeys) + [Quote(keys[n], htmlKeys) + ":" + Print(v.fields[keys[n]], htmlKeys)]
  {
    Sequences.TailOfTake(keys, n);
    if 0 < n {
      PrintFieldsPrefix(v, keys[1..], n - 1, htmlKeys);
      Sequences.TailOfTake(keys, n - 1);
    }
  }

  /** Ranging over the map yields its keys in some order; sorting forgets which. */
  method CollectKeys(fields: map<string, Value>) returns (keys: seq<string>)
    ensures keys == SortedKeys(fields.Keys)
  {
    var collected := Sorting.Range(fields.Keys);
    NaturalOrder.LessIsStrictTotalOrder();
    Sorting.SortAscending(NaturalOrder.Less, collected);
    keys := Sorting.Sort(NaturalOrder.Less, collected);
    SortedKeysUnique(fields.Keys, keys);
  }

  /** The buffer-writing printer: whatever the map iteration order, it writes Print(v, true). */
  method WriteNaturalJson(v: Value) returns (b: string)
    ensures b == NaturalJson(v)
    decreases v, 1
  {
    match v
    case Object(_) => b := WriteObject(v);
    case Array(_) => b := WriteArray(v);
    case Null => b := "null";
    case Bool(x) => b := if x then "true" else "false";
    case Number(text) => b := text;
    case String(s) => b := Quote(s, false);
  }

  method WriteObject(v: Value) returns (b: string)
    requires v.Object?
    ensures b == NaturalJson(v)
    decreases v, 0
  {
    var keys := CollectKeys(v.fields);
    b := "";
    for i := 0 to |keys|
      invariant b == Strings.Join(PrintFields(v, keys[..i], true), ",")
    {
      if i > 0 {
        b := b + ",";
      }
      var text := WriteNaturalJson(v.fields[keys[i]]);
      b := b + (Quote(keys[i], true) + ":" + text);
      PrintFieldsPrefix(v, keys, i, true);
      JoinSnoc(PrintFields(v, keys[..i], true), Quote(keys[i], true) + ":" + text, ",");
    }
    assert keys[..|keys|] == keys;
    b := "{" + b + "}";
  }

  method WriteArray(v: Value) returns (b: string)
    requires v.Array?
    ensures b == NaturalJson(v)
    decreases v, 0
  {
    b := "";
    for i := 0 to |v.items|
      invariant b == Strings.Join(PrintItems(v.items[..i], true), ",")
    {
      if i > 0 {
        b := b + ",";
      }
      var text := WriteNaturalJson(v.items[i]);
      b := b + text;
      PrintItemsPrefix(v.items, i, true);
      JoinSnoc(PrintItems(v.items[..i], true), text, ",");
    }
    assert v.items[..|v.items|] == v.items;
    b := "[" + b + "]";
  }

  // ---------------------------------------------------------------- when the two key encodings agree

  /** No key anywhere in v contains <, > or &. */
  ghost predicate PlainKeys(v: Value)
  {
    match v
    case Array(items) => forall i :: 0 <= i < |items| ==> PlainKeys(items[i])
    case Object(fields) => forall k :: k in fields ==> HtmlFree(k) && PlainKeys(fields[k])
    case _ => true
  }

  function Total(texts: seq<string>): nat
  {
    if texts == [] then 0 else |texts[0]| + Total(texts[1..])
  }

  lemma {:induction false} JoinLength(texts: seq<string>)
    ensures |Strings.Join(texts, ",")| == Total(texts) + if texts == [] then 0 else |texts| - 1
  {
    if 1 < |texts| {
      JoinLength(texts[1..]);
    } else if |texts| == 1 {
      assert texts[1..] == [];
    }
  }

  lemma {:induction false} HtmlKeysLonger(v: Value)
    ensures |Print(v, true)| >= |Print(v, false)|
    ensures !PlainKeys(v) ==> |Print(v, true)| > |Print(v, false)|
    ensures PlainKeys(v) ==> Print(v, true) == Print(v, false)
    decreases v, 1
  {
    match v
    case Array(items) =>
      HtmlKeysLongerItems(items);
      JoinLength(PrintItems(items, true));
      JoinLength(PrintItems(items, false));
    case Object(fields) => HtmlKeysLongerObject(v);
    case _ =>
  }

  lemma HtmlKeysLongerObject(v: Value)
    requires v.Object?
    ensures |Print(v, true)| >= |Print(v, false)|
    ensures !PlainKeys(v) ==> |Print(v, true)| > |Print(v, false)|
    ensures PlainKeys(v) ==> Print(v, true) == Print(v, false)
    decreases v, 0, SortedKeys(v.fields.Keys), 1
  {
    var keys := SortedKeys(v.fields.Keys);
    HtmlKeysLongerFields(v, keys);
    var long, short := PrintFields(v, keys, true), PrintFields(v, keys, false);
    JoinLength(long);
    JoinLength(short);
    assert Print(v, true) == "{" + Strings.Join(long, ",") + "}" && Print(v, false) == "{" + Strings.Join(short, ",") + "}";
  }

  lemma {:induction false} HtmlKeysLongerItems(items: seq<Value>)
    ensures Total(PrintItems(items, true)) >= Total(PrintItems(items, false))
    ensures var plain := forall i :: 0 <= i < |items| ==> PlainKeys(items[i]);
            && (!plain ==> Total(PrintItems(items, true)) > Total(PrintItems(items, false)))
            && (plain ==> PrintItems(items, true) == PrintItems(items, false))
    decreases items, 0
  {
    if items != [] {
      HtmlKeysLonger(items[0]);
      HtmlKeysLongerItems(items[1..]);
      assert forall i :: 1 <= i < |items| ==> items[i] == items[1..][i - 1];
    }
  }

  lemma {:induction false} HtmlKeysLongerFields(v: Value, keys: seq<string>)
    requires v.Object? && forall k :: k in keys ==> k in v.fields
    ensures Total(PrintFields(v, keys, true)) >= Total(PrintFields(v, keys, false))
    ensures var plain := forall k :: k in keys ==> HtmlFree(k) && PlainKeys(v.fields[k]);
            && (!plain ==> Total(PrintFields(v, keys, true)) > Total(PrintFields(v, keys, false)))
            && (plain ==> PrintFields(v, keys, true) == PrintFields(v, keys, false))
    decreases v, 0, keys, 0
  {
    if keys != [] {
      EscapeHtmlLonger(keys[0]);
      HtmlKeysLonger(v.fields[keys[0]]);
      HtmlKeysLongerFields(v, keys[1..]);
      assert keys == [keys[0]] + keys[1..];
    }
  }

  /** The compiler's key encoding and naturalJSON's agree exactly on values without <, >, & in keys. */
  lemma KeyEncodingsAgree(v: Value)
    ensures Print(v, false) == NaturalJson(v) <==> PlainKeys(v)
  {
    HtmlKeysLonger(v);
  }
}
