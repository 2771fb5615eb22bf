/**
 The lines of a unified diff ("Diff -u or -U Output Format" of the diff utility, POSIX.1-2017) as the
 readers of the repository tell them apart (internal/historyattribution/model.go:153, 207-230;
 internal/planning/grouping_input.go:92, 123-148; tools/benchmark184/structured_diff.py:7-29).
 */
module DiffLines {
  import opened Wrappers
  import NaturalOrder

  /** A line count in a hunk header; without one it is 1. */
  datatype Count = Implicit | Stated(value: nat)

  /** What a line means between hunks: a mode or rename line, another header line, or nothing allowed. */
  datatype Outside = Mode | Header | Refused

  datatype Shape =
    | Git                                     // starts a file section
    | Hunk(before: Count, after: Count)
    | Marker                                  // no newline at end of file
    | Blank
    | Context
    | Removed(text: string, outside: Outside)
    | Added(text: string, outside: Outside)
    | Other(outside: Outside)

  const GIT := "diff --git "
  const MARKER := "\\ No newline at end of file"

  /** digits, and optionally a comma and more digits */
  function TakeCount(s: string): Option<(Count, string)>
  {
    var n := NaturalOrder.RunLength(s);
    var rest := s[n..];
    if n == 0 then None
    else if |rest| > 0 && rest[0] == ',' && NaturalOrder.RunLength(rest[1..]) > 0 then
      var m := NaturalOrder.RunLength(rest[1..]);
      Some((Stated(NaturalOrder.Value(rest[1..][..m])), rest[1..][m..]))
    else Some((Implicit, rest))
  }

  function HunkHeader(s: string): Option<(Count, Count)>
  {
    if !("@@ -" <= s) then None
    else match TakeCount(s[4..])
      case None => None
      case Some((before, rest)) =>
        if !(" +" <= rest) then None
        else match TakeCount(rest[2..])
          case None => None
          case Some((after, rest)) => if " @@" <= rest then Some((before, after)) else None
  }

  function OutsideOf(s: string): Outside
  {
    if "old mode " <= s || "new mode " <= s || "new file mode " <= s || "deleted file mode " <= s
       || "rename from " <= s || "rename to " <= s then Mode
    else if "index " <= s || "--- " <= s || "+++ " <= s || "similarity index " <= s then Header
    else Refused
  }

  function ShapeOf(s: string): Shape
  {
    var header := HunkHeader(s);
    if header.Some? then Hunk(header.value.0, header.value.1)
    else if GIT <= s then Git
    else if s == MARKER then Marker
    else if |s| == 0 then Blank
    else if s[0] == ' ' then Context
    else if s[0] == '-' then Removed(s[1..], OutsideOf(s))
    else if s[0] == '+' then Added(s[1..], OutsideOf(s))
    else Other(OutsideOf(s))
  }

  function Shapes(lines: seq<string>): seq<Shape> { seq(|lines|, i requires 0 <= i < |lines| => ShapeOf(lines[i])) }

  /** What the projection for display asks about a line, in its order. */
  datatype View = At | Section | Notice | Change | Plain | Unsupported

  function ViewOf(s: string): View
  {
    if "@@ " <= s then At
    else if GIT <= s then Section
    else if MARKER <= s then Notice
    else if "+" <= s || "-" <= s then Change
    else if " " <= s then Plain
    else Unsupported
  }

  function Expected(shape: Shape): View
  {
    match shape
    case Hunk(_, _) => At
    case Git => Section
    case Marker => Notice
    case Removed(_, _) => Change
    case Added(_, _) => Change
    case Context => Plain
    case Blank => Unsupported
    case Other(_) => Unsupported
  }

  /** Both classifications agree, except on lines that a parser of hunks refuses anyway. */
  lemma ViewsAgree(s: string)
    requires !ShapeOf(s).Other?
    ensures ViewOf(s) == Expected(ShapeOf(s))
    ensures ShapeOf(s).Removed? ==> s[0] == '-' && ShapeOf(s).text == s[1..]
    ensures ShapeOf(s).Added? ==> s[0] == '+' && ShapeOf(s).text == s[1..]
  {
    FirstLetters(s);
  }

  /** A header line that the parsers skip between hunks does not look like a hunk or a file section. */
  lemma SkippedLines(s: string)
    requires ShapeOf(s).Other? && OutsideOf(s) != Refused
    ensures ViewOf(s) != At && ViewOf(s) != Section
  {
    FirstLetters(s);
    assert OutsideOf(s) != Refused ==> |s| > 0 && s[0] != '@';
  }

  lemma FirstLetters(s: string)
    ensures "@@ " <= s ==> |s| > 0 && s[0] == '@'
    ensures GIT <= s ==> |s| > 0 && s[0] == 'd'
    ensures MARKER <= s ==> |s| > 0 && s[0] == '\\'
    ensures "+" <= s <==> |s| > 0 && s[0] == '+'
    ensures "-" <= s <==> |s| > 0 && s[0] == '-'
    ensures " " <= s <==> |s| > 0 && s[0] == ' '
    ensures HunkHeader(s).Some? ==> "@@ " <= s
  {
    assert "@@ " == "@@ -"[..3];
  }

  /** Lines split at line feeds, without the empty piece after a final one. */
  function Pieces(s: string): (r: seq<string>)
    ensures |r| > 0
  {
    if |s| == 0 then [""]
    else if s[0] == '\n' then [""] + Pieces(s[1..])
    else var rest := Pieces(s[1..]); [[s[0]] + rest[0]] + rest[1..]
  }

  function Terminated(diff: string): bool { |diff| > 0 && diff[|diff| - 1] == '\n' }

  function Lines(diff: string): seq<string> { Pieces(if Terminated(diff) then diff[..|diff| - 1] else diff) }
}
