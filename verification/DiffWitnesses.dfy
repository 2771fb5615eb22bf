/**
 Three small diffs that only one of the two readers of DiffBlocks accepts (internal/historyattribution/model.go:222-235
 and internal/planning/grouping_input.go:135-154, 186-191).
 */
module DiffWitnesses {
  import opened Wrappers
  import NaturalOrder
  import opened DiffLines
  import opened DiffBlocks

  const SECTION := "diff --git a/f b/f"
  const HEADER := "@@ -1 +1 @@"

  lemma OneDigit(rest: string)
    requires rest != [] && !NaturalOrder.IsDigit(rest[0]) && rest[0] != ','
    ensures TakeCount("1" + rest) == Some((Implicit, rest))
  {
    var s := "1" + rest;
    assert s[0] == '1' && s[1..] == rest;
    assert NaturalOrder.RunLength(rest) == 0;
    assert NaturalOrder.RunLength(s) == 1;
  }

  /** A header whose rest after the first prefix is a one, the second prefix, another one and the end. */
  lemma UnitHeader(header: string, rest: string)
    requires "@@ -" <= header && header[4..] == "1" + rest
    requires " +" <= rest && rest[2..] == "1" + " @@"
    ensures HunkHeader(header) == Some((Implicit, Implicit))
  {
    OneDigit(rest);
    OneDigit(" @@");
  }

  lemma HeaderShape()
    ensures ShapeOf(HEADER) == Hunk(Implicit, Implicit)
  {
    assert HEADER[..4] == "@@ -" && HEADER[4..] == "1" + " +1 @@";
    assert " +1 @@"[..2] == " +" && " +1 @@"[2..] == "1" + " @@";
    UnitHeader(HEADER, " +1 @@");
  }

  lemma OtherShapes()
    ensures ShapeOf(SECTION) == Git && ShapeOf(MARKER) == Marker && ShapeOf("") == Blank
    ensures ShapeOf("-a").Removed? && ShapeOf("+b").Added?
  {
    assert "@@ -"[0] == '@';
    assert SECTION[0] == 'd' && MARKER[0] == '\\' && "-a"[0] == '-' && "+b"[0] == '+';
    assert GIT[0] == 'd' && |MARKER| > 2;
    assert GIT == SECTION[..|GIT|];
  }

  lemma Reads(shapes: seq<Shape>, n: nat)
    requires n < |shapes| && ReadTo(shapes, n).Ok?
    ensures ReadTo(shapes, n + 1) == Read(ReadTo(shapes, n).value, shapes[n])
  {
  }

  lemma Scans(shapes: seq<Shape>, n: nat)
    requires n < |shapes| && ScanTo(shapes, n).Ok?
    ensures ScanTo(shapes, n + 1) == ScanLine(ScanTo(shapes, n).value, shapes[n], n)
  {
  }

  ghost predicate AttributionOnly(shapes: seq<Shape>) { Blocks(shapes).Ok? && Ranges(shapes).Err? }

  ghost predicate GroupingOnly(shapes: seq<Shape>) { Ranges(shapes).Ok? && Blocks(shapes).Err? }

  predicate UnitHunk(shape: Shape) { shape == Hunk(Implicit, Implicit) }

  lemma {:induction false} Refused(shapes: seq<Shape>, n: nat, reason: Reason)
    requires n <= |shapes| && ScanTo(shapes, n) == Err(reason)
    ensures Ranges(shapes) == Err(reason)
    decreases |shapes| - n
  {
    if n < |shapes| {
      Refused(shapes, n + 1, reason);
    }
  }

  predicate HasBlankLine(shapes: seq<Shape>)
  {
    |shapes| == 5 && shapes[0].Git? && shapes[1].Blank? && UnitHunk(shapes[2]) && shapes[3].Removed? && shapes[4].Added?
  }

  predicate HasDoubledMarker(shapes: seq<Shape>)
  {
    |shapes| == 5 && UnitHunk(shapes[0]) && shapes[1].Removed? && shapes[2].Marker? && shapes[3].Marker? && shapes[4].Added?
  }

  predicate HasEmptySection(shapes: seq<Shape>)
  {
    |shapes| == 4 && UnitHunk(shapes[0]) && shapes[1].Removed? && shapes[2].Added? && shapes[3].Git?
  }

  /** A blank line between a file header and its hunk passes for attribution only. */
  lemma BlankLine(shapes: seq<Shape>)
    requires HasBlankLine(shapes)
    ensures AttributionOnly(shapes)
  {
    Reads(shapes, 0);
    Reads(shapes, 1);
    Reads(shapes, 2);
    Reads(shapes, 3);
    Reads(shapes, 4);
    Scans(shapes, 0);
    Scans(shapes, 1);
    Refused(shapes, 2, UnsupportedDiff);
  }

  /** So does a repeated marker of a missing newline. */
  lemma DoubledMarker(shapes: seq<Shape>)
    requires HasDoubledMarker(shapes)
    ensures AttributionOnly(shapes)
  {
    Reads(shapes, 0);
    Reads(shapes, 1);
    Reads(shapes, 2);
    Reads(shapes, 3);
    Reads(shapes, 4);
    Scans(shapes, 0);
    Scans(shapes, 1);
    Scans(shapes, 2);
    Scans(shapes, 3);
    Refused(shapes, 4, InvalidEof);
  }

  /** A last file section without a hunk passes for grouping only. */
  lemma LastSectionEmpty(shapes: seq<Shape>)
    requires HasEmptySection(shapes)
    ensures GroupingOnly(shapes)
  {
    Reads(shapes, 0);
    Reads(shapes, 1);
    Reads(shapes, 2);
    Reads(shapes, 3);
    Scans(shapes, 0);
    Scans(shapes, 1);
    Scans(shapes, 2);
    Scans(shapes, 3);
  }

  /** The lines of the witnesses, by what they are. */
  ghost predicate Spelled(section: string, header: string, removed: string, added: string, marker: string)
  {
    && ShapeOf(section).Git? && UnitHunk(ShapeOf(header)) && ShapeOf("").Blank? && ShapeOf(marker).Marker?
    && ShapeOf(removed).Removed? && ShapeOf(added).Added?
  }

  lemma BlankLineText(section: string, header: string, removed: string, added: string, marker: string)
    requires Spelled(section, header, removed, added, marker)
    ensures HasBlankLine(Shapes([section, "", header, removed, added]))
  {
    var lines := [section, "", header, removed, added];
    assert lines[0] == section;
    assert lines[1] == "";
    assert lines[2] == header;
    assert lines[3] == removed;
    assert lines[4] == added;
  }

  lemma DoubledMarkerText(section: string, header: string, removed: string, added: string, marker: string)
    requires Spelled(section, header, removed, added, marker)
    ensures HasDoubledMarker(Shapes([header, removed, marker, marker, added]))
  {
    var lines := [header, removed, marker, marker, added];
    assert lines[0] == header;
    assert lines[1] == removed;
    assert lines[2] == marker;
    assert lines[3] == marker;
    assert lines[4] == added;
  }

  lemma EmptySectionText(section: string, header: string, removed: string, added: string, marker: string)
    requires Spelled(section, header, removed, added, marker)
    ensures HasEmptySection(Shapes([header, removed, added, section]))
  {
    var lines := [header, removed, added, section];
    assert lines[0] == header;
    assert lines[1] == removed;
    assert lines[2] == added;
    assert lines[3] == section;
  }

  /** The three disagreements on the lines of actual diffs. */
  lemma ReadersDisagree()
    ensures AttributionOnly(Shapes([SECTION, "", HEADER, "-a", "+b"]))
    ensures AttributionOnly(Shapes([HEADER, "-a", MARKER, MARKER, "+b"]))
    ensures GroupingOnly(Shapes([HEADER, "-a", "+b", SECTION]))
  {
    HeaderShape();
    OtherShapes();
    BlankLineText(SECTION, HEADER, "-a", "+b", MARKER);
    DoubledMarkerText(SECTION, HEADER, "-a", "+b", MARKER);
    EmptySectionText(SECTION, HEADER, "-a", "+b", MARKER);
    BlankLine(Shapes([SECTION, "", HEADER, "-a", "+b"]));
    DoubledMarker(Shapes([HEADER, "-a", MARKER, MARKER, "+b"]));
    LastSectionEmpty(Shapes([HEADER, "-a", "+b", SECTION]));
  }
}
