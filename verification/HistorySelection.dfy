/**
 Which record an index of a selection stands for (internal/planning/attributed_history_input.go:41-46, 111-127):
 with k context records, index i is the context record i and index k + i the command record i. A record is
 shown exactly when the last context record with its reference is selected, and a command only if it is
 selected itself.
 */
module HistorySelection {
  import opened Json
  import opened DisplayTemplate
  import opened DisplayCompiler
  import opened HistoryDocument
  import opened HistoryCompleteness
  import Sequences

  // ---------------------------------------------------------------- references in a document

  /** The record's reference is the text ref. */
  predicate Refers(n: Vocabulary, record: Value, ref: string)
  {
    record.Object? && n.contextRef in record.fields && record.fields[n.contextRef] == String(ref)
  }

  /** Position q holds the last context record with the reference. */
  ghost predicate LastWith(n: Vocabulary, contexts: seq<Value>, ref: string, q: nat)
  {
    q < |contexts| && Refers(n, contexts[q], ref) && forall j :: q < j < |contexts| ==> !Refers(n, contexts[j], ref)
  }

  /** The context record that the record belongs to is selected. */
  ghost predicate ContextSelected(n: Vocabulary, contexts: seq<Value>, record: Value, selected: set<nat>)
  {
    exists ref, q :: LastWith(n, contexts, ref, q) && Refers(n, record, ref) && q in selected
  }

  lemma RefersTo(c: Compiler, record: Value, ref: string)
    requires |ref| > 0
    ensures RefOf(c, record) == ref <==> Refers(c.names, record, ref)
  {
  }

  /** The compiler numbers every reference by its last context record. */
  lemma {:induction false} PositionIsLast(c: Compiler, contexts: seq<Value>, ref: string, q: nat)
    requires |ref| > 0
    ensures ref in ContextPositions(c, contexts) && ContextPositions(c, contexts)[ref] == q <==> LastWith(c.names, contexts, ref, q)
  {
    if contexts != [] {
      var m := |contexts| - 1;
      PositionIsLast(c, contexts[..m], ref, q);
      RefersTo(c, contexts[m], ref);
      if LastWith(c.names, contexts, ref, q) && q < m {
        assert forall j :: q < j < m ==> contexts[..m][j] == contexts[j];
        assert LastWith(c.names, contexts[..m], ref, q);
      }
      if LastWith(c.names, contexts[..m], ref, q) && !Refers(c.names, contexts[m], ref) {
        assert forall j :: q < j < m ==> contexts[..m][j] == contexts[j];
      }
    }
  }

  lemma KnownReference(n: Vocabulary, shared: Value, phase: Value, record: Value, selected: set<nat>)
    requires AllReferenced(n, RecordsUnder(shared, n.contexts))
    ensures var c := DocumentCompiler(n, shared, phase);
            RefOf(c, record) in c.contexts && c.contexts[RefOf(c, record)] in selected
            <==> ContextSelected(n, RecordsUnder(shared, n.contexts), record, selected)
  {
    var c, contexts := DocumentCompiler(n, shared, phase), RecordsUnder(shared, n.contexts);
    var ref := RefOf(c, record);
    PositionsKnown(NamesOnly(n), contexts, "");
    if ref in c.contexts && c.contexts[ref] in selected {
      PositionIsLast(NamesOnly(n), contexts, ref, c.contexts[ref]);
      RefersTo(c, record, ref);
    }
    if r: string, q: nat :| LastWith(n, contexts, r, q) && Refers(n, record, r) && q in selected {
      assert HasReference(n, contexts[q]);
      PositionIsLast(NamesOnly(n), contexts, r, q);
    }
  }

  // ---------------------------------------------------------------- the records a list shows

  /** No object anywhere in v has a field that a selection may change. */
  ghost predicate Untouched(n: Vocabulary, v: Value)
  {
    match v
    case Array(items) => forall i :: 0 <= i < |items| ==> Untouched(n, items[i])
    case Object(fields) =>
      && n.contexts !in fields && n.candidates !in fields && n.commands !in fields && n.projection !in fields
      && forall k :: k in fields ==> Untouched(n, fields[k])
    case _ => true
  }

  lemma {:induction false} UntouchedIsComplete(c: Compiler, v: Value, selected: set<nat>)
    requires Untouched(c.names, v)
    ensures Complete(c, v, selected)
  {
    match v
    case Array(items) =>
      forall i | 0 <= i < |items| ensures Complete(c, items[i], selected) {
        UntouchedIsComplete(c, items[i], selected);
      }
    case Object(fields) =>
      forall k | k in fields ensures Complete(c, fields[k], selected) {
        UntouchedIsComplete(c, fields[k], selected);
      }
    case _ =>
  }

  /** What is shown of a record: its projection, which for a record without such fields is the record itself. */
  ghost predicate ShownAs(c: Compiler, record: Value, selected: set<nat>, shown: Value)
  {
    shown == Project(c, record, selected) && (Untouched(c.names, record) ==> shown == record)
  }

  lemma RecordShown(c: Compiler, record: Value, selected: set<nat>)
    ensures ShownAs(c, record, selected, Project(c, record, selected))
  {
    if Untouched(c.names, record) {
      UntouchedIsComplete(c, record, selected);
      CompleteSelectionChangesNothing(c, record, selected);
    }
  }

  /** What is shown of a list: the records at the given positions, in order. */
  ghost predicate ShownAt(c: Compiler, records: seq<Value>, selected: set<nat>, positions: seq<int>, shown: seq<Value>)
  {
    && Sequences.Increasing(positions, |records|) && |shown| == |positions|
    && forall t :: 0 <= t < |positions| ==> ShownAs(c, records[positions[t]], selected, shown[t])
  }

  /** Record number i of list key is selected, in terms of the two messages. */
  ghost predicate RecordSelected(n: Vocabulary, shared: Value, key: string, records: seq<Value>, i: int, selected: set<nat>)
    requires 0 <= i < |records|
  {
    var contexts := RecordsUnder(shared, n.contexts);
    ContextSelected(n, contexts, records[i], selected) && (key == n.commands ==> |contexts| + i in selected)
  }

  /** A list shows exactly its selected records. */
  ghost predicate ShowsSelected(n: Vocabulary, shared: Value, phase: Value, key: string, records: seq<Value>, selected: set<nat>, shown: seq<Value>)
  {
    exists positions {:trigger ShownAt(DocumentCompiler(n, shared, phase), records, selected, positions, shown)} ::
      && ShownAt(DocumentCompiler(n, shared, phase), records, selected, positions, shown)
      && forall i :: 0 <= i < |records| ==> (i in positions <==> RecordSelected(n, shared, key, records, i, selected))
  }

  /** The positions kept among the first m. */
  ghost function KeptPositions(c: Compiler, key: string, records: seq<Value>, selected: set<nat>, m: nat): (positions: seq<int>)
    requires m <= |records|
    ensures Sequences.Increasing(positions, m)
    ensures forall i :: i in positions <==> 0 <= i < m && Kept(c, key, records[i], i, selected)
  {
    if m == 0 then [] else KeptPositions(c, key, records, selected, m - 1) + if Kept(c, key, records[m - 1], m - 1, selected) then [m - 1] else []
  }

  lemma {:induction false} RecordsSnoc(c: Compiler, key: string, records: seq<Value>, position: nat, selected: set<nat>, m: nat)
    requires m < |records|
    ensures ProjectRecords(c, key, records[..m + 1], position, selected)
         == ProjectRecords(c, key, records[..m], position, selected)
            + if Kept(c, key, records[m], position + m, selected) then [Project(c, records[m], selected)] else []
  {
    Sequences.TailOfTake(records, m);
    if m == 0 {
      assert records[..1][1..] == [];
    } else {
      RecordsSnoc(c, key, records[1..], position + 1, selected, m - 1);
      assert records[1..][..m - 1 + 1] == records[1..][..m];
      Sequences.TailOfTake(records, m - 1);
      assert records[..m][0] == records[0] == records[..m + 1][0];
    }
  }

  lemma {:induction false} ListShownAt(c: Compiler, key: string, records: seq<Value>, selected: set<nat>, m: nat)
    requires m <= |records|
    ensures ShownAt(c, records[..m], selected, KeptPositions(c, key, records, selected, m), ProjectRecords(c, key, records[..m], 0, selected))
  {
    if m > 0 {
      ListShownAt(c, key, records, selected, m - 1);
      RecordsSnoc(c, key, records, 0, selected, m - 1);
      ShownMore(c, records, selected, m - 1, KeptPositions(c, key, records, selected, m - 1),
                ProjectRecords(c, key, records[..m - 1], 0, selected), Kept(c, key, records[m - 1], m - 1, selected));
    }
  }

  lemma ShownMore(c: Compiler, records: seq<Value>, selected: set<nat>, m: nat, positions: seq<int>, shown: seq<Value>, kept: bool)
    requires m < |records| && ShownAt(c, records[..m], selected, positions, shown)
    ensures ShownAt(c, records[..m + 1], selected, positions + (if kept then [m] else []),
                    shown + if kept then [Project(c, records[m], selected)] else [])
  {
    Sequences.IncreasingStep(positions, m);
    RecordShown(c, records[m], selected);
    assert positions + [] == positions && shown + [] == shown;
    assert forall i :: 0 <= i < m ==> records[..m][i] == records[..m + 1][i];
  }

  lemma KeptIsSelected(n: Vocabulary, shared: Value, phase: Value, key: string, records: seq<Value>, i: nat, selected: set<nat>)
    requires AllReferenced(n, RecordsUnder(shared, n.contexts)) && i < |records|
    ensures Kept(DocumentCompiler(n, shared, phase), key, records[i], i, selected) <==> RecordSelected(n, shared, key, records, i, selected)
  {
    var c := DocumentCompiler(n, shared, phase);
    KnownReference(n, shared, phase, records[i], selected);
    if RefOf(c, records[i]) in c.contexts {
      var indices := Requires(c, key, records[i], i);
      assert indices[0] == c.contexts[RefOf(c, records[i])];
      assert key == n.commands ==> indices[1] == |RecordsUnder(shared, n.contexts)| + i;
    }
  }

  lemma ShownUnder(c: Compiler, v: Value, key: string, selected: set<nat>)
    requires FieldNamesDistinct(c.names) && IsRecordList(c, key)
    ensures RecordsUnder(Project(c, v, selected), key) == ProjectRecords(c, key, RecordsUnder(v, key), 0, selected)
  {
    if v.Object? && key in v.fields {
      assert Project(c, v, selected).fields[key] == ProjectField(c, v, key, selected);
    }
  }

  /** Any record list, of any object in either message, shows exactly its selected records. */
  lemma ListShowsSelected(n: Vocabulary, shared: Value, phase: Value, v: Value, key: string, selected: set<nat>)
    requires FieldNamesDistinct(n) && AllReferenced(n, RecordsUnder(shared, n.contexts))
    requires key == n.contexts || key == n.candidates || key == n.commands
    ensures var c := DocumentCompiler(n, shared, phase);
            ShowsSelected(n, shared, phase, key, RecordsUnder(v, key), selected, RecordsUnder(Project(c, v, selected), key))
  {
    var c, records := DocumentCompiler(n, shared, phase), RecordsUnder(v, key);
    ShownUnder(c, v, key, selected);
    ListShownAt(c, key, records, selected, |records|);
    assert records[..|records|] == records;
    var positions := KeptPositions(c, key, records, selected, |records|);
    forall i | 0 <= i < |records| ensures i in positions <==> RecordSelected(n, shared, key, records, i, selected) {
      KeptIsSelected(n, shared, phase, key, records, i, selected);
    }
    assert ShownAt(c, records, selected, positions, RecordsUnder(Project(c, v, selected), key));
  }

  /** The size at an index is that of the record it stands for, and no index is left over. */
  lemma IndexIsRecord(n: Vocabulary, shared: Value, phase: Value)
    ensures var contexts, commands := RecordsUnder(shared, n.contexts), RecordsUnder(phase, n.commands);
            var counts := ByteCounts(contexts) + ByteCounts(commands);
            Sizes(contexts, commands, counts) && DocumentCompiler(n, shared, phase).count == |counts|
  {
    CountsAreSizes(RecordsUnder(shared, n.contexts), RecordsUnder(phase, n.commands));
  }

  /**
   What a selection means for the two messages of a request: the shared message as rendered lists exactly
   the selected context records, and the phase message the selected commands.
   */
  lemma SelectionShows(n: Vocabulary, shared: Value, phase: Value, selected: set<nat>)
    requires FieldNamesDistinct(n) && AllReferenced(n, RecordsUnder(shared, n.contexts))
    ensures var c := DocumentCompiler(n, shared, phase);
            var s, p := Project(c, shared, selected), Project(c, phase, selected);
            && Render(Compile(c, shared), selected) == Print(s, false) && Render(Compile(c, phase), selected) == Print(p, false)
            && ShowsSelected(n, shared, phase, n.contexts, RecordsUnder(shared, n.contexts), selected, RecordsUnder(s, n.contexts))
            && ShowsSelected(n, shared, phase, n.commands, RecordsUnder(phase, n.commands), selected, RecordsUnder(p, n.commands))
  {
    var c := DocumentCompiler(n, shared, phase);
    RenderOfCompile(c, shared, selected);
    RenderOfCompile(c, phase, selected);
    ListShowsSelected(n, shared, phase, shared, n.contexts, selected);
    ListShowsSelected(n, shared, phase, phase, n.commands, selected);
  }
}
