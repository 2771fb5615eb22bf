/**
 What the two history readers call their results (internal/historyattribution/history.go:272-290, 409-413 and
 history_parallel.go:286-298): on the same world they return the same history, but when every turn
 lost all its evidence one calls it partial and the other unavailable.
 */
module HistoryStatus {
  import opened Wrappers
  import opened TurnReader
  import opened HistoryReader
  import opened HistoryPipeline
  import MemoryGuard

  datatype Status = Complete | Partial | Unavailable

  /** The sequential reader reports omitted evidence as partial even when no turn was kept. */
  function SequentialStatus(h: History): Status
  {
    if h.error.None? then Complete
    else if h.records == [] && h.error != Some(SensitiveOmitted) then Unavailable
    else Partial
  }

  /** The concurrent reader calls a result without turns unavailable whatever the error. */
  function ParallelStatus(h: History): Status
  {
    if h.error.None? then Complete else if h.records == [] then Unavailable else Partial
  }

  // ---------------------------------------------------------------- the exact difference

  ghost predicate Keeps(w: World, h: Head) { |Alone(w, h).records| > 0 }

  ghost predicate Drops(w: World, h: Head) { Alone(w, h).dropped > 0 }

  ghost predicate SomeDrops(w: World, jobs: seq<Head>, n: nat)
    requires n <= |jobs|
  {
    exists i :: 0 <= i < n && Drops(w, jobs[i])
  }

  ghost predicate NoneKeeps(w: World, jobs: seq<Head>, n: nat)
    requires n <= |jobs|
  {
    forall i :: 0 <= i < n ==> !Keeps(w, jobs[i])
  }

  /** Some turn of the listing has evidence that was dropped, and none has evidence that was kept. */
  ghost predicate AllDropped(w: World)
  {
    var jobs := Listing(w).jobs;
    SomeDrops(w, jobs, |jobs|) && NoneKeeps(w, jobs, |jobs|)
  }

  /** What the merge of the first n turns says about evidence kept and dropped. */
  ghost predicate EvidenceKnown(w: World, jobs: seq<Head>, start: History, n: nat)
    requires n <= |jobs|
  {
    var h := Merged(start, Ideal(w, jobs), n);
    (|h.records| == 0 <==> NoneKeeps(w, jobs, n)) && (h.dropped > 0 <==> SomeDrops(w, jobs, n))
  }

  lemma MergeStep(w: World, jobs: seq<Head>, start: History, n: nat)
    requires n < |jobs|
    ensures var before, after := Merged(start, Ideal(w, jobs), n), Merged(start, Ideal(w, jobs), n + 1);
            && (|after.records| > 0 <==> |before.records| > 0 || Keeps(w, jobs[n]))
            && (after.dropped > 0 <==> before.dropped > 0 || Drops(w, jobs[n]))
  {
    var before, after := Merged(start, Ideal(w, jobs), n), Merged(start, Ideal(w, jobs), n + 1);
    assert after == Add(before, Alone(w, jobs[n]));
  }

  lemma NoEvidence(w: World, jobs: seq<Head>, start: History)
    requires |start.records| == 0 && start.dropped == 0
    ensures EvidenceKnown(w, jobs, start, 0)
  {
  }

  lemma EvidenceStep(w: World, jobs: seq<Head>, start: History, n: nat)
    requires n < |jobs| && EvidenceKnown(w, jobs, start, n)
    ensures EvidenceKnown(w, jobs, start, n + 1)
  {
    MergeStep(w, jobs, start, n);
    OneMore(w, jobs, n);
  }

  lemma MergedEvidence(w: World, jobs: seq<Head>, start: History, n: nat)
    requires n <= |jobs| && |start.records| == 0 && start.dropped == 0
    ensures EvidenceKnown(w, jobs, start, n)
  {
    NoEvidence(w, jobs, start);
    for k := 0 to n
      invariant EvidenceKnown(w, jobs, start, k)
    {
      EvidenceStep(w, jobs, start, k);
    }
  }

  lemma OneMore(w: World, jobs: seq<Head>, n: nat)
    requires n < |jobs|
    ensures NoneKeeps(w, jobs, n + 1) <==> NoneKeeps(w, jobs, n) && !Keeps(w, jobs[n])
    ensures SomeDrops(w, jobs, n + 1) <==> SomeDrops(w, jobs, n) || Drops(w, jobs[n])
  {
  }

  /**
   On a world that can be listed and read, every run that ends without trouble has the status of the
   sequential reader, unless all the evidence there was had to be dropped: then the sequential reader
   says partial and the concurrent one unavailable.
   */
  lemma StatusesAgree(c: Setup, run: seq<Step>)
    requires c.workers > 0 && Legal(c, run) && Done(Reached(c, run)) && Trouble(Reached(c, run)).None?
    ensures Reached(c, run).listed <= |c.world.listing|
    ensures var sequential, parallel := SequentialStatus(Sequential(c.world)), ParallelStatus(Output(c, Reached(c, run)));
            && (sequential == parallel <==> !AllDropped(c.world))
            && (AllDropped(c.world) ==> sequential == Partial && parallel == Unavailable)
  {
    var w, jobs := c.world, Listing(c.world).jobs;
    Confluence(c, run);
    RunKeepsInvariant(c, run);
    CleanEnd(c, Reached(c, run));
    SequentialIsMerge(w);
    MergedEvidence(w, jobs, Heading(Listing(w)), |jobs|);
    MergedCounts(Heading(Listing(w)), Ideal(w, jobs), |jobs|);
  }

  // ---------------------------------------------------------------- a world on which they differ

  lemma Extend(c: Setup, run: seq<Step>, step: Step)
    requires Legal(c, run) && Enabled(c, Reached(c, run), step)
    ensures Legal(c, run + [step]) && Reached(c, run + [step]) == Next(c, Reached(c, run), step)
  {
    var more := run + [step];
    assert more[..|more| - 1] == run && more[|more| - 1] == step;
  }

  /** One worker reads the only turn there is. */
  lemma OneTurnRun(c: Setup) returns (run: seq<Step>)
    requires c.workers == 1 && Listing(c.world).error.None? && |Listing(c.world).jobs| == 1
    requires Alone(c.world, Listing(c.world).jobs[0]).error.None?
    ensures Legal(c, run) && Done(Reached(c, run)) && Trouble(Reached(c, run)).None?
  {
    var handed := HandOver(c);
    Extend(c, handed, Acquire(0));
    var admitted := handed + [Acquire(0)];
    Extend(c, admitted, Read(0, Alone(c.world, Listing(c.world).jobs[0])));
    run := ReadAndGo(c, admitted + [Read(0, Alone(c.world, Listing(c.world).jobs[0]))]);
  }

  /** The worker gives its permit back and leaves, as nothing is queued any more. */
  lemma ReadAndGo(c: Setup, before: seq<Step>) returns (run: seq<Step>)
    requires Legal(c, before)
    requires var s := Reached(c, before);
             && s.workers == [Recorded(0, None)] && s.queue == [] && s.closed && !s.cancelled && s.listError.None? && s.firstError.None?
             && s.guard.failure.None?
    ensures Legal(c, run) && Done(Reached(c, run)) && Trouble(Reached(c, run)).None?
  {
    Extend(c, before, Release(0));
    run := before + [Release(0)];
    Extend(c, run, Leave(0));
    run := run + [Leave(0)];
  }

  /** The turn is enqueued, the listing ends and the worker takes the turn. */
  lemma HandOver(c: Setup) returns (run: seq<Step>)
    requires c.workers == 1 && Listing(c.world).error.None? && |Listing(c.world).jobs| == 1
    ensures Legal(c, run)
    ensures var s := Reached(c, run);
            && s.workers == [Holding(0)] && s.queue == [] && s.closed && !s.cancelled && s.listError.None? && s.firstError.None?
            && s.guard == MemoryGuard.Start(1)
  {
    run := [];
    Extend(c, run, Emit);
    run := run + [Emit];
    Extend(c, run, Finish);
    run := run + [Finish];
    Extend(c, run, Receive(0));
    run := run + [Receive(0)];
  }

  /** A conversation of one turn with one completed edit of a selected file, whose diff may not be kept. */
  function RefusedEdit(head: Head, item: Id, path: Path, name: Text, diff: Text): World
  {
    World(RefusingScope(path, diff), head.startedAt, [Found(head)], _ => [RefusedPage(head, item, path, name, diff)])
  }

  function RefusingScope(path: Path, diff: Text): Scope { Scope({path}, text => text != diff, _ => true) }

  function RefusedPage(head: Head, item: Id, path: Path, name: Text, diff: Text): Reply
  {
    Page([Entry(head.turn, Some(item), FileChange(true, [Edit(Some(path), None, OtherKind(name), Some(diff))]))], None)
  }

  lemma RefusedEditIsDropped(head: Head, item: Id, path: Path, name: Text, diff: Text)
    ensures var o := Alone(RefusedEdit(head, item, path, name, diff), head);
            o.error.None? && |o.records| == 0 && o.dropped == 1
  {
    var scope, page := RefusingScope(path, diff), RefusedPage(head, item, path, name, diff);
    RefusedEntry(head, item, path, name, diff);
    var taken := TakeEntry(scope, head, page.entries[0], Fresh({})).0;
    assert TakeEntries(scope, head, page.entries, 0, Fresh({})) == (Fresh({}), None);
    assert TakeEntries(scope, head, page.entries, 1, Fresh({})) == (taken, None);
    assert TakeReplies(scope, head, [page], 0, Fresh({})) == Going(Fresh({}), {});
    assert TakeReplies(scope, head, [page], 1, Fresh({})) == Ended(taken);
  }

  lemma RefusedEntry(head: Head, item: Id, path: Path, name: Text, diff: Text)
    ensures var (r, error) := TakeEntry(RefusingScope(path, diff), head, RefusedPage(head, item, path, name, diff).entries[0], Fresh({}));
            error.None? && r.operations == [] && r.commands == [] && r.dropped == 1
  {
    var scope, entry := RefusingScope(path, diff), RefusedPage(head, item, path, name, diff).entries[0];
    var edits, r := entry.content.edits, Numbered(entry, Fresh({}));
    assert TakeEdits(scope, head, item, edits, 0, r) == r;
    assert TakeEdits(scope, head, item, edits, 1, r) == TakeEdit(scope, head, item, 0, edits[0], r);
  }

  lemma OneListed(w: World, head: Head)
    requires w.listing == [Found(head)] && head.startedAt <= w.until
    ensures Listing(w).jobs == [head] && Listing(w).error.None?
  {
    assert Enumerated(w, 1) == Enlist(w, Found(head), Enumerated(w, 0));
  }

  /** On that world, whatever its names and texts, the two readers do disagree. */
  lemma StatusesDiffer(head: Head, item: Id, path: Path, name: Text, diff: Text, pipeline: bool) returns (run: seq<Step>)
    ensures var c := Setup(RefusedEdit(head, item, path, name, diff), pipeline, 1);
            && Legal(c, run) && Done(Reached(c, run)) && Trouble(Reached(c, run)).None? && Reached(c, run).listed == 1
            && SequentialStatus(Sequential(c.world)) == Partial && ParallelStatus(Output(c, Reached(c, run))) == Unavailable
  {
    var c := Setup(RefusedEdit(head, item, path, name, diff), pipeline, 1);
    OneListed(c.world, head);
    RefusedEditIsDropped(head, item, path, name, diff);
    run := OneTurnRun(c);
    assert Drops(c.world, Listing(c.world).jobs[0]) && !Keeps(c.world, Listing(c.world).jobs[0]);
    assert AllDropped(c.world);
    RunKeepsInvariant(c, run);
    CleanEnd(c, Reached(c, run));
    assert Reached(c, run).listed == 1;
    StatusesAgree(c, run);
  }
}
