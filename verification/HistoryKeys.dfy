/**
 The keys of the operations that a history holds (internal/historyattribution/history.go:505-510 and
 history_parallel.go:256-273): no operation is recorded twice, whichever reader read it and however it ended.
 */
module HistoryKeys {
  import opened Wrappers
  import Sequences
  import opened TurnReader
  import opened HistoryReader
  import opened HistoryPipeline

  ghost predicate KeysDistinct(operations: seq<Operation>)
  {
    forall i, j :: 0 <= i < j < |operations| ==> operations[i].key != operations[j].key
  }

  /** Operations of the turn that are not among those in seen. */
  ghost predicate Own(head: Head, seen: set<Key>, operations: seq<Operation>)
  {
    forall i :: 0 <= i < |operations| ==>
      operations[i].key.thread == head.thread && operations[i].key.turn == head.turn && operations[i].key !in seen
  }

  ghost predicate KeysIn(operations: seq<Operation>, keys: set<Key>) { forall i :: 0 <= i < |operations| ==> operations[i].key in keys }

  lemma ConcatDistinct(a: seq<Operation>, b: seq<Operation>)
    requires KeysDistinct(a) && KeysDistinct(b) && forall i, j :: 0 <= i < |a| && 0 <= j < |b| ==> a[i].key != b[j].key
    ensures KeysDistinct(a + b)
  {
    var c := a + b;
    forall i, j | 0 <= i < j < |c| ensures c[i].key != c[j].key {
      assert c[i] == if i < |a| then a[i] else b[i - |a|];
      assert c[j] == if j < |a| then a[j] else b[j - |a|];
    }
  }

  // ---------------------------------------------------------------- one turn

  /** What a reading has collected of a turn, when it started with the operations in seen. */
  ghost predicate Collects(head: Head, seen: set<Key>, r: Reading)
  {
    seen <= r.seen && KeysDistinct(r.operations) && Own(head, seen, r.operations) && KeysIn(r.operations, r.seen)
  }

  lemma EditCollects(scope: Scope, head: Head, item: Id, index: nat, e: Edit, r: Reading, seen: set<Key>)
    requires Collects(head, seen, r)
    ensures Collects(head, seen, TakeEdit(scope, head, item, index, e, r))
  {
    var key := Key(head.thread, head.turn, item, index);
    if Selected(scope, e) && key !in r.seen {
      ConcatDistinct(r.operations, [OperationOf(head, item, r.order, index, e)]);
    }
  }

  lemma {:induction false} EditsCollect(scope: Scope, head: Head, item: Id, edits: seq<Edit>, n: nat, r: Reading, seen: set<Key>)
    requires n <= |edits| && Collects(head, seen, r)
    ensures Collects(head, seen, TakeEdits(scope, head, item, edits, n, r))
  {
    if n > 0 {
      EditsCollect(scope, head, item, edits, n - 1, r, seen);
      EditCollects(scope, head, item, n - 1, edits[n - 1], TakeEdits(scope, head, item, edits, n - 1, r), seen);
    }
  }

  lemma EntryCollects(scope: Scope, head: Head, e: Entry, r: Reading, seen: set<Key>)
    requires Collects(head, seen, r)
    ensures Collects(head, seen, TakeEntry(scope, head, e, r).0)
  {
    if e.id.Some? && e.content.FileChange? {
      EditsCollect(scope, head, e.id.value, e.content.edits, |e.content.edits|, Numbered(e, r), seen);
    }
  }

  lemma {:induction false} EntriesCollect(scope: Scope, head: Head, entries: seq<Entry>, n: nat, r: Reading, seen: set<Key>)
    requires n <= |entries| && Collects(head, seen, r)
    ensures Collects(head, seen, TakeEntries(scope, head, entries, n, r).0)
  {
    if n > 0 {
      EntriesCollect(scope, head, entries, n - 1, r, seen);
      EntryCollects(scope, head, entries[n - 1], TakeEntries(scope, head, entries, n - 1, r).0, seen);
    }
  }

  lemma {:induction false} RepliesCollect(scope: Scope, head: Head, script: seq<Reply>, n: nat, r: Reading, seen: set<Key>)
    requires n <= |script| && Collects(head, seen, r)
    ensures Collects(head, seen, TakeReplies(scope, head, script, n, r).reading)
  {
    if n > 0 {
      RepliesCollect(scope, head, script, n - 1, r, seen);
      var p := TakeReplies(scope, head, script, n - 1, r);
      if p.Going? && script[n - 1].Page? {
        EntriesCollect(scope, head, script[n - 1].entries, |script[n - 1].entries|, p.reading, seen);
      }
    }
  }

  /** A turn contributes operations of its own, each once and none that is held already; afterwards they are held. */
  lemma TurnKeys(scope: Scope, head: Head, script: seq<Reply>, seen: set<Key>)
    ensures var operations := Turn(scope, head, script, seen).operations;
            && KeysDistinct(operations) && Own(head, seen, operations) && KeysIn(operations, SeenAfter(scope, head, script, seen))
    ensures seen <= SeenAfter(scope, head, script, seen)
  {
    RepliesCollect(scope, head, script, |script|, Fresh(seen), seen);
  }

  // ---------------------------------------------------------------- the sequential reader

  ghost predicate ReaderKeys(r: Reader) { KeysDistinct(r.history.operations) && KeysIn(r.history.operations, r.seen) }

  lemma {:induction false} RemovalKeeps(operations: seq<Operation>, id: (Id, Id))
    ensures Sequences.Subsequence(WithoutOperations(operations, id), operations)
  {
    if operations != [] {
      var n := |operations| - 1;
      RemovalKeeps(operations[..n], id);
      var keep := (operations[n].key.thread, operations[n].key.turn) != id;
      Sequences.KeepOrDrop(WithoutOperations(operations[..n], id), operations[..n], operations[n], keep);
      assert operations == operations[..n] + [operations[n]];
    }
  }

  lemma {:induction false} SubsequenceMembers(a: seq<Operation>, b: seq<Operation>)
    requires Sequences.Subsequence(a, b)
    ensures forall i :: 0 <= i < |a| ==> a[i] in b
  {
    if a != [] {
      var n, m := |a| - 1, |b| - 1;
      if Sequences.Subsequence(a, b[..m]) {
        SubsequenceMembers(a, b[..m]);
      } else {
        SubsequenceMembers(a[..n], b[..m]);
        assert forall i :: 0 <= i < n ==> a[..n][i] == a[i];
      }
    }
  }

  lemma {:induction false} SubsequenceDistinct(a: seq<Operation>, b: seq<Operation>)
    requires Sequences.Subsequence(a, b) && KeysDistinct(b)
    ensures KeysDistinct(a)
  {
    if a != [] {
      var n, m := |a| - 1, |b| - 1;
      if Sequences.Subsequence(a, b[..m]) {
        SubsequenceDistinct(a, b[..m]);
      } else {
        SubsequenceDistinct(a[..n], b[..m]);
        SubsequenceMembers(a[..n], b[..m]);
        assert a == a[..n] + [b[m]] && b == b[..m] + [b[m]];
        LastIsNew(a[..n], b[..m], b[m]);
      }
    }
  }

  lemma LastIsNew(a: seq<Operation>, b: seq<Operation>, last: Operation)
    requires KeysDistinct(a) && KeysDistinct(b + [last]) && forall i :: 0 <= i < |a| ==> a[i] in b
    ensures KeysDistinct(a + [last])
  {
    forall i | 0 <= i < |a| ensures a[i].key != last.key {
      var j :| 0 <= j < |b| && b[j] == a[i];
      assert (b + [last])[j].key != (b + [last])[|b|].key;
    }
    ConcatDistinct(a, [last]);
  }

  lemma InvalidatedKeys(h: History, id: (Id, Id), seen: set<Key>)
    requires KeysDistinct(h.operations) && KeysIn(h.operations, seen)
    ensures KeysDistinct(Invalidated(h, id).operations) && KeysIn(Invalidated(h, id).operations, seen)
  {
    RemovalKeeps(h.operations, id);
    SubsequenceDistinct(WithoutOperations(h.operations, id), h.operations);
    SubsequenceMembers(WithoutOperations(h.operations, id), h.operations);
  }

  lemma VisitKeys(w: World, x: Listed, r: Reader)
    requires ReaderKeys(r)
    ensures ReaderKeys(Visit(w, x, r))
  {
    if x.Found? && x.head.startedAt <= w.until {
      if Identity(x.head) in r.known {
        InvalidatedKeys(r.history, Identity(x.head), r.seen);
      } else {
        var outcome := Turn(w.scope, x.head, w.script(x.head), r.seen);
        TurnKeys(w.scope, x.head, w.script(x.head), r.seen);
        ConcatDistinct(r.history.operations, outcome.operations);
      }
    }
  }

  lemma {:induction false} VisitedKeys(w: World, n: nat)
    requires n <= |w.listing|
    ensures ReaderKeys(Visited(w, n))
  {
    if n > 0 {
      VisitedKeys(w, n - 1);
      VisitKeys(w, w.listing[n - 1], Visited(w, n - 1));
    }
  }

  /** Whatever the world does, the sequential reader's history holds no operation twice. */
  lemma SequentialKeysDistinct(w: World)
    ensures KeysDistinct(Sequential(w).operations)
  {
    VisitedKeys(w, |w.listing|);
  }

  // ---------------------------------------------------------------- the concurrent reader

  /** The operation belongs to one of the first n turns. */
  ghost predicate OfJob(jobs: seq<Head>, n: nat, key: Key)
    requires n <= |jobs|
  {
    exists i :: 0 <= i < n && Identity(jobs[i]) == (key.thread, key.turn)
  }

  ghost predicate OfJobs(jobs: seq<Head>, n: nat, operations: seq<Operation>)
    requires n <= |jobs|
  {
    forall i :: 0 <= i < |operations| ==> OfJob(jobs, n, operations[i].key)
  }

  ghost predicate JobsApart(jobs: seq<Head>) { forall i, j :: 0 <= i < j < |jobs| ==> Identity(jobs[i]) != Identity(jobs[j]) }

  ghost predicate IdealDistinct(w: World, jobs: seq<Head>, n: nat)
    requires n <= |jobs|
  {
    var operations := Merged(NOTHING, Ideal(w, jobs), n).operations;
    KeysDistinct(operations) && OfJobs(jobs, n, operations)
  }

  /** Turns read apart share no operation, because no turn is listed twice. */
  lemma IdealKeys(w: World, jobs: seq<Head>, n: nat)
    requires n <= |jobs| && JobsApart(jobs)
    ensures IdealDistinct(w, jobs, n)
  {
    NothingIdeal(w, jobs);
    for k := 0 to n
      invariant IdealDistinct(w, jobs, k)
    {
      IdealStep(w, jobs, k);
    }
  }

  lemma NothingIdeal(w: World, jobs: seq<Head>)
    ensures IdealDistinct(w, jobs, 0)
  {
  }

  lemma IdealStep(w: World, jobs: seq<Head>, n: nat)
    requires n < |jobs| && JobsApart(jobs) && IdealDistinct(w, jobs, n)
    ensures IdealDistinct(w, jobs, n + 1)
  {
    TurnKeys(w.scope, jobs[n], w.script(jobs[n]), {});
    OperationsMore(w, jobs, n);
    OneTurnMore(jobs, n, Merged(NOTHING, Ideal(w, jobs), n).operations, Alone(w, jobs[n]).operations);
  }

  lemma OperationsMore(w: World, jobs: seq<Head>, n: nat)
    requires n < |jobs|
    ensures Merged(NOTHING, Ideal(w, jobs), n + 1).operations
         == Merged(NOTHING, Ideal(w, jobs), n).operations + Alone(w, jobs[n]).operations
  {
  }

  lemma OneTurnMore(jobs: seq<Head>, n: nat, before: seq<Operation>, turn: seq<Operation>)
    requires n < |jobs| && JobsApart(jobs)
    requires KeysDistinct(before) && OfJobs(jobs, n, before) && KeysDistinct(turn) && Own(jobs[n], {}, turn)
    ensures KeysDistinct(before + turn) && OfJobs(jobs, n + 1, before + turn)
  {
    forall i, j | 0 <= i < |before| && 0 <= j < |turn| ensures before[i].key != turn[j].key {
      assert OfJob(jobs, n, before[i].key);
      var k :| 0 <= k < n && Identity(jobs[k]) == (before[i].key.thread, before[i].key.turn);
    }
    ConcatDistinct(before, turn);
    forall i | 0 <= i < |before + turn| ensures OfJob(jobs, n + 1, (before + turn)[i].key) {
      if i < |before| {
        assert OfJob(jobs, n, before[i].key);
      } else {
        assert Identity(jobs[n]) == ((before + turn)[i].key.thread, (before + turn)[i].key.turn);
      }
    }
  }

  /** However its run goes, neither does the concurrent reader's. */
  lemma OutputKeysDistinct(c: Setup, run: seq<Step>)
    requires c.workers > 0 && Legal(c, run)
    ensures Reached(c, run).listed <= |c.world.listing|
    ensures KeysDistinct(Output(c, Reached(c, run)).operations)
  {
    var s := Reached(c, run);
    TroubleKeepsOrder(c, run);
    JobsAreDistinct(c.world, |c.world.listing|);
    assert JobsApart(Jobs(c));
    IdealKeys(c.world, Jobs(c), s.emitted);
    SubsequenceDistinct(Output(c, s).operations, Merged(NOTHING, Ideal(c.world, Jobs(c)), s.emitted).operations);
  }
}
