/**
 The history reader over all listed turns (internal/historyattribution/history.go:298-413): the
 sequential reader, the listing alone, and the merge of turns that were read one by one.
 */
module HistoryReader {
  import opened Wrappers
  import opened TurnReader
  import Sorting

  /** What listing threads and their turns delivers, in order: turns, or the failure that ends it. */
  datatype Listed = Found(head: Head) | Failed(error: Error)

  /** Everything outside the reader: the listing, and the server's replies for each turn. */
  datatype World = World(scope: Scope, until: int, listing: seq<Listed>, script: Head -> seq<Reply>)

  datatype History = History(operations: seq<Operation>, records: seq<Record>, turnsScanned: nat, itemsScanned: nat,
                             dropped: nat, duplicateItems: nat, duplicateTurns: nat, error: Option<Error>)

  const NOTHING := History([], [], 0, 0, 0, 0, 0, None)

  function Identity(h: Head): (Id, Id) { (h.thread, h.turn) }

  // ---------------------------------------------------------------- the listing

  datatype Enumeration = Enumeration(jobs: seq<Head>, known: map<(Id, Id), Head>, duplicates: nat, error: Option<Error>)

  function Enlist(w: World, x: Listed, e: Enumeration): Enumeration
  {
    match x
    case Failed(error) => e.(error := Some(error))
    case Found(h) =>
      if h.startedAt > w.until then e
      else if Identity(h) !in e.known then e.(jobs := e.jobs + [h], known := e.known[Identity(h) := h])
      else if e.known[Identity(h)] != h then e.(error := Some(ConflictingTurn))
      else e.(duplicates := e.duplicates + 1)
  }

  /** The turns to read among the first n listed. */
  function Enumerated(w: World, n: nat): Enumeration
    requires n <= |w.listing|
  {
    if n == 0 then Enumeration([], map[], 0, None)
    else
      var e := Enumerated(w, n - 1);
      if e.error.Some? then e else Enlist(w, w.listing[n - 1], e)
  }

  function Listing(w: World): Enumeration { Enumerated(w, |w.listing|) }

  ghost predicate KnownAreJobs(e: Enumeration)
  {
    && (forall i :: 0 <= i < |e.jobs| ==> Identity(e.jobs[i]) in e.known)
    && (forall i, j :: 0 <= i < j < |e.jobs| ==> Identity(e.jobs[i]) != Identity(e.jobs[j]))
  }

  /** No turn is listed twice. */
  lemma {:induction false} JobsAreDistinct(w: World, n: nat)
    requires n <= |w.listing|
    ensures KnownAreJobs(Enumerated(w, n))
  {
    if n > 0 {
      JobsAreDistinct(w, n - 1);
    }
  }

  lemma {:induction false} ListingStops(w: World, n: nat)
    requires n <= |w.listing| && Enumerated(w, n).error.Some?
    ensures Listing(w) == Enumerated(w, n)
    decreases |w.listing| - n
  {
    if n < |w.listing| {
      ListingStops(w, n + 1);
    }
  }

  /** The listing with a collector in place of the turn reader. */
  method Collect(w: World) returns (jobs: seq<Head>, duplicates: nat, error: Option<Error>)
    ensures Listing(w).jobs == jobs && Listing(w).duplicates == duplicates && Listing(w).error == error
  {
    var known: map<(Id, Id), Head> := map[];
    jobs, duplicates := [], 0;
    for n := 0 to |w.listing|
      invariant Enumerated(w, n) == Enumeration(jobs, known, duplicates, None)
    {
      match w.listing[n]
      case Failed(failure) =>
        ListingStops(w, n + 1);
        return jobs, duplicates, Some(failure);
      case Found(h) =>
        if h.startedAt > w.until {
          continue;
        }
        if Identity(h) in known {
          if known[Identity(h)] != h {
            ListingStops(w, n + 1);
            return jobs, duplicates, Some(ConflictingTurn);
          }
          duplicates := duplicates + 1;
          continue;
        }
        known := known[Identity(h) := h];
        jobs := jobs + [h];
    }
    error := None;
  }

  // ---------------------------------------------------------------- merging turns

  function Add(h: History, o: Outcome): History
  {
    h.(operations := h.operations + o.operations, records := h.records + o.records, itemsScanned := h.itemsScanned + o.scanned,
       dropped := h.dropped + o.dropped, duplicateItems := h.duplicateItems + o.duplicates)
  }

  /** The results with an index below n, added in the order of their indices. */
  function Merged(start: History, results: map<nat, Outcome>, n: nat): History
  {
    if n == 0 then start
    else if n - 1 in results then Add(Merged(start, results, n - 1), results[n - 1])
    else Merged(start, results, n - 1)
  }

  function Below(results: map<nat, Outcome>, n: nat): set<nat> { set i | i in results && i < n }

  lemma {:induction false} MergedGap(start: History, results: map<nat, Outcome>, m: nat, n: nat)
    requires m <= n && forall i :: m <= i < n ==> i !in results
    ensures Merged(start, results, n) == Merged(start, results, m)
  {
    if m < n {
      MergedGap(start, results, m, n - 1);
    }
  }

  /** Results that agree below n merge alike. */
  lemma {:induction false} MergedAlike(start: History, a: map<nat, Outcome>, b: map<nat, Outcome>, n: nat)
    requires forall i :: 0 <= i < n ==> (i in a <==> i in b) && (i in a ==> a[i] == b[i])
    ensures Merged(start, a, n) == Merged(start, b, n)
  {
    if n > 0 {
      MergedAlike(start, a, b, n - 1);
    }
  }

  predicate Smaller(m: nat, n: nat) { m < n }

  ghost predicate Lists(indices: seq<nat>, results: map<nat, Outcome>)
  {
    Sorting.Ascending(Smaller, indices) && forall i :: i in indices <==> i in results
  }

  function UpTo(indices: seq<nat>, k: nat): nat
    requires k <= |indices|
  {
    if k == 0 then 0 else indices[k - 1] + 1
  }

  /** No result lies between two consecutive indices, nor after the last one. */
  lemma GapBefore(start: History, indices: seq<nat>, results: map<nat, Outcome>, k: nat, bound: nat)
    requires Lists(indices, results) && k <= |indices| && UpTo(indices, k) <= bound
    requires k < |indices| ==> bound == indices[k]
    ensures Merged(start, results, bound) == Merged(start, results, UpTo(indices, k))
  {
    forall j | 0 <= j < |indices| ensures indices[j] < UpTo(indices, k) || bound <= indices[j] {
      if j < k - 1 {
        assert Smaller(indices[j], indices[k - 1]);
      } else if j > k {
        assert Smaller(indices[k], indices[j]);
      }
    }
    assert forall i :: i in results ==> i in indices;
    MergedGap(start, results, UpTo(indices, k), bound);
  }

  method SortedIndices(results: map<nat, Outcome>) returns (indices: seq<nat>)
    ensures Lists(indices, results)
  {
    var order := Sorting.Range(results.Keys);
    Sorting.SortAscending(Smaller, order);
    indices := Sorting.Sort(Smaller, order);
  }

  /** The merge visits the indices of the result map, which come in any order, after sorting them. */
  method MergeResults(start: History, results: map<nat, Outcome>, ghost bound: nat) returns (h: History)
    requires forall i :: i in results ==> i < bound
    ensures h == Merged(start, results, bound)
  {
    var indices := SortedIndices(results);
    h := start;
    for k := 0 to |indices|
      invariant h == Merged(start, results, UpTo(indices, k))
    {
      assert k > 0 ==> Smaller(indices[k - 1], indices[k]);
      assert indices[k] in results;
      GapBefore(start, indices, results, k, indices[k]);
      h := Add(h, results[indices[k]]);
    }
    assert forall i :: i in indices ==> i < bound;
    GapBefore(start, indices, results, |indices|, bound);
  }

  // ---------------------------------------------------------------- the sequential reader

  /** The reader's state: its history, the turns it met and the operations it holds. */
  datatype Reader = Reader(history: History, known: map<(Id, Id), Head>, seen: set<Key>)

  function WithoutOperations(operations: seq<Operation>, id: (Id, Id)): seq<Operation>
  {
    if operations == [] then [] else
      var last := operations[|operations| - 1];
      WithoutOperations(operations[..|operations| - 1], id) + if (last.key.thread, last.key.turn) == id then [] else [last]
  }

  function WithoutRecords(records: seq<Record>, id: (Id, Id)): seq<Record>
  {
    if records == [] then [] else
      var last := records[|records| - 1];
      WithoutRecords(records[..|records| - 1], id) + if Identity(last.head) == id then [] else [last]
  }

  /** A turn listed twice with different content invalidates what was collected for it. */
  function Invalidated(h: History, id: (Id, Id)): History
  {
    h.(operations := WithoutOperations(h.operations, id), records := WithoutRecords(h.records, id), error := Some(ConflictingTurn))
  }

  function Visit(w: World, x: Listed, r: Reader): Reader
  {
    match x
    case Failed(error) => r.(history := r.history.(error := Some(error)))
    case Found(h) =>
      if h.startedAt > w.until then r
      else if Identity(h) in r.known then
        if r.known[Identity(h)] != h then r.(history := Invalidated(r.history, Identity(h)))
        else r.(history := r.history.(duplicateTurns := r.history.duplicateTurns + 1))
      else
        var outcome := Turn(w.scope, h, w.script(h), r.seen);
        Reader(Add(r.history, outcome).(turnsScanned := r.history.turnsScanned + 1, error := outcome.error),
               r.known[Identity(h) := h], SeenAfter(w.scope, h, w.script(h), r.seen))
  }

  function Visited(w: World, n: nat): Reader
    requires n <= |w.listing|
  {
    if n == 0 then Reader(NOTHING, map[], {})
    else
      var r := Visited(w, n - 1);
      if r.history.error.Some? then r else Visit(w, w.listing[n - 1], r)
  }

  function Omitted(h: History): History { if h.error.None? && h.dropped > 0 then h.(error := Some(SensitiveOmitted)) else h }

  function Sequential(w: World): History { Omitted(Visited(w, |w.listing|).history) }

  lemma {:induction false} ReadingStops(w: World, n: nat)
    requires n <= |w.listing| && Visited(w, n).history.error.Some?
    ensures Visited(w, |w.listing|) == Visited(w, n)
    decreases |w.listing| - n
  {
    if n < |w.listing| {
      ReadingStops(w, n + 1);
    }
  }

  method Invalidate(h: History, id: (Id, Id)) returns (r: History)
    ensures r == Invalidated(h, id)
  {
    var operations, records := [], [];
    for i := 0 to |h.operations|
      invariant operations == WithoutOperations(h.operations[..i], id)
    {
      assert h.operations[..i + 1][..i] == h.operations[..i];
      if h.operations[i].key.thread != id.0 || h.operations[i].key.turn != id.1 {
        operations := operations + [h.operations[i]];
      }
    }
    for i := 0 to |h.records|
      invariant records == WithoutRecords(h.records[..i], id)
    {
      assert h.records[..i + 1][..i] == h.records[..i];
      if h.records[i].head.thread != id.0 || h.records[i].head.turn != id.1 {
        records := records + [h.records[i]];
      }
    }
    assert h.operations[..|h.operations|] == h.operations && h.records[..|h.records|] == h.records;
    r := h.(operations := operations, records := records, error := Some(ConflictingTurn));
  }

  method ReadHistory(w: World) returns (h: History)
    ensures h == Sequential(w)
  {
    h := NOTHING;
    var known: map<(Id, Id), Head>, seen: set<Key> := map[], {};
    for n := 0 to |w.listing|
      invariant Visited(w, n) == Reader(h, known, seen) && h.error.None?
    {
      match w.listing[n]
      case Failed(error) =>
        ReadingStops(w, n + 1);
        return h.(error := Some(error));
      case Found(head) =>
        if head.startedAt > w.until {
          continue;
        }
        if Identity(head) in known {
          if known[Identity(head)] != head {
            ReadingStops(w, n + 1);
            h := Invalidate(h, Identity(head));
            return;
          }
          h := h.(duplicateTurns := h.duplicateTurns + 1);
          continue;
        }
        known := known[Identity(head) := head];
        var outcome;
        outcome, seen := ReadTurn(w.scope, head, w.script(head), seen);
        h := Add(h, outcome).(turnsScanned := h.turnsScanned + 1, error := outcome.error);
        if outcome.error.Some? {
          ReadingStops(w, n + 1);
          return;
        }
    }
    h := Omitted(h);
  }

  // ---------------------------------------------------------------- the sequential reader is a merge

  /** A turn read on its own. */
  function Alone(w: World, h: Head): Outcome { Turn(w.scope, h, w.script(h), {}) }

  /** Every turn of the listing read on its own. */
  function Ideal(w: World, jobs: seq<Head>): map<nat, Outcome> { map i: nat | 0 <= i < |jobs| :: Alone(w, jobs[i]) }

  function Heading(e: Enumeration): History { NOTHING.(turnsScanned := |e.jobs|, duplicateTurns := e.duplicates) }

  ghost predicate AllRead(w: World, jobs: seq<Head>) { forall i :: 0 <= i < |jobs| ==> Alone(w, jobs[i]).error.None? }

  /** The operations held belong to turns already listed. */
  ghost predicate Explained(known: map<(Id, Id), Head>, seen: set<Key>)
  {
    forall k :: k in seen ==> (k.thread, k.turn) in known
  }

  ghost predicate InStep(w: World, e: Enumeration, r: Reader)
  {
    && e.error.None? && r.known == e.known && Explained(r.known, r.seen) && AllRead(w, e.jobs)
    && r.history == Merged(Heading(e), Ideal(w, e.jobs), |e.jobs|)
  }

  lemma {:induction false} MergedHeading(a: History, b: History, results: map<nat, Outcome>, n: nat)
    requires a.(turnsScanned := 0, duplicateTurns := 0) == b.(turnsScanned := 0, duplicateTurns := 0)
    ensures Merged(a, results, n) == Merged(b, results, n).(turnsScanned := a.turnsScanned, duplicateTurns := a.duplicateTurns)
  {
    if n > 0 {
      MergedHeading(a, b, results, n - 1);
    }
  }

  lemma JobAppended(w: World, e: Enumeration, h: Head)
    ensures var more := e.(jobs := e.jobs + [h]);
            Merged(Heading(more), Ideal(w, more.jobs), |more.jobs|) ==
              Add(Merged(Heading(e), Ideal(w, e.jobs), |e.jobs|), Alone(w, h)).(turnsScanned := |e.jobs| + 1, duplicateTurns := e.duplicates)
  {
    var more := e.(jobs := e.jobs + [h]);
    MergedAlike(Heading(e), Ideal(w, e.jobs), Ideal(w, more.jobs), |e.jobs|);
    MergedHeading(Heading(more), Heading(e), Ideal(w, more.jobs), |e.jobs|);
  }

  lemma {:induction false} MergedCounts(start: History, results: map<nat, Outcome>, n: nat)
    ensures Merged(start, results, n).turnsScanned == start.turnsScanned
    ensures Merged(start, results, n).duplicateTurns == start.duplicateTurns
    ensures Merged(start, results, n).error == start.error
  {
    if n > 0 {
      MergedCounts(start, results, n - 1);
    }
  }

  lemma VisitInStep(w: World, x: Listed, e: Enumeration, r: Reader)
    requires InStep(w, e, r)
    ensures InStep(w, Enlist(w, x, e), Visit(w, x, r)) || Visit(w, x, r).history.error.Some?
    ensures Visit(w, x, r).history.error.Some? ==> Enlist(w, x, e).error.Some? || !AllRead(w, Enlist(w, x, e).jobs)
  {
    MergedCounts(Heading(e), Ideal(w, e.jobs), |e.jobs|);
    if x.Found? && x.head.startedAt <= w.until {
      var h := x.head;
      if Identity(h) !in e.known {
        assert OwnKeys(h, r.seen) == {};
        SeenDoesNotMatter(w.scope, h, w.script(h), r.seen);
        JobAppended(w, e, h);
        assert (e.jobs + [h])[|e.jobs|] == h;
      } else {
        MergedHeading(Heading(Enlist(w, x, e)), Heading(e), Ideal(w, e.jobs), |e.jobs|);
      }
    }
  }

  lemma AllReadStep(w: World, n: nat)
    requires n < |w.listing| && AllRead(w, Enumerated(w, n + 1).jobs)
    ensures AllRead(w, Enumerated(w, n).jobs)
  {
    var before, after := Enumerated(w, n).jobs, Enumerated(w, n + 1).jobs;
    assert after == before || after[..|before|] == before;
    forall i | 0 <= i < |before| ensures Alone(w, before[i]).error.None? {
      assert after[i] == before[i];
    }
  }

  ghost predicate Troubled(w: World, e: Enumeration) { e.error.Some? || !AllRead(w, e.jobs) }

  lemma {:induction false} ReaderInStep(w: World, n: nat)
    requires n <= |w.listing|
    ensures Visited(w, n).history.error.None? ==> InStep(w, Enumerated(w, n), Visited(w, n))
    ensures Visited(w, n).history.error.Some? <==> Troubled(w, Enumerated(w, n))
  {
    if n > 0 {
      ReaderInStep(w, n - 1);
      var e, r := Enumerated(w, n - 1), Visited(w, n - 1);
      if r.history.error.None? {
        VisitInStep(w, w.listing[n - 1], e, r);
      } else if e.error.None? && AllRead(w, Enumerated(w, n).jobs) {
        AllReadStep(w, n - 1);
      }
    } else {
      assert Ideal(w, []) == map[];
    }
  }

  /**
   The sequential reader succeeds exactly when the listing and every turn read on its own do, and
   then it is the merge of the turns read on their own, in the order of the listing.
   */
  lemma SequentialIsMerge(w: World)
    ensures Visited(w, |w.listing|).history.error.None? <==> Listing(w).error.None? && AllRead(w, Listing(w).jobs)
    ensures Listing(w).error.None? && AllRead(w, Listing(w).jobs) ==>
              Sequential(w) == Omitted(Merged(Heading(Listing(w)), Ideal(w, Listing(w).jobs), |Listing(w).jobs|))
  {
    ReaderInStep(w, |w.listing|);
  }
}
