/**
 What a history holds (internal/historyattribution/history.go:298-413), said of the turns as they are listed: every
 turn counts at its first listing, in order, and trouble ends the history with what was read before.
 */
module HistoryContent {
  import opened Wrappers
  import Sequences
  import opened TurnReader
  import opened HistoryReader
  import HistoryKeys

  // ---------------------------------------------------------------- the listing

  /** A turn is listed there that started early enough. */
  predicate Counts(w: World, i: int) { 0 <= i < |w.listing| && w.listing[i].Found? && w.listing[i].head.startedAt <= w.until }

  predicate SameTurn(a: Head, b: Head) { a.thread == b.thread && a.turn == b.turn }

  /** The turn is listed there for the first time. */
  ghost predicate FirstListed(w: World, i: int)
  {
    Counts(w, i) && forall j :: 0 <= j < i && Counts(w, j) ==> !SameTurn(w.listing[j].head, w.listing[i].head)
  }

  /** The turn was listed before with other content. */
  ghost predicate Conflicts(w: World, i: int)
  {
    Counts(w, i) && exists j :: 0 <= j < i && Counts(w, j) && SameTurn(w.listing[j].head, w.listing[i].head) && w.listing[j].head != w.listing[i].head
  }

  /** Neither a failure nor a conflict among the first n. */
  ghost predicate Clean(w: World, n: nat)
    requires n <= |w.listing|
  {
    forall i :: 0 <= i < n ==> GoesOn(w, i)
  }

  ghost predicate GoesOn(w: World, i: int) { 0 <= i < |w.listing| && w.listing[i].Found? && !Conflicts(w, i) }

  ghost predicate PlacedAt(w: World, n: nat, jobs: seq<Head>, places: seq<int>)
    requires n <= |w.listing|
  {
    && Sequences.Increasing(places, n) && |places| == |jobs|
    && (forall k :: 0 <= k < |jobs| ==> w.listing[places[k]].Found? && jobs[k] == w.listing[places[k]].head)
    && forall i :: 0 <= i < n ==> (i in places <==> FirstListed(w, i))
  }

  /** The turns listed first among the first n, in order. */
  ghost predicate AreListed(w: World, n: nat, jobs: seq<Head>)
    requires n <= |w.listing|
  {
    exists places :: PlacedAt(w, n, jobs, places)
  }

  /** Listings of turns that were listed before. */
  ghost function Repeats(w: World, n: nat): set<int>
    requires n <= |w.listing|
  {
    set i | 0 <= i < n && Counts(w, i) && !FirstListed(w, i)
  }

  ghost predicate KnowsAll(w: World, n: nat, known: map<(Id, Id), Head>)
    requires n <= |w.listing|
  {
    && (forall i :: 0 <= i < n && Counts(w, i) ==> Identity(w.listing[i].head) in known && known[Identity(w.listing[i].head)] == w.listing[i].head)
    && forall id :: id in known ==> exists i :: 0 <= i < n && Counts(w, i) && Identity(w.listing[i].head) == id
  }

  ghost predicate Listed(w: World, n: nat, e: Enumeration)
    requires n <= |w.listing|
  {
    AreListed(w, n, e.jobs) && KnowsAll(w, n, e.known) && e.duplicates == |Repeats(w, n)| && e.error.None?
  }

  lemma ListedMore(w: World, n: nat, jobs: seq<Head>)
    requires n < |w.listing| && AreListed(w, n, jobs)
    ensures FirstListed(w, n) ==> AreListed(w, n + 1, jobs + [w.listing[n].head])
    ensures !FirstListed(w, n) ==> AreListed(w, n + 1, jobs)
  {
    var places :| PlacedAt(w, n, jobs, places);
    Sequences.IncreasingStep(places, n);
    assert n !in places;
    if FirstListed(w, n) {
      ListedAt(w, n, jobs, places);
    } else {
      assert PlacedAt(w, n + 1, jobs, places);
    }
  }

  lemma ListedAt(w: World, n: nat, jobs: seq<Head>, places: seq<int>)
    requires n < |w.listing| && PlacedAt(w, n, jobs, places) && FirstListed(w, n)
    ensures PlacedAt(w, n + 1, jobs + [w.listing[n].head], places + [n])
  {
    Sequences.IncreasingStep(places, n);
    forall i | 0 <= i < n + 1 ensures i in places + [n] <==> FirstListed(w, i) {
      assert i in places + [n] <==> i in places || i == n;
    }
  }

  lemma RepeatsMore(w: World, n: nat)
    requires n < |w.listing|
    ensures |Repeats(w, n + 1)| == |Repeats(w, n)| + if Counts(w, n) && !FirstListed(w, n) then 1 else 0
  {
    assert Repeats(w, n + 1) == Repeats(w, n) + if Counts(w, n) && !FirstListed(w, n) then {n} else {};
    assert n !in Repeats(w, n);
  }

  /** What is known decides whether a turn is new, repeated or in conflict. */
  lemma KnownDecides(w: World, n: nat, known: map<(Id, Id), Head>)
    requires n < |w.listing| && KnowsAll(w, n, known) && Counts(w, n)
    ensures FirstListed(w, n) <==> Identity(w.listing[n].head) !in known
    ensures Conflicts(w, n) <==> Identity(w.listing[n].head) in known && known[Identity(w.listing[n].head)] != w.listing[n].head
  {
    var h := w.listing[n].head;
    if Identity(h) in known {
      var i :| 0 <= i < n && Counts(w, i) && Identity(w.listing[i].head) == Identity(h);
      assert SameTurn(w.listing[i].head, h);
    }
  }

  lemma KnowsMore(w: World, n: nat, known: map<(Id, Id), Head>)
    requires n < |w.listing| && KnowsAll(w, n, known) && !Conflicts(w, n)
    ensures KnowsAll(w, n + 1, if FirstListed(w, n) then known[Identity(w.listing[n].head) := w.listing[n].head] else known)
  {
    if Counts(w, n) {
      KnownDecides(w, n, known);
    }
  }

  lemma EnlistListed(w: World, n: nat, e: Enumeration)
    requires n < |w.listing| && Listed(w, n, e)
    ensures w.listing[n].Found? && !Conflicts(w, n) ==> Listed(w, n + 1, Enlist(w, w.listing[n], e))
    ensures w.listing[n].Failed? ==> Enlist(w, w.listing[n], e).error == Some(w.listing[n].error)
    ensures w.listing[n].Found? && Conflicts(w, n) ==> Enlist(w, w.listing[n], e).error == Some(ConflictingTurn)
  {
    ListedMore(w, n, e.jobs);
    RepeatsMore(w, n);
    if Counts(w, n) {
      KnownDecides(w, n, e.known);
    }
    if !Conflicts(w, n) {
      KnowsMore(w, n, e.known);
    }
  }

  lemma NothingListed(w: World)
    ensures Listed(w, 0, Enumerated(w, 0))
  {
    assert PlacedAt(w, 0, [], []);
  }

  /** Listing goes on exactly as long as there is neither a failure nor a conflict, and knows the turns so far. */
  lemma EnumeratedIsListed(w: World, n: nat)
    requires n <= |w.listing| && Clean(w, n)
    ensures Listed(w, n, Enumerated(w, n))
  {
    NothingListed(w);
    for k := 0 to n
      invariant Listed(w, k, Enumerated(w, k))
    {
      assert GoesOn(w, k);
      ListedNext(w, k);
    }
  }

  lemma ListedNext(w: World, n: nat)
    requires GoesOn(w, n) && Listed(w, n, Enumerated(w, n))
    ensures Listed(w, n + 1, Enumerated(w, n + 1))
  {
    EnlistListed(w, n, Enumerated(w, n));
    NextEnumerated(w, n);
  }

  lemma NextEnumerated(w: World, n: nat)
    requires n < |w.listing| && Enumerated(w, n).error.None?
    ensures Enumerated(w, n + 1) == Enlist(w, w.listing[n], Enumerated(w, n))
  {
  }

  // ---------------------------------------------------------------- the content

  /** The operations of the turns, each read on its own, one turn after the other. */
  function OperationsOf(w: World, jobs: seq<Head>): seq<Operation>
  {
    if jobs == [] then [] else OperationsOf(w, jobs[..|jobs| - 1]) + Alone(w, jobs[|jobs| - 1]).operations
  }

  function RecordsOf(w: World, jobs: seq<Head>): seq<Record>
  {
    if jobs == [] then [] else RecordsOf(w, jobs[..|jobs| - 1]) + Alone(w, jobs[|jobs| - 1]).records
  }

  function Total(w: World, jobs: seq<Head>, count: Outcome -> nat): nat
  {
    if jobs == [] then 0 else Total(w, jobs[..|jobs| - 1], count) + count(Alone(w, jobs[|jobs| - 1]))
  }

  const SCANNED: Outcome -> nat := (o: Outcome) => o.scanned
  const DROPPED: Outcome -> nat := (o: Outcome) => o.dropped
  const DUPLICATES: Outcome -> nat := (o: Outcome) => o.duplicates

  /** The history of these turns, of which one more may have been begun. */
  ghost predicate TellsOf(w: World, jobs: seq<Head>, begun: seq<Head>, repeats: nat, h: History)
  {
    && h.operations == OperationsOf(w, jobs) && h.records == RecordsOf(w, jobs) && CountsOf(w, begun, repeats, h)
  }

  ghost predicate CountsOf(w: World, begun: seq<Head>, repeats: nat, h: History)
  {
    && h.turnsScanned == |begun| && h.duplicateTurns == repeats
    && h.itemsScanned == Total(w, begun, SCANNED) && h.dropped == Total(w, begun, DROPPED) && h.duplicateItems == Total(w, begun, DUPLICATES)
  }

  ghost predicate MergedSoFar(w: World, e: Enumeration, n: nat)
    requires n <= |e.jobs|
  {
    var h := Merged(Heading(e), Ideal(w, e.jobs), n);
    var jobs := e.jobs[..n];
    && h.operations == OperationsOf(w, jobs) && h.records == RecordsOf(w, jobs)
    && h.itemsScanned == Total(w, jobs, SCANNED) && h.dropped == Total(w, jobs, DROPPED) && h.duplicateItems == Total(w, jobs, DUPLICATES)
  }

  lemma MergedMore(w: World, e: Enumeration, n: nat)
    requires n < |e.jobs| && MergedSoFar(w, e, n)
    ensures MergedSoFar(w, e, n + 1)
  {
    var more := e.jobs[..n + 1];
    assert more[..n] == e.jobs[..n] && more[n] == e.jobs[n];
  }

  lemma MergedTells(w: World, e: Enumeration)
    ensures TellsOf(w, e.jobs, e.jobs, e.duplicates, Merged(Heading(e), Ideal(w, e.jobs), |e.jobs|))
  {
    assert e.jobs[..0] == [];
    for n := 0 to |e.jobs|
      invariant MergedSoFar(w, e, n)
    {
      MergedMore(w, e, n);
    }
    assert e.jobs[..|e.jobs|] == e.jobs;
    MergedCounts(Heading(e), Ideal(w, e.jobs), |e.jobs|);
  }

  /** Every turn listed among the first n can be read. */
  ghost predicate AllRead(w: World, n: nat)
    requires n <= |w.listing|
  {
    forall i :: 0 <= i < n && FirstListed(w, i) ==> Alone(w, w.listing[i].head).error.None?
  }

  /** Up to n the reader is where the listing is. */
  lemma ReadsAlong(w: World, n: nat)
    requires n <= |w.listing| && Clean(w, n) && AllRead(w, n)
    ensures var e, r := Enumerated(w, n), Visited(w, n);
            && Listed(w, n, e) && InStep(w, e, r) && r.history.error.None? && TellsOf(w, e.jobs, e.jobs, |Repeats(w, n)|, r.history)
  {
    var e := Enumerated(w, n);
    EnumeratedIsListed(w, n);
    var places :| PlacedAt(w, n, e.jobs, places);
    forall k | 0 <= k < |e.jobs| ensures Alone(w, e.jobs[k]).error.None? {
      assert places[k] in places && FirstListed(w, places[k]);
    }
    ReaderInStep(w, n);
    MergedTells(w, e);
  }

  /** Nothing stands in the way of the history. */
  ghost predicate Untroubled(w: World) { Clean(w, |w.listing|) && AllRead(w, |w.listing|) }

  /** A history without trouble: all turns at their first listing, in order, and complete unless a diff was dropped. */
  ghost predicate HoldsAll(w: World, h: History)
  {
    && (exists jobs :: AreListed(w, |w.listing|, jobs) && TellsOf(w, jobs, jobs, |Repeats(w, |w.listing|)|, h))
    && h.error == if h.dropped > 0 then Some(SensitiveOmitted) else None
  }

  lemma UntroubledHistory(w: World)
    requires Untroubled(w)
    ensures HoldsAll(w, Sequential(w))
  {
    var n := |w.listing|;
    ReadsAlong(w, n);
    var e := Enumerated(w, n);
    assert AreListed(w, n, e.jobs) && TellsOf(w, e.jobs, e.jobs, |Repeats(w, n)|, Sequential(w));
  }

  // ---------------------------------------------------------------- trouble

  /** The first listing at which the history ends. */
  ghost predicate TroubleAt(w: World, n: nat)
  {
    && n < |w.listing| && Clean(w, n) && AllRead(w, n)
    && (w.listing[n].Failed? || Conflicts(w, n) || (FirstListed(w, n) && Alone(w, w.listing[n].head).error.Some?))
  }

  /** A turn read for the first time is read as on its own. */
  lemma ReadAlone(w: World, n: nat, r: Reader)
    requires n < |w.listing| && FirstListed(w, n) && KnowsAll(w, n, r.known) && Explained(r.known, r.seen)
    ensures var h := w.listing[n].head; Identity(h) !in r.known && Turn(w.scope, h, w.script(h), r.seen) == Alone(w, h)
  {
    var h := w.listing[n].head;
    KnownDecides(w, n, r.known);
    assert OwnKeys(h, r.seen) == {};
    SeenDoesNotMatter(w.scope, h, w.script(h), r.seen);
  }

  lemma TroubleStops(w: World, n: nat, r: Reader)
    requires TroubleAt(w, n) && KnowsAll(w, n, r.known) && Explained(r.known, r.seen)
    ensures Visit(w, w.listing[n], r).history.error.Some?
  {
    if Counts(w, n) {
      KnownDecides(w, n, r.known);
      if FirstListed(w, n) {
        ReadAlone(w, n, r);
      }
    }
  }

  lemma ReaderKnows(w: World, n: nat)
    requires n <= |w.listing| && Clean(w, n) && AllRead(w, n)
    ensures KnowsAll(w, n, Visited(w, n).known) && Explained(Visited(w, n).known, Visited(w, n).seen) && Visited(w, n).history.error.None?
  {
    ReadsAlong(w, n);
  }

  lemma StopsThere(w: World, n: nat)
    requires n < |w.listing| && Visited(w, n).history.error.None? && Visit(w, w.listing[n], Visited(w, n)).history.error.Some?
    ensures Sequential(w) == Visit(w, w.listing[n], Visited(w, n)).history
  {
    assert Visited(w, n + 1) == Visit(w, w.listing[n], Visited(w, n));
    ReadingStops(w, n + 1);
  }

  lemma TroubleEnds(w: World, n: nat)
    requires TroubleAt(w, n)
    ensures Sequential(w) == Visit(w, w.listing[n], Visited(w, n)).history && Sequential(w).error.Some?
  {
    ReaderKnows(w, n);
    TroubleStops(w, n, Visited(w, n));
    StopsThere(w, n);
  }

  /** A listing that fails ends the history with what was read. */
  lemma ListingFails(w: World, n: nat)
    requires TroubleAt(w, n) && w.listing[n].Failed?
    ensures var h := Sequential(w);
            h.error == Some(w.listing[n].error) && exists jobs :: AreListed(w, n, jobs) && TellsOf(w, jobs, jobs, |Repeats(w, n)|, h)
  {
    TroubleEnds(w, n);
    ReadsAlong(w, n);
    var jobs := Enumerated(w, n).jobs;
    assert AreListed(w, n, jobs) && TellsOf(w, jobs, jobs, |Repeats(w, n)|, Sequential(w));
  }

  lemma TotalMore(w: World, jobs: seq<Head>, h: Head, count: Outcome -> nat)
    ensures Total(w, jobs + [h], count) == Total(w, jobs, count) + count(Alone(w, h))
  {
    var more := jobs + [h];
    assert more[..|more| - 1] == jobs && more[|more| - 1] == h;
  }

  lemma FailedTellsNothing(w: World, h: Head)
    requires Alone(w, h).error.Some?
    ensures Alone(w, h).operations == [] && Alone(w, h).records == []
  {
  }

  /** A turn that cannot be read ends the history with what was read before, but is counted. */
  lemma TurnFails(w: World, n: nat)
    requires TroubleAt(w, n) && FirstListed(w, n) && Alone(w, w.listing[n].head).error.Some?
    ensures var h, last := Sequential(w), w.listing[n].head;
            && h.error == Alone(w, last).error
            && exists jobs :: AreListed(w, n, jobs) && TellsOf(w, jobs, jobs + [last], |Repeats(w, n)|, h)
  {
    TroubleEnds(w, n);
    ReadsAlong(w, n);
    var jobs, last, r := Enumerated(w, n).jobs, w.listing[n].head, Visited(w, n);
    ReadAlone(w, n, r);
    FailedTellsNothing(w, last);
    TotalMore(w, jobs, last, SCANNED);
    TotalMore(w, jobs, last, DROPPED);
    TotalMore(w, jobs, last, DUPLICATES);
    assert TellsOf(w, jobs, jobs + [last], |Repeats(w, n)|, Sequential(w));
  }

  // ---------------------------------------------------------------- conflicts

  predicate OfTurn(key: Key, h: Head) { key.thread == h.thread && key.turn == h.turn }

  /** What is left of the operations without those of a turn. */
  ghost predicate OperationsBut(all: seq<Operation>, turn: Head, left: seq<Operation>)
  {
    Sequences.Subsequence(left, all) && forall op :: op in left <==> op in all && !OfTurn(op.key, turn)
  }

  ghost predicate RecordsBut(all: seq<Record>, turn: Head, left: seq<Record>)
  {
    Sequences.Subsequence(left, all) && forall record :: record in left <==> record in all && !SameTurn(record.head, turn)
  }

  lemma {:induction false} OperationsWithout(all: seq<Operation>, turn: Head)
    ensures OperationsBut(all, turn, WithoutOperations(all, Identity(turn)))
  {
    HistoryKeys.RemovalKeeps(all, Identity(turn));
    if all != [] {
      var n := |all| - 1;
      OperationsWithout(all[..n], turn);
      assert all == all[..n] + [all[n]];
    }
  }

  lemma {:induction false} RecordsWithout(all: seq<Record>, turn: Head)
    ensures RecordsBut(all, turn, WithoutRecords(all, Identity(turn)))
  {
    if all != [] {
      var n := |all| - 1;
      RecordsWithout(all[..n], turn);
      Sequences.KeepOrDrop(WithoutRecords(all[..n], Identity(turn)), all[..n], all[n], Identity(all[n].head) != Identity(turn));
      assert all == all[..n] + [all[n]];
    }
  }

  /** The history of these turns without anything of one of them. */
  ghost predicate TellsBut(w: World, jobs: seq<Head>, turn: Head, repeats: nat, h: History)
  {
    && OperationsBut(OperationsOf(w, jobs), turn, h.operations) && RecordsBut(RecordsOf(w, jobs), turn, h.records)
    && CountsOf(w, jobs, repeats, h)
  }

  /** A turn listed again with other content ends the history, and what was read of it goes. */
  lemma TurnConflicts(w: World, n: nat)
    requires TroubleAt(w, n) && w.listing[n].Found? && Conflicts(w, n)
    ensures var h, turn := Sequential(w), w.listing[n].head;
            h.error == Some(ConflictingTurn) && exists jobs :: AreListed(w, n, jobs) && TellsBut(w, jobs, turn, |Repeats(w, n)|, h)
  {
    TroubleEnds(w, n);
    ReadsAlong(w, n);
    var jobs, turn, r := Enumerated(w, n).jobs, w.listing[n].head, Visited(w, n);
    KnownDecides(w, n, r.known);
    OperationsWithout(r.history.operations, turn);
    RecordsWithout(r.history.records, turn);
    assert TellsBut(w, jobs, turn, |Repeats(w, n)|, Sequential(w));
  }

  lemma NoTroubleYet(w: World, n: nat)
    requires n < |w.listing| && Clean(w, n) && AllRead(w, n) && !TroubleAt(w, n)
    ensures Clean(w, n + 1) && AllRead(w, n + 1)
  {
    assert GoesOn(w, n);
  }

  lemma NoTroubleAt(w: World, n: nat)
    requires Untroubled(w)
    ensures !TroubleAt(w, n)
  {
    if n < |w.listing| {
      assert GoesOn(w, n);
    }
  }

  lemma FirstTrouble(w: World) returns (n: nat)
    ensures n <= |w.listing| && Clean(w, n) && AllRead(w, n) && (n == |w.listing| || TroubleAt(w, n))
  {
    n := 0;
    while n < |w.listing| && !TroubleAt(w, n)
      invariant n <= |w.listing| && Clean(w, n) && AllRead(w, n)
    {
      NoTroubleYet(w, n);
      n := n + 1;
    }
  }

  /** Either nothing stands in the way, or the history ends at some listing. */
  lemma TroubleOrNot(w: World)
    ensures Untroubled(w) <==> forall n: nat :: !TroubleAt(w, n)
  {
    if Untroubled(w) {
      forall n: nat ensures !TroubleAt(w, n) {
        NoTroubleAt(w, n);
      }
    } else {
      var n := FirstTrouble(w);
    }
  }
}
