/**
 The memory guard's state read off its history (internal/historyattribution/memory_guard.go:65-117): which samples
 pause it, since when, which ones end the pause, which stop the run, and how many workers may be active.
 */
module MemoryHistory {
  import opened Wrappers
  import opened MemoryGuard

  function At(max: int, run: seq<Event>, n: nat): Guard
    requires n <= |run|
  {
    Final(max, run[..n])
  }

  lemma AtNext(max: int, run: seq<Event>, n: nat)
    requires n < |run|
    ensures At(max, run, n + 1) == After(At(max, run, n), run[n])
    ensures At(max, run, 0) == Start(max)
  {
    assert run[..n + 1][..n] == run[..n] && run[..n + 1][n] == run[n];
  }

  // ---------------------------------------------------------------- samples

  /** 1.5 GiB or more. */
  predicate IsHeavy(e: Event) { e.Sampled? && e.sample.rss >= 1610612736 }

  /** Below 1 GiB and without pressure. */
  predicate IsCalm(e: Event) { e.Sampled? && e.sample.rss < 1073741824 && e.sample.pressure <= 1 }

  /** Every sample from i on is calm. */
  ghost predicate CalmFrom(run: seq<Event>, i: int, n: nat)
    requires n <= |run|
  {
    forall k :: 0 <= k < n && i <= k && run[k].Sampled? ==> IsCalm(run[k])
  }

  /** The calm samples since the last one that was not. */
  ghost function CalmOnes(run: seq<Event>, n: nat): set<int>
    requires n <= |run|
  {
    set i | 0 <= i < n && run[i].Sampled? && CalmFrom(run, i, n)
  }

  /** After event h there were two calm samples and no other sample between them. */
  ghost predicate Recovered(run: seq<Event>, h: int, n: nat)
    requires n <= |run|
  {
    exists i, k :: h < i < k < n && 0 <= i && run[i].Sampled? && run[k].Sampled? && CalmFrom(run, i, k + 1)
  }

  /** A heavy sample after which the guard has not recovered. */
  ghost predicate Burdens(run: seq<Event>, h: int, n: nat)
    requires n <= |run|
  {
    0 <= h < n && IsHeavy(run[h]) && !Recovered(run, h, n)
  }

  /** The guard is paused since event h. */
  ghost predicate PausedSince(run: seq<Event>, h: int, n: nat)
    requires n <= |run|
  {
    Burdens(run, h, n) && forall i :: 0 <= i < h ==> !Burdens(run, i, n)
  }

  ghost predicate EverHeavy(run: seq<Event>, n: nat)
    requires n <= |run|
  {
    exists i :: 0 <= i < n && IsHeavy(run[i])
  }

  // ---------------------------------------------------------------- one event more

  lemma CalmFromStep(run: seq<Event>, i: int, n: nat)
    requires n < |run|
    ensures CalmFrom(run, i, n + 1) <==> CalmFrom(run, i, n) && (i <= n && run[n].Sampled? ==> IsCalm(run[n]))
  {
  }

  lemma CalmOnesStep(run: seq<Event>, n: nat)
    requires n < |run|
    ensures CalmOnes(run, n + 1) ==
      if !run[n].Sampled? then CalmOnes(run, n) else if IsCalm(run[n]) then CalmOnes(run, n) + {n} else {}
  {
    forall i ensures CalmFrom(run, i, n + 1) <==> CalmFrom(run, i, n) && (i <= n && run[n].Sampled? ==> IsCalm(run[n])) {
      CalmFromStep(run, i, n);
    }
  }

  /** A second calm sample in a row makes up for every heavy one before it; no other event does. */
  lemma RecoveredStep(run: seq<Event>, h: int, n: nat)
    requires n < |run| && 0 <= h < n && IsHeavy(run[h])
    ensures Recovered(run, h, n + 1) <==> Recovered(run, h, n) || (IsCalm(run[n]) && CalmOnes(run, n) != {})
  {
    if Recovered(run, h, n + 1) {
      var i, k :| h < i < k < n + 1 && 0 <= i && run[i].Sampled? && run[k].Sampled? && CalmFrom(run, i, k + 1);
      if k == n {
        CalmFromStep(run, i, n);
        assert i in CalmOnes(run, n);
      }
    }
    if IsCalm(run[n]) && CalmOnes(run, n) != {} {
      var i :| i in CalmOnes(run, n);
      CalmFromStep(run, i, n);
      assert !IsCalm(run[h]);
      assert h < i < n < n + 1 && CalmFrom(run, i, n + 1);
    }
  }

  lemma BurdensStep(run: seq<Event>, h: int, n: nat)
    requires n < |run|
    ensures Burdens(run, h, n + 1) <==>
      if h == n then IsHeavy(run[n]) else Burdens(run, h, n) && !(IsCalm(run[n]) && CalmOnes(run, n) != {})
  {
    if 0 <= h < n && IsHeavy(run[h]) {
      RecoveredStep(run, h, n);
    }
  }

  ghost predicate Free(run: seq<Event>, n: nat)
    requires n <= |run|
  {
    forall h :: 0 <= h < n ==> !Burdens(run, h, n)
  }

  /** The second calm sample in a row. */
  ghost predicate Recovers(run: seq<Event>, n: nat)
    requires n < |run|
  {
    IsCalm(run[n]) && CalmOnes(run, n) != {}
  }

  lemma AllRecover(run: seq<Event>, n: nat)
    requires n < |run| && Recovers(run, n)
    ensures Free(run, n + 1)
  {
    var m := n + 1;
    forall h | 0 <= h < m ensures !Burdens(run, h, m) {
      BurdensStep(run, h, n);
    }
  }

  lemma StillFree(run: seq<Event>, n: nat)
    requires n < |run| && Free(run, n) && !IsHeavy(run[n])
    ensures Free(run, n + 1)
  {
    var m := n + 1;
    forall h | 0 <= h < m ensures !Burdens(run, h, m) {
      BurdensStep(run, h, n);
      assert h < n ==> !Burdens(run, h, n);
    }
  }

  lemma PauseStarts(run: seq<Event>, n: nat)
    requires n < |run| && Free(run, n) && IsHeavy(run[n])
    ensures PausedSince(run, n, n + 1)
  {
    BurdensStep(run, n, n);
    var m := n + 1;
    forall i | 0 <= i < n ensures !Burdens(run, i, m) {
      BurdensStep(run, i, n);
      assert !Burdens(run, i, n);
    }
  }

  lemma PauseLasts(run: seq<Event>, h: int, n: nat)
    requires n < |run| && PausedSince(run, h, n) && !Recovers(run, n)
    ensures PausedSince(run, h, n + 1)
  {
    BurdensStep(run, h, n);
    var m := n + 1;
    forall i | 0 <= i < h ensures !Burdens(run, i, m) {
      BurdensStep(run, i, n);
      assert !Burdens(run, i, n);
    }
  }

  // ---------------------------------------------------------------- the state after a run

  ghost predicate PauseIsKnown(paused: bool, pausedAt: int, run: seq<Event>, n: nat)
    requires n <= |run|
  {
    if paused then exists h :: PausedSince(run, h, n) && run[h].now == pausedAt else Free(run, n)
  }

  ghost predicate StateIsKnown(g: Guard, run: seq<Event>, n: nat)
    requires n <= |run|
  {
    g.normal == |CalmOnes(run, n)| && (g.reduced <==> EverHeavy(run, n)) && PauseIsKnown(g.paused, g.pausedAt, run, n)
  }

  lemma PauseKnownNext(paused: bool, pausedAt: int, run: seq<Event>, n: nat)
    requires n < |run| && PauseIsKnown(paused, pausedAt, run, n)
    ensures Recovers(run, n) ==> PauseIsKnown(false, 0, run, n + 1)
    ensures !Recovers(run, n) && paused ==> PauseIsKnown(true, pausedAt, run, n + 1)
    ensures !paused && IsHeavy(run[n]) ==> PauseIsKnown(true, run[n].now, run, n + 1)
    ensures !paused && !IsHeavy(run[n]) ==> PauseIsKnown(false, pausedAt, run, n + 1)
  {
    if Recovers(run, n) {
      AllRecover(run, n);
    } else if paused {
      var h :| PausedSince(run, h, n) && run[h].now == pausedAt;
      PauseLasts(run, h, n);
    } else if IsHeavy(run[n]) {
      PauseStarts(run, n);
    } else {
      StillFree(run, n);
    }
  }

  lemma AfterEvent(g: Guard, e: Event)
    ensures var h := After(g, e);
            && h.normal == (if IsCalm(e) then g.normal + 1 else if e.Sampled? then 0 else g.normal)
            && h.reduced == (g.reduced || IsHeavy(e))
            && (h.paused, h.pausedAt) == if IsCalm(e) && g.normal > 0 then (false, 0)
                                         else if IsHeavy(e) && !g.paused then (true, e.now) else (g.paused, g.pausedAt)
  {
  }

  lemma StateKnownNext(g: Guard, run: seq<Event>, n: nat)
    requires n < |run| && StateIsKnown(g, run, n)
    ensures StateIsKnown(After(g, run[n]), run, n + 1)
  {
    AfterEvent(g, run[n]);
    PauseKnownNext(g.paused, g.pausedAt, run, n);
    CalmCount(run, n);
    EverHeavyStep(run, n);
  }

  lemma CalmCount(run: seq<Event>, n: nat)
    requires n < |run|
    ensures |CalmOnes(run, n + 1)| == if IsCalm(run[n]) then |CalmOnes(run, n)| + 1 else if run[n].Sampled? then 0 else |CalmOnes(run, n)|
    ensures Recovers(run, n) <==> IsCalm(run[n]) && |CalmOnes(run, n)| > 0
  {
    CalmOnesStep(run, n);
    assert n !in CalmOnes(run, n);
  }

  lemma EverHeavyStep(run: seq<Event>, n: nat)
    requires n < |run|
    ensures EverHeavy(run, n + 1) <==> EverHeavy(run, n) || IsHeavy(run[n])
  {
  }

  lemma StateKnown(max: int, run: seq<Event>, n: nat)
    requires n <= |run|
    ensures StateIsKnown(At(max, run, n), run, n)
  {
    assert CalmOnes(run, 0) == {};
    for k := 0 to n
      invariant StateIsKnown(At(max, run, k), run, k)
    {
      AtNext(max, run, k);
      StateKnownNext(At(max, run, k), run, k);
    }
  }

  /**
   The guard is paused exactly while some heavy sample has not been followed by two calm ones in a row, and since
   the first such sample; the pause leaves its mark for good.
   */
  lemma PausedExactly(max: int, run: seq<Event>, n: nat)
    requires n <= |run|
    ensures At(max, run, n).paused <==> exists h :: Burdens(run, h, n)
    ensures At(max, run, n).paused ==> exists h :: PausedSince(run, h, n) && At(max, run, n).pausedAt == run[h].now
    ensures At(max, run, n).reduced <==> exists h :: 0 <= h < n && IsHeavy(run[h])
  {
    StateKnown(max, run, n);
    assert !At(max, run, n).paused ==> Free(run, n);
  }

  // ---------------------------------------------------------------- failure

  /** The event stops the run for this reason; a stalled pause outweighs the sample itself. */
  ghost predicate Fails(run: seq<Event>, i: int, f: Failure)
    requires 0 <= i < |run|
  {
    match run[i]
    case Lost => f == MonitoringUnavailable
    case Sampled(s, now) =>
      if exists h :: PausedSince(run, h, i + 1) && now - run[h].now >= 30 then f == Stalled
      else if s.rss >= 2147483648 then f == LimitExceeded
      else s.pressure >= 4 && f == CriticalPressure
    case _ => false
  }

  /** The latest reason to stop. */
  ghost predicate FailureIsKnown(failure: Option<Failure>, run: seq<Event>, n: nat)
    requires n <= |run|
  {
    if failure.Some? then exists i :: 0 <= i < n && FailedLast(run, i, n, failure.value)
    else forall i, f :: 0 <= i < n ==> !Fails(run, i, f)
  }

  ghost predicate FailedLast(run: seq<Event>, i: int, n: nat, f: Failure)
    requires 0 <= i < n <= |run|
  {
    Fails(run, i, f) && forall k, e :: i < k < n ==> !Fails(run, k, e)
  }

  lemma OnlyPause(run: seq<Event>, h: int, n: nat)
    requires n <= |run| && PausedSince(run, h, n)
    ensures forall k :: PausedSince(run, k, n) ==> k == h
  {
  }

  lemma FailureNext(max: int, run: seq<Event>, n: nat, f: Failure)
    requires n < |run|
    ensures Fails(run, n, f) ==> At(max, run, n + 1).failure == Some(f)
    ensures (forall e :: !Fails(run, n, e)) ==> At(max, run, n + 1).failure == At(max, run, n).failure
    ensures (exists e :: Fails(run, n, e)) || At(max, run, n + 1).failure == At(max, run, n).failure
  {
    AtNext(max, run, n);
    StateKnown(max, run, n + 1);
    var g := At(max, run, n + 1);
    if g.paused {
      var h :| PausedSince(run, h, n + 1) && run[h].now == g.pausedAt;
      OnlyPause(run, h, n + 1);
    }
    if run[n].Sampled? {
      assert Fails(run, n, Stalled) || Fails(run, n, LimitExceeded) || Fails(run, n, CriticalPressure) || forall e :: !Fails(run, n, e);
    } else if run[n].Lost? {
      assert Fails(run, n, MonitoringUnavailable);
    }
  }

  lemma FailureKnownNext(max: int, run: seq<Event>, n: nat)
    requires n < |run| && FailureIsKnown(At(max, run, n).failure, run, n)
    ensures FailureIsKnown(At(max, run, n + 1).failure, run, n + 1)
  {
    if f :| Fails(run, n, f) {
      FailureNext(max, run, n, f);
      assert FailedLast(run, n, n + 1, f);
    } else {
      FailureNext(max, run, n, Stalled);
      var failure := At(max, run, n).failure;
      if failure.Some? {
        var i :| 0 <= i < n && FailedLast(run, i, n, failure.value);
        assert FailedLast(run, i, n + 1, failure.value);
      }
    }
  }

  /** The guard has failed exactly when some event stops the run, and for the latest such reason. */
  lemma FailedExactly(max: int, run: seq<Event>, n: nat)
    requires n <= |run|
    ensures FailureIsKnown(At(max, run, n).failure, run, n)
  {
    for k := 0 to n
      invariant FailureIsKnown(At(max, run, k).failure, run, k)
    {
      FailureKnownNext(max, run, k);
    }
  }

  // ---------------------------------------------------------------- the ceiling

  function AtLeastOne(x: int): int { if x < 1 then 1 else x }

  /** What one event does to the ceiling. */
  lemma CeilingAfter(g: Guard, e: Event)
    requires g.ceiling >= 1
    ensures var before, after := g.ceiling, After(g, e).ceiling;
            && (!e.Sampled? ==> after == before)
            && (IsCalm(e) ==> after == if g.normal == 0 then before else if g.reduced then AtLeastOne(g.max / 2) else g.max)
            && (e.Sampled? && !IsCalm(e) ==>
                  after == Least(AtLeastOne(g.active), if IsHeavy(e) then AtLeastOne(before - 1) else before))
  {
  }

  /**
   How each event moves the ceiling: two calm samples in a row restore it, to half the workers if there ever was
   a heavy one; any other sample that is not calm lowers it to the active workers, and a heavy one by one at least.
   */
  lemma CeilingMoves(max: int, run: seq<Event>, n: nat)
    requires n < |run| && max >= 1 && Legal(max, run)
    ensures var before, after := At(max, run, n).ceiling, At(max, run, n + 1).ceiling;
            && (!run[n].Sampled? ==> after == before)
            && (IsCalm(run[n]) ==>
                  after == if |CalmOnes(run, n + 1)| < 2 then before else if EverHeavy(run, n) then AtLeastOne(max / 2) else max)
            && (run[n].Sampled? && !IsCalm(run[n]) ==>
                  after == Least(AtLeastOne(Held(run[..n])), if IsHeavy(run[n]) then AtLeastOne(before - 1) else before))
  {
    AtNext(max, run, n);
    StateKnown(max, run, n);
    CalmCount(run, n);
    LegalPrefix(max, run, n);
    RunIsSound(max, run[..n]);
    CeilingAfter(At(max, run, n), run[n]);
  }
}
