/**
 Admission control by memory samples (internal/historyattribution/memory_guard.go): the guard as
 a value with its transitions, the object that performs them in place, and what every run keeps.
 */
module MemoryGuard {
  import opened Wrappers

  datatype Failure = LimitExceeded | CriticalPressure | Stalled | MonitoringUnavailable

  /** One reading: resident bytes, and the system's pressure level. */
  datatype Sample = Sample(rss: int, pressure: int)

  datatype Guard = Guard(max: int, ceiling: int, active: int, peak: int, normal: nat,
                         paused: bool, pausedAt: int, reduced: bool, failure: Option<Failure>)

  const GIB := 1024 * 1024 * 1024
  const STALL := 30

  predicate Exhausted(s: Sample) { s.rss >= 2 * GIB }
  predicate Critical(s: Sample) { s.pressure >= 4 }
  predicate Heavy(s: Sample) { s.rss >= GIB + GIB / 2 }
  predicate Calm(s: Sample) { s.rss < GIB && s.pressure <= 1 }

  function Start(max: int): Guard { Guard(max, max, 0, 0, 0, false, 0, false, None) }

  function Half(max: int): int { if max / 2 < 1 then 1 else max / 2 }

  function Least(a: int, b: int): int { if a < b then a else b }

  /** A calm sample; the second one in a row lifts the pause and the ceiling. */
  function Relaxed(g: Guard): Guard
  {
    var h := g.(normal := g.normal + 1);
    if h.normal < 2 then h else h.(paused := false, pausedAt := 0, ceiling := if g.reduced then Half(g.max) else g.max)
  }

  /** A warning sample: no more workers than are active; a heavy one also pauses and lowers the ceiling. */
  function Warned(g: Guard, heavy: bool, now: int): Guard
  {
    var h := if !heavy then g else
      g.(paused := true, pausedAt := if g.paused then g.pausedAt else now, reduced := true,
         ceiling := if g.ceiling > 1 then g.ceiling - 1 else g.ceiling);
    h.(normal := 0, ceiling := Least(h.ceiling, if g.active < 1 then 1 else g.active))
  }

  function Updated(g: Guard, s: Sample, now: int): Guard
  {
    var h := if Calm(s) then Relaxed(g) else Warned(g, Heavy(s), now);
    h.(failure :=
      if h.paused && now - h.pausedAt >= STALL then Some(Stalled)
      else if Exhausted(s) then Some(LimitExceeded)
      else if Critical(s) then Some(CriticalPressure)
      else g.failure)
  }

  predicate Admits(g: Guard) { g.failure.None? && !g.paused && g.active < g.ceiling }

  function Admitted(g: Guard): Guard
  {
    g.(active := g.active + 1, peak := if g.active + 1 > g.peak then g.active + 1 else g.peak)
  }

  function Released(g: Guard): Guard { g.(active := g.active - 1) }

  // ---------------------------------------------------------------- the guard in place

  datatype Admission = Granted | Refused(failure: Failure) | Waiting

  class Controller {
    const max: int
    var ceiling: int
    var active: int
    var peak: int
    var normal: nat
    var paused: bool
    var pausedAt: int
    var reduced: bool
    var failure: Option<Failure>

    function State(): Guard
      reads this
    {
      Guard(max, ceiling, active, peak, normal, paused, pausedAt, reduced, failure)
    }

    constructor (max: int)
      ensures State() == Start(max)
    {
      this.max, ceiling, active, peak, normal := max, max, 0, 0, 0;
      paused, pausedAt, reduced, failure := false, 0, false, None;
    }

    method Update(s: Sample, now: int) returns (error: Option<Failure>)
      modifies this
      ensures State() == Updated(old(State()), s, now) && error == failure
    {
      if s.rss >= 2 * GIB {
        failure := Some(LimitExceeded);
      } else if s.pressure >= 4 {
        failure := Some(CriticalPressure);
      }
      if s.rss >= GIB + GIB / 2 {
        Pause(now);
      }
      if s.rss >= GIB || s.pressure > 1 {
        Limit();
      } else {
        Calmed();
      }
      if paused && now - pausedAt >= STALL {
        failure := Some(Stalled);
      }
      error := failure;
    }

    method Pause(now: int)
      modifies this
      ensures var g := old(State());
              State() == g.(paused := true, pausedAt := if g.paused then g.pausedAt else now, reduced := true,
                            ceiling := if g.ceiling > 1 then g.ceiling - 1 else g.ceiling)
    {
      if !paused {
        pausedAt := now;
      }
      paused, reduced := true, true;
      if ceiling > 1 {
        ceiling := ceiling - 1;
      }
    }

    method Limit()
      modifies this
      ensures State() == old(State()).(normal := 0, ceiling := Least(old(ceiling), if active < 1 then 1 else active))
    {
      normal := 0;
      var limit := active;
      if limit < 1 {
        limit := 1;
      }
      if limit < ceiling {
        ceiling := limit;
      }
    }

    method Calmed()
      modifies this
      ensures State() == Relaxed(old(State()))
    {
      normal := normal + 1;
      if normal >= 2 {
        paused, pausedAt, ceiling := false, 0, max;
        if reduced {
          ceiling := max / 2;
          if ceiling < 1 {
            ceiling := 1;
          }
        }
      }
    }

    /** A lost sampler fails the guard. */
    method Lose()
      modifies this
      ensures State() == old(State()).(failure := Some(MonitoringUnavailable))
    {
      failure := Some(MonitoringUnavailable);
    }

    /** One round of the admission loop; a waiting caller comes back after the next change. */
    method Acquire() returns (outcome: Admission)
      modifies this
      ensures outcome.Granted? <==> Admits(old(State()))
      ensures outcome.Granted? <==> old(failure.None? && !paused && active < ceiling)
      ensures active == old(active) + if outcome.Granted? then 1 else 0
      ensures outcome.Refused? <==> old(failure).Some?
      ensures outcome.Refused? ==> Some(outcome.failure) == failure
      ensures State() == if outcome.Granted? then Admitted(old(State())) else old(State())
    {
      if failure.Some? {
        return Refused(failure.value);
      }
      if !paused && active < ceiling {
        active := active + 1;
        if active > peak {
          peak := active;
        }
        return Granted;
      }
      outcome := Waiting;
    }

    method Release()
      modifies this
      ensures State() == Released(old(State()))
    {
      active := active - 1;
    }

    /** Idle connections are given up only while memory must be reclaimed, or after a failure. */
    method Retire() returns (close: bool)
      ensures State() == old(State())
      ensures close <==> State().paused || State().failure.Some?
    {
      close := paused || failure.Some?;
    }
  }

  // ---------------------------------------------------------------- runs

  datatype Event = Sampled(sample: Sample, now: int) | Lost | Acquire | Release

  /** An admission needs the guard's consent, and only a holder releases. */
  predicate Allowed(g: Guard, e: Event)
  {
    match e
    case Acquire => Admits(g)
    case Release => g.active > 0
    case _ => true
  }

  function After(g: Guard, e: Event): Guard
  {
    match e
    case Sampled(s, now) => Updated(g, s, now)
    case Lost => g.(failure := Some(MonitoringUnavailable))
    case Acquire => Admitted(g)
    case Release => Released(g)
  }

  function Final(max: int, run: seq<Event>): Guard
  {
    if run == [] then Start(max) else After(Final(max, run[..|run| - 1]), run[|run| - 1])
  }

  predicate Legal(max: int, run: seq<Event>)
  {
    run == [] || (Legal(max, run[..|run| - 1]) && Allowed(Final(max, run[..|run| - 1]), run[|run| - 1]))
  }

  /** Permits handed out and not yet given back. */
  function Held(run: seq<Event>): int
  {
    if run == [] then 0
    else Held(run[..|run| - 1]) + match run[|run| - 1] case Acquire => 1 case Release => -1 case _ => 0
  }

  /** Calm samples since the last one that was not. */
  function CalmTail(run: seq<Event>): nat
  {
    if run == [] then 0
    else match run[|run| - 1]
      case Sampled(s, _) => if Calm(s) then CalmTail(run[..|run| - 1]) + 1 else 0
      case _ => CalmTail(run[..|run| - 1])
  }

  predicate Sound(g: Guard)
  {
    && 1 <= g.ceiling <= g.max
    && 0 <= g.active <= g.peak <= g.max
    && (g.paused ==> g.reduced)
    && (g.reduced && !g.paused ==> g.ceiling <= Half(g.max))
  }

  lemma SoundStep(g: Guard, e: Event)
    requires Sound(g) && Allowed(g, e)
    ensures Sound(After(g, e))
    ensures g.failure.Some? ==> After(g, e).failure.Some?
    ensures g.reduced ==> After(g, e).reduced
    ensures After(g, e).max == g.max
  {
  }

  /** What every run keeps: the permits are counted and bounded, the ceiling stays in range. */
  lemma {:induction false} RunIsSound(max: int, run: seq<Event>)
    requires max >= 1 && Legal(max, run)
    ensures Sound(Final(max, run)) && Final(max, run).max == max
    ensures Final(max, run).active == Held(run)
    ensures Final(max, run).normal == CalmTail(run)
  {
    if run != [] {
      RunIsSound(max, run[..|run| - 1]);
      SoundStep(Final(max, run[..|run| - 1]), run[|run| - 1]);
    }
  }

  /** Failure is permanent, and after it nothing is admitted any more. */
  lemma {:induction false} FailureIsPermanent(max: int, run: seq<Event>, i: nat)
    requires max >= 1 && Legal(max, run) && i <= |run|
    requires Final(max, run[..i]).failure.Some?
    ensures Final(max, run).failure.Some?
    ensures forall j :: i <= j < |run| ==> !run[j].Acquire?
  {
    if i == |run| {
      assert run[..i] == run;
    } else {
      var n := |run| - 1;
      assert run[..n][..i] == run[..i];
      FailureIsPermanent(max, run[..n], i);
      RunIsSound(max, run[..n]);
      SoundStep(Final(max, run[..n]), run[n]);
      assert forall j :: i <= j < n ==> run[j] == run[..n][j];
    }
  }

  /** Nobody is admitted while the guard is paused, and a pause ends only on two calm samples in a row. */
  lemma PauseBlocksAdmission(max: int, run: seq<Event>, i: nat)
    requires max >= 1 && Legal(max, run) && i < |run|
    requires Final(max, run[..i]).paused
    ensures !run[i].Acquire?
    ensures !Final(max, run[..i + 1]).paused ==> CalmTail(run[..i + 1]) >= 2 && run[i].Sampled?
    ensures !Final(max, run[..i + 1]).paused ==> Final(max, run[..i + 1]).ceiling == Half(max)
    ensures run[i].Sampled? && Final(max, run[..i + 1]).paused && run[i].now - Final(max, run[..i]).pausedAt >= STALL ==>
              Final(max, run[..i + 1]).failure == Some(Stalled)
  {
    LegalPrefix(max, run, i + 1);
    var next := run[..i + 1];
    assert next[..i] == run[..i] && next[i] == run[i];
    RunIsSound(max, run[..i]);
    RunIsSound(max, next);
  }

  lemma {:induction false} LegalPrefix(max: int, run: seq<Event>, i: nat)
    requires Legal(max, run) && i <= |run|
    ensures Legal(max, run[..i])
  {
    if i == |run| {
      assert run[..i] == run;
    } else {
      LegalPrefix(max, run[..|run| - 1], i);
      assert run[..|run| - 1][..i] == run[..i];
    }
  }
}
