/**
 The concurrent history reader (internal/historyattribution/history_parallel.go): a producer, a
 bounded queue, workers under the memory guard, and a merge by index. Every step another goroutine
 can observe is one transition; a run is any sequence of enabled transitions.
 */
module HistoryPipeline {
  import opened Wrappers
  import opened TurnReader
  import opened HistoryReader
  import MemoryGuard
  import opened Sequences

  /** pipeline: turns are handed out while listing goes on; otherwise listing comes first. */
  datatype Setup = Setup(world: World, pipeline: bool, workers: nat)

  datatype Phase = Idle | Holding(index: nat) | Admitted(index: nat) | Recorded(index: nat, error: Option<Error>) | Gone

  datatype State = State(emitted: nat, queue: seq<nat>, closed: bool, listed: nat, listError: Option<Error>,
                         workers: seq<Phase>, results: map<nat, Outcome>, firstError: Option<Error>, cancelled: bool,
                         guard: MemoryGuard.Guard)

  datatype Step =
    | Emit                                            // the producer enqueues the next turn
    | Finish                                          // the listing is over and everything is enqueued
    | GiveUp(listed: nat, error: Error)               // the producer sees the cancellation
    | Receive(worker: nat)
    | Leave(worker: nat)                              // the queue is closed and empty
    | Discard(worker: nat)                            // cancelled before admission
    | Acquire(worker: nat)
    | Refuse(worker: nat, error: Error)               // the guard has failed, or the wait was cancelled
    | Abort(worker: nat)                              // cancelled after admission
    | NoConnection(worker: nat, error: Error)
    | Read(worker: nat, outcome: Outcome)             // a turn is read and its result stored
    | Release(worker: nat)
    | Sample(sample: MemoryGuard.Sample, now: int)
    | LoseSampler
    | Watch                                           // the sampling goroutine cancels after a failure
    | Cancel                                          // the caller cancels

  const CAPACITY := 16

  function Jobs(c: Setup): seq<Head>
  {
    if c.pipeline || Listing(c.world).error.None? then Listing(c.world).jobs else []
  }

  function Initial(c: Setup): State
  {
    State(0, [], false, if c.pipeline then 0 else |c.world.listing|, None, seq(c.workers, _ => Idle), map[], None, false,
          MemoryGuard.Start(c.workers))
  }

  /** Either the turn as read alone, or an interruption that keeps counters only. */
  ghost predicate Possible(c: Setup, index: nat, o: Outcome)
  {
    index < |Jobs(c)| && (o == Alone(c.world, Jobs(c)[index]) || (o.error.Some? && o.operations == [] && o.records == []))
  }

  predicate At(s: State, worker: nat, holding: bool, admitted: bool)
  {
    && worker < |s.workers|
    && ((holding && s.workers[worker].Holding?) || (admitted && s.workers[worker].Admitted?))
  }

  ghost predicate Enabled(c: Setup, s: State, step: Step)
  {
    match step
    case Emit => !s.closed && s.emitted < |Jobs(c)| && |s.queue| < CAPACITY
    case Finish => !s.closed && s.emitted == |Jobs(c)|
    case GiveUp(listed, _) =>
      && !s.closed && s.cancelled && listed <= |c.world.listing|
      && (if c.pipeline then Enumerated(c.world, listed).error.None? && |Enumerated(c.world, listed).jobs| == s.emitted
          else listed == s.listed)
    case Receive(w) => w < |s.workers| && s.workers[w].Idle? && s.queue != []
    case Leave(w) => w < |s.workers| && s.workers[w].Idle? && s.queue == [] && s.closed
    case Discard(w) => At(s, w, true, false) && s.cancelled
    case Acquire(w) => At(s, w, true, false) && MemoryGuard.Admits(s.guard)
    case Refuse(w, _) => At(s, w, true, false) && (s.guard.failure.Some? || s.cancelled)
    case Abort(w) => At(s, w, false, true) && s.cancelled
    case NoConnection(w, _) => At(s, w, false, true)
    case Read(w, outcome) => At(s, w, false, true) && Possible(c, s.workers[w].index, outcome)
    case Release(w) => w < |s.workers| && s.workers[w].Recorded?
    case Sample(_, _) => true
    case LoseSampler => true
    case Watch => s.guard.failure.Some? && !s.cancelled
    case Cancel => !s.cancelled
  }

  function Move(s: State, worker: nat, phase: Phase): State
    requires worker < |s.workers|
  {
    s.(workers := s.workers[worker := phase])
  }

  /** Only the first failure is kept, and it cancels everything else. */
  function Failing(s: State, error: Error): State
  {
    s.(firstError := if s.firstError.None? then Some(error) else s.firstError, cancelled := true)
  }

  function Freed(s: State): State { s.(guard := MemoryGuard.Released(s.guard)) }

  function Next(c: Setup, s: State, step: Step): State
    requires Enabled(c, s, step)
  {
    match step
    case Emit => s.(queue := s.queue + [s.emitted], emitted := s.emitted + 1)
    case Finish =>
      var error := Listing(c.world).error;
      s.(closed := true, listed := |c.world.listing|, listError := error, cancelled := s.cancelled || error.Some?)
    case GiveUp(listed, error) => s.(closed := true, listed := listed, listError := if c.pipeline then Some(error) else None)
    case Receive(w) => Move(s, w, Holding(s.queue[0])).(queue := s.queue[1..])
    case Leave(w) => Move(s, w, Gone)
    case Discard(w) => Move(s, w, Gone)
    case Acquire(w) => Move(s, w, Admitted(s.workers[w].index)).(guard := MemoryGuard.Admitted(s.guard))
    case Refuse(w, error) => Failing(Move(s, w, Gone), error)
    case Abort(w) => Freed(Move(s, w, Gone))
    case NoConnection(w, error) => Failing(Freed(Move(s, w, Gone)), error)
    case Read(w, outcome) => Move(s, w, Recorded(s.workers[w].index, outcome.error)).(results := s.results[s.workers[w].index := outcome])
    case Release(w) =>
      if s.workers[w].error.None? then Freed(Move(s, w, Idle)) else Failing(Freed(Move(s, w, Gone)), s.workers[w].error.value)
    case Sample(sample, now) => s.(guard := MemoryGuard.Updated(s.guard, sample, now))
    case LoseSampler => s.(guard := s.guard.(failure := Some(MemoryGuard.MonitoringUnavailable)))
    case Watch => s.(cancelled := true)
    case Cancel => s.(cancelled := true)
  }

  ghost predicate Legal(c: Setup, run: seq<Step>)
    decreases |run|, 0
  {
    run == [] || (Legal(c, run[..|run| - 1]) && Enabled(c, Reached(c, run[..|run| - 1]), run[|run| - 1]))
  }

  ghost function Reached(c: Setup, run: seq<Step>): State
    requires Legal(c, run)
    decreases |run|, 1
  {
    if run == [] then Initial(c) else Next(c, Reached(c, run[..|run| - 1]), run[|run| - 1])
  }

  predicate Done(s: State) { s.closed && forall w :: 0 <= w < |s.workers| ==> s.workers[w] == Gone }

  // ---------------------------------------------------------------- the result

  /** Which error the caller sees: the guard's, else the listing's, else the first worker's, else the cancellation. */
  function Trouble(s: State): Option<Error>
  {
    var error := if s.listError.Some? && s.firstError != Some(IdleTimeout) then s.listError else s.firstError;
    if s.guard.failure.Some? then Some(Memory)
    else if error.Some? then error
    else if s.cancelled then Some(Cancelled)
    else None
  }

  /** A failed listing may concern a turn already read, so nothing is kept then. */
  function Kept(c: Setup, s: State): map<nat, Outcome> { if c.pipeline && s.listError.Some? then map[] else s.results }

  function Output(c: Setup, s: State): History
    requires s.listed <= |c.world.listing|
  {
    Omitted(Merged(Heading(Enumerated(c.world, s.listed)), Kept(c, s), s.emitted).(error := Trouble(s)))
  }

  // ---------------------------------------------------------------- what every run keeps

  /** The queue holds the last turns enqueued, in order and at most CAPACITY of them. */
  ghost predicate QueueOk(c: Setup, s: State)
  {
    && |s.queue| <= CAPACITY && |s.queue| <= s.emitted <= |Jobs(c)|
    && forall k :: 0 <= k < |s.queue| ==> s.queue[k] == Taken(s) + k
  }

  /** The turns already received by a worker are those below this. */
  function Taken(s: State): int { s.emitted - |s.queue| }

  predicate Busy(p: Phase) { p.Holding? || p.Admitted? }

  predicate InHand(p: Phase, index: int) { Busy(p) && p.index == index }

  ghost predicate Carried(workers: seq<Phase>, index: int) { exists w :: 0 <= w < |workers| && InHand(workers[w], index) }

  /** Every turn received is in a worker's hands or among the results. */
  ghost predicate NothingLost(workers: seq<Phase>, results: map<nat, Outcome>, taken: int)
  {
    forall i {:trigger Carried(workers, i)} :: 0 <= i < taken ==> i in results || Carried(workers, i)
  }

  ghost predicate Apart(workers: seq<Phase>)
  {
    forall v, w :: 0 <= v < |workers| && 0 <= w < |workers| && v != w && Busy(workers[v]) && Busy(workers[w]) ==>
      workers[v].index != workers[w].index
  }

  /** No turn is in two hands, nor in a hand and among the results. */
  ghost predicate Exclusive(workers: seq<Phase>, results: map<nat, Outcome>, taken: int)
  {
    && Apart(workers)
    && (forall w :: 0 <= w < |workers| && Busy(workers[w]) ==> workers[w].index < taken && workers[w].index !in results)
    && (forall i :: i in results ==> i < taken)
  }

  ghost predicate Blamed(workers: seq<Phase>, firstError: Option<Error>, index: nat)
  {
    firstError.Some? || exists w :: 0 <= w < |workers| && workers[w].Recorded? && workers[w].index == index && workers[w].error.Some?
  }

  /** A result without an error is the turn as read alone; one with an error is on its way to be the first error. */
  ghost predicate ResultsOk(c: Setup, workers: seq<Phase>, results: map<nat, Outcome>, firstError: Option<Error>)
  {
    && (forall i :: i in results ==> Possible(c, i, results[i]))
    && (forall i {:trigger Blamed(workers, firstError, i)} :: i in results && results[i].error.Some? ==> Blamed(workers, firstError, i))
  }

  /** What a worker has recorded is among the results. */
  ghost predicate RecordedOk(workers: seq<Phase>, results: map<nat, Outcome>)
  {
    forall w :: 0 <= w < |workers| && workers[w].Recorded? ==>
      workers[w].index in results && results[workers[w].index].error == workers[w].error
  }

  ghost predicate EndOk(c: Setup, s: State)
  {
    && s.listed <= |c.world.listing|
    && (s.firstError.Some? || s.listError.Some? ==> s.cancelled)
    && (s.closed && !s.cancelled ==> s.emitted == |Jobs(c)| && s.listed == |c.world.listing| && Listing(c.world).error.None?)
    && (!s.cancelled ==> forall w :: 0 <= w < |s.workers| && s.workers[w].Gone? ==> s.closed && s.queue == [])
  }

  function Permits(workers: seq<Phase>): nat
  {
    if workers == [] then 0 else Permits(workers[..|workers| - 1]) + Permit(workers[|workers| - 1])
  }

  function Permit(p: Phase): nat { if p.Admitted? || p.Recorded? then 1 else 0 }

  /** The guard counts the workers between admission and release. */
  ghost predicate GuardOk(c: Setup, workers: seq<Phase>, guard: MemoryGuard.Guard)
  {
    && |workers| == c.workers && guard.max == c.workers && MemoryGuard.Sound(guard)
    && guard.active == Permits(workers)
  }

  ghost predicate Invariant(c: Setup, s: State)
  {
    && QueueOk(c, s) && EndOk(c, s)
    && (!s.cancelled ==> NothingLost(s.workers, s.results, Taken(s)))
    && Exclusive(s.workers, s.results, Taken(s))
    && ResultsOk(c, s.workers, s.results, s.firstError) && RecordedOk(s.workers, s.results)
    && GuardOk(c, s.workers, s.guard)
  }

  lemma {:induction false} PermitsMove(workers: seq<Phase>, w: nat, p: Phase)
    requires w < |workers|
    ensures Permits(workers[w := p]) == Permits(workers) - Permit(workers[w]) + Permit(p)
    ensures Permits(workers) >= Permit(workers[w])
  {
    var n := |workers| - 1;
    if w < n {
      PermitsMove(workers[..n], w, p);
      assert workers[w := p][..n] == workers[..n][w := p];
    } else {
      assert workers[w := p][..n] == workers[..n];
    }
  }

  lemma {:induction false} NoPermits(workers: seq<Phase>)
    ensures (forall w :: 0 <= w < |workers| ==> Permit(workers[w]) == 0) ==> Permits(workers) == 0
  {
    if workers != [] {
      NoPermits(workers[..|workers| - 1]);
    }
  }

  /** The worker a step moves, and where it goes. */
  function Moved(s: State, step: Step): Option<(nat, Phase)>
  {
    match step
    case Receive(w) => if s.queue == [] then None else Some((w, Holding(s.queue[0])))
    case Leave(w) => Some((w, Gone))
    case Discard(w) => Some((w, Gone))
    case Acquire(w) => if At(s, w, true, false) then Some((w, Admitted(s.workers[w].index))) else None
    case Refuse(w, _) => Some((w, Gone))
    case Abort(w) => Some((w, Gone))
    case NoConnection(w, _) => Some((w, Gone))
    case Read(w, outcome) => if At(s, w, false, true) then Some((w, Recorded(s.workers[w].index, outcome.error))) else None
    case Release(w) => if w < |s.workers| && s.workers[w].Recorded? && s.workers[w].error.None? then Some((w, Idle)) else Some((w, Gone))
    case _ => None
  }

  lemma MovedOne(c: Setup, s: State, step: Step)
    requires Enabled(c, s, step)
    ensures var t := Next(c, s, step);
            match Moved(s, step)
            case None => t.workers == s.workers
            case Some((w, p)) => w < |s.workers| && t.workers == s.workers[w := p]
  {
  }

  lemma GuardStep(c: Setup, s: State, step: Step)
    requires Enabled(c, s, step) && GuardOk(c, s.workers, s.guard)
    ensures GuardOk(c, Next(c, s, step).workers, Next(c, s, step).guard)
  {
    var t := Next(c, s, step);
    MovedOne(c, s, step);
    match Moved(s, step) {
      case None =>
        match step {
          case Sample(sample, now) => MemoryGuard.SoundStep(s.guard, MemoryGuard.Sampled(sample, now));
          case LoseSampler => MemoryGuard.SoundStep(s.guard, MemoryGuard.Lost);
          case _ => assert t.guard == s.guard;
        }
      case Some((w, p)) =>
        PermitsMove(s.workers, w, p);
        GuardMoves(s, step, c, w, p);
    }
  }

  lemma GuardMoves(s: State, step: Step, c: Setup, w: nat, p: Phase)
    requires Enabled(c, s, step) && Moved(s, step) == Some((w, p)) && MemoryGuard.Sound(s.guard)
    requires w < |s.workers| && s.guard.active >= Permit(s.workers[w])
    ensures MemoryGuard.Sound(Next(c, s, step).guard) && Next(c, s, step).guard.max == s.guard.max
    ensures Next(c, s, step).guard.active == s.guard.active - Permit(s.workers[w]) + Permit(p)
  {
    if step.Acquire? {
      MemoryGuard.SoundStep(s.guard, MemoryGuard.Acquire);
    }
    GuardAfter(c, s, step);
  }

  /** A worker's step takes a permit, gives one back, or leaves the guard alone. */
  function GuardMoved(g: MemoryGuard.Guard, step: Step): MemoryGuard.Guard
  {
    match step
    case Acquire(_) => MemoryGuard.Admitted(g)
    case Abort(_) => MemoryGuard.Released(g)
    case NoConnection(_, _) => MemoryGuard.Released(g)
    case Release(_) => MemoryGuard.Released(g)
    case _ => g
  }

  lemma GuardAfter(c: Setup, s: State, step: Step)
    requires Enabled(c, s, step) && Moved(s, step).Some?
    ensures Next(c, s, step).guard == GuardMoved(s.guard, step)
  {
  }

  lemma QueueStep(c: Setup, s: State, step: Step)
    requires Enabled(c, s, step) && QueueOk(c, s)
    ensures QueueOk(c, Next(c, s, step))
    ensures Taken(Next(c, s, step)) == if step.Receive? then Taken(s) + 1 else Taken(s)
    ensures step.Receive? ==> Moved(s, step) == Some((step.worker, Holding(Taken(s))))
  {
  }

  lemma EndStep(c: Setup, s: State, step: Step)
    requires Enabled(c, s, step) && EndOk(c, s)
    ensures EndOk(c, Next(c, s, step))
  {
  }

  /** A worker may drop what it has, keep it, or take the next turn. */
  lemma ExclusiveMove(workers: seq<Phase>, results: map<nat, Outcome>, taken: nat, w: nat, p: Phase)
    requires Exclusive(workers, results, taken) && w < |workers|
    ensures !Busy(p) ==> Exclusive(workers[w := p], results, taken)
    ensures Busy(p) && Busy(workers[w]) && p.index == workers[w].index ==> Exclusive(workers[w := p], results, taken)
    ensures Busy(p) && p.index == taken ==> Exclusive(workers[w := p], results, taken + 1)
  {
  }

  lemma ExclusiveRead(workers: seq<Phase>, results: map<nat, Outcome>, taken: nat, w: nat, outcome: Outcome)
    requires Exclusive(workers, results, taken) && w < |workers| && Busy(workers[w])
    ensures var i := workers[w].index; Exclusive(workers[w := Recorded(i, outcome.error)], results[i := outcome], taken)
  {
  }

  lemma ExclusiveStep(c: Setup, s: State, step: Step)
    requires Enabled(c, s, step) && QueueOk(c, s) && Exclusive(s.workers, s.results, Taken(s))
    ensures Exclusive(Next(c, s, step).workers, Next(c, s, step).results, Taken(Next(c, s, step)))
  {
    var t := Next(c, s, step);
    QueueStep(c, s, step);
    MovedOne(c, s, step);
    if Moved(s, step).Some? {
      var (w, p) := Moved(s, step).value;
      if step.Read? {
        ExclusiveRead(s.workers, s.results, Taken(s), w, step.outcome);
      } else {
        ExclusiveMove(s.workers, s.results, Taken(s), w, p);
      }
    }
  }

  lemma CarriedMove(workers: seq<Phase>, w: nat, p: Phase, index: int)
    requires w < |workers| && Carried(workers, index)
    requires InHand(workers[w], index) ==> InHand(p, index)
    ensures Carried(workers[w := p], index)
  {
    var v :| 0 <= v < |workers| && InHand(workers[v], index);
    assert InHand(workers[w := p][v], index);
  }

  /** Unless a worker drops a turn, it stays carried. */
  lemma LostMove(workers: seq<Phase>, results: map<nat, Outcome>, taken: nat, w: nat, p: Phase, results': map<nat, Outcome>, taken': nat)
    requires NothingLost(workers, results, taken) && w < |workers|
    requires Busy(workers[w]) ==> InHand(p, workers[w].index) || workers[w].index in results'
    requires results.Keys <= results'.Keys
    requires taken' == taken || (taken' == taken + 1 && InHand(p, taken))
    ensures NothingLost(workers[w := p], results', taken')
  {
    forall i | 0 <= i < taken' ensures i in results' || Carried(workers[w := p], i) {
      if i == taken {
        assert InHand(workers[w := p][w], i);
      } else if i !in results' {
        assert Carried(workers, i);
        CarriedMove(workers, w, p, i);
      }
    }
  }

  lemma LostStep(c: Setup, s: State, step: Step)
    requires Enabled(c, s, step) && QueueOk(c, s) && RecordedOk(s.workers, s.results)
    requires !s.cancelled ==> NothingLost(s.workers, s.results, Taken(s))
    ensures !Next(c, s, step).cancelled ==> NothingLost(Next(c, s, step).workers, Next(c, s, step).results, Taken(Next(c, s, step)))
  {
    var t := Next(c, s, step);
    QueueStep(c, s, step);
    MovedOne(c, s, step);
    if Moved(s, step).Some? && !t.cancelled {
      var (w, p) := Moved(s, step).value;
      LostMove(s.workers, s.results, Taken(s), w, p, t.results, Taken(t));
    }
  }

  lemma BlamedMove(workers: seq<Phase>, firstError: Option<Error>, w: nat, p: Phase, firstError': Option<Error>, index: nat)
    requires w < |workers| && Blamed(workers, firstError, index)
    requires firstError.Some? ==> firstError'.Some?
    requires workers[w].Recorded? && workers[w].error.Some? ==> firstError'.Some?
    ensures Blamed(workers[w := p], firstError', index)
  {
    if firstError'.None? {
      var v :| 0 <= v < |workers| && workers[v].Recorded? && workers[v].index == index && workers[v].error.Some?;
      assert workers[w := p][v] == workers[v];
    }
  }

  lemma ResultsMove(c: Setup, workers: seq<Phase>, results: map<nat, Outcome>, firstError: Option<Error>, w: nat, p: Phase,
                    firstError': Option<Error>)
    requires ResultsOk(c, workers, results, firstError) && w < |workers|
    requires firstError.Some? ==> firstError'.Some?
    requires workers[w].Recorded? && workers[w].error.Some? ==> firstError'.Some?
    ensures ResultsOk(c, workers[w := p], results, firstError')
  {
    forall i | i in results && results[i].error.Some? ensures Blamed(workers[w := p], firstError', i) {
      BlamedMove(workers, firstError, w, p, firstError', i);
    }
  }

  lemma ResultsRead(c: Setup, workers: seq<Phase>, results: map<nat, Outcome>, firstError: Option<Error>, w: nat, outcome: Outcome)
    requires ResultsOk(c, workers, results, firstError) && w < |workers| && workers[w].Admitted?
    requires Possible(c, workers[w].index, outcome)
    ensures var i := workers[w].index; ResultsOk(c, workers[w := Recorded(i, outcome.error)], results[i := outcome], firstError)
  {
    var i := workers[w].index;
    var p := Recorded(i, outcome.error);
    var more := results[i := outcome];
    forall j | j in more && more[j].error.Some? ensures Blamed(workers[w := p], firstError, j) {
      if j == i {
        assert workers[w := p][w] == p;
      } else {
        BlamedMove(workers, firstError, w, p, firstError, j);
      }
    }
  }

  lemma ResultsStep(c: Setup, s: State, step: Step)
    requires Enabled(c, s, step) && ResultsOk(c, s.workers, s.results, s.firstError)
    ensures ResultsOk(c, Next(c, s, step).workers, Next(c, s, step).results, Next(c, s, step).firstError)
  {
    var t := Next(c, s, step);
    MovedOne(c, s, step);
    if Moved(s, step).Some? {
      var (w, p) := Moved(s, step).value;
      if step.Read? {
        ResultsRead(c, s.workers, s.results, s.firstError, w, step.outcome);
      } else {
        ResultsMove(c, s.workers, s.results, s.firstError, w, p, t.firstError);
      }
    }
  }

  lemma RecordedStep(c: Setup, s: State, step: Step)
    requires Enabled(c, s, step) && RecordedOk(s.workers, s.results) && Exclusive(s.workers, s.results, Taken(s))
    ensures RecordedOk(Next(c, s, step).workers, Next(c, s, step).results)
  {
    MovedOne(c, s, step);
  }

  lemma InvariantStep(c: Setup, s: State, step: Step)
    requires Enabled(c, s, step) && Invariant(c, s)
    ensures Invariant(c, Next(c, s, step))
  {
    QueueStep(c, s, step);
    EndStep(c, s, step);
    LostStep(c, s, step);
    ExclusiveStep(c, s, step);
    ResultsStep(c, s, step);
    RecordedStep(c, s, step);
    GuardStep(c, s, step);
  }

  lemma {:induction false} RunKeepsInvariant(c: Setup, run: seq<Step>)
    requires c.workers > 0 && Legal(c, run)
    ensures Invariant(c, Reached(c, run))
  {
    if run == [] {
      NoPermits(Initial(c).workers);
    } else {
      RunKeepsInvariant(c, run[..|run| - 1]);
      InvariantStep(c, Reached(c, run[..|run| - 1]), run[|run| - 1]);
    }
  }

  // ---------------------------------------------------------------- confluence

  /** When all workers are gone nothing is carried and nobody is to blame. */
  lemma AllGone(c: Setup, workers: seq<Phase>, results: map<nat, Outcome>, taken: nat)
    requires forall w :: 0 <= w < |workers| ==> workers[w] == Gone
    requires NothingLost(workers, results, taken) && ResultsOk(c, workers, results, None)
    ensures forall i :: 0 <= i < taken ==> i in results && results[i].error.None? && Possible(c, i, results[i])
  {
    forall i | 0 <= i < taken ensures i in results && results[i].error.None? && Possible(c, i, results[i]) {
      assert i in results || Carried(workers, i);
      assert results[i].error.Some? ==> Blamed(workers, None, i);
    }
  }

  /** A worker leaves an uncancelled run only when the listing is over and the queue is empty. */
  lemma NothingLeft(c: Setup, s: State)
    requires c.workers > 0 && Invariant(c, s) && Done(s) && Trouble(s).None?
    ensures s.queue == [] && s.emitted == |Jobs(c)| && s.listed == |c.world.listing|
    ensures Listing(c.world).error.None? && s.firstError.None? && !s.cancelled
  {
    assert s.workers[0].Gone?;
  }

  /** In a finished run without trouble every turn has been read, and none with an error. */
  lemma CleanEnd(c: Setup, s: State)
    requires c.workers > 0 && Invariant(c, s) && Done(s) && Trouble(s).None?
    ensures Listing(c.world).error.None? && s.emitted == |Listing(c.world).jobs| && s.listed == |c.world.listing|
    ensures AllRead(c.world, Listing(c.world).jobs)
    ensures forall i :: 0 <= i < s.emitted ==> i in s.results && s.results[i] == Alone(c.world, Listing(c.world).jobs[i])
  {
    NothingLeft(c, s);
    AllGone(c, s.workers, s.results, s.emitted);
    forall i | 0 <= i < s.emitted ensures Alone(c.world, Listing(c.world).jobs[i]).error.None? {
      assert i in s.results;
    }
  }

  /**
   Whatever the interleaving, a run that ends without trouble returns exactly what the sequential
   reader returns.
   */
  lemma Confluence(c: Setup, run: seq<Step>)
    requires c.workers > 0 && Legal(c, run) && Done(Reached(c, run)) && Trouble(Reached(c, run)).None?
    ensures Reached(c, run).listed <= |c.world.listing|
    ensures Output(c, Reached(c, run)) == Sequential(c.world)
  {
    var s, jobs := Reached(c, run), Listing(c.world).jobs;
    RunKeepsInvariant(c, run);
    CleanEnd(c, s);
    SequentialIsMerge(c.world);
    MergedAlike(Heading(Listing(c.world)), s.results, Ideal(c.world, jobs), |jobs|);
    MergedCounts(Heading(Listing(c.world)), s.results, |jobs|);
  }

  // ---------------------------------------------------------------- runs with trouble

  /** Results that are each complete or empty merge into a subsequence of what all turns merge into. */
  lemma {:induction false} MergeIsSubsequence(c: Setup, start: History, results: map<nat, Outcome>, n: nat)
    requires n <= |Jobs(c)| && forall i :: i in results ==> Possible(c, i, results[i])
    requires start.operations == [] && start.records == []
    ensures Subsequence(Merged(start, results, n).operations, Merged(NOTHING, Ideal(c.world, Jobs(c)), n).operations)
    ensures Subsequence(Merged(start, results, n).records, Merged(NOTHING, Ideal(c.world, Jobs(c)), n).records)
  {
    if n > 0 {
      MergeIsSubsequence(c, start, results, n - 1);
      var got, all := Merged(start, results, n - 1), Merged(NOTHING, Ideal(c.world, Jobs(c)), n - 1);
      var turn := Alone(c.world, Jobs(c)[n - 1]);
      if n - 1 in results && results[n - 1] == turn {
        BothGrow(got.operations, all.operations, turn.operations);
        BothGrow(got.records, all.records, turn.records);
      } else {
        OneGrows(got.operations, all.operations, turn.operations);
        OneGrows(got.records, all.records, turn.records);
        assert n - 1 in results ==>
          got.operations + results[n - 1].operations == got.operations && got.records + results[n - 1].records == got.records;
      }
    }
  }

  /**
   Whatever goes wrong, the evidence returned is that of some turns, in the order of the listing;
   and it is none when the listing itself failed.
   */
  lemma TroubleKeepsOrder(c: Setup, run: seq<Step>)
    requires c.workers > 0 && Legal(c, run)
    ensures var s := Reached(c, run); var all := Merged(NOTHING, Ideal(c.world, Jobs(c)), s.emitted);
            s.listed <= |c.world.listing| && s.emitted <= |Jobs(c)|
            && Subsequence(Output(c, s).operations, all.operations) && Subsequence(Output(c, s).records, all.records)
            && (s.listError.Some? ==> Output(c, s).operations == [] && Output(c, s).records == [])
  {
    var s := Reached(c, run);
    RunKeepsInvariant(c, run);
    NothingBeforeListing(c, run);
    MergeIsSubsequence(c, Heading(Enumerated(c.world, s.listed)), Kept(c, s), s.emitted);
    if s.listError.Some? && c.pipeline {
      MergedGap(Heading(Enumerated(c.world, s.listed)), map[], 0, s.emitted);
    }
  }

  /** Without the pipeline a failed listing has handed out nothing. */
  lemma {:induction false} NothingBeforeListing(c: Setup, run: seq<Step>)
    requires c.workers > 0 && Legal(c, run)
    ensures !c.pipeline && Reached(c, run).listError.Some? ==> Jobs(c) == []
  {
    if run != [] {
      NothingBeforeListing(c, run[..|run| - 1]);
      ListErrorStep(c, Reached(c, run[..|run| - 1]), run[|run| - 1]);
    }
  }

  /** Without the pipeline only the end of the listing can report its failure. */
  lemma ListErrorStep(c: Setup, s: State, step: Step)
    requires Enabled(c, s, step) && (!c.pipeline && s.listError.Some? ==> Jobs(c) == [])
    ensures !c.pipeline && Next(c, s, step).listError.Some? ==> Jobs(c) == []
  {
  }

  /** What the guard and the queue promise at every moment of every run. */
  lemma AdmissionIsSafe(c: Setup, run: seq<Step>, step: Step)
    requires c.workers > 0 && Legal(c, run) && Enabled(c, Reached(c, run), step)
    ensures var s := Reached(c, run);
            && |s.queue| <= CAPACITY && Permits(s.workers) == s.guard.active <= c.workers
            && (step.Acquire? ==> s.guard.failure.None? && !s.guard.paused && Permits(s.workers) < s.guard.ceiling)
            && (step.Read? ==> s.workers[step.worker].index !in s.results)
  {
    RunKeepsInvariant(c, run);
  }

  // ---------------------------------------------------------------- progress

  /** Blocked means waiting for memory: somebody holds a turn, nobody is reading, and the guard is paused. */
  ghost predicate WaitsForMemory(s: State)
  {
    && s.guard.paused && s.guard.failure.None? && !s.cancelled
    && exists w :: 0 <= w < |s.workers| && s.workers[w].Holding?
  }

  predicate Environment(step: Step) { step.Sample? || step.LoseSampler? || step.Watch? || step.Cancel? }

  ghost predicate CanMove(c: Setup, s: State) { exists step :: !Environment(step) && Enabled(c, s, step) }

  lemma {:induction false} ListedSome(c: Setup, n: nat, m: nat)
    requires n <= |c.world.listing| && m <= |Enumerated(c.world, n).jobs|
    ensures exists k :: 0 <= k <= n && |Enumerated(c.world, k).jobs| == m && Enumerated(c.world, k).error.None?
  {
    if n == 0 {
      assert |Enumerated(c.world, 0).jobs| == m && Enumerated(c.world, 0).error.None?;
    } else if m <= |Enumerated(c.world, n - 1).jobs| {
      ListedSome(c, n - 1, m);
    } else {
      assert |Enumerated(c.world, n).jobs| == m && Enumerated(c.world, n).error.None?;
    }
  }

  lemma WorkerMoves(c: Setup, s: State, w: nat)
    requires c.workers > 0 && Invariant(c, s) && w < |s.workers| && s.workers[w] != Gone
    requires s.workers[w].Idle? ==> s.queue != [] || s.closed
    requires s.workers[w].Holding? ==> s.guard.failure.Some? || s.cancelled || MemoryGuard.Admits(s.guard)
    ensures CanMove(c, s)
  {
    match s.workers[w]
    case Idle => assert Enabled(c, s, if s.queue != [] then Receive(w) else Leave(w));
    case Holding(_) => assert Enabled(c, s, if MemoryGuard.Admits(s.guard) then Acquire(w) else Refuse(w, Memory));
    case Admitted(_) => assert Enabled(c, s, NoConnection(w, Rpc));
    case Recorded(_, _) => assert Enabled(c, s, Release(w));
  }

  lemma ProducerMoves(c: Setup, s: State)
    requires c.workers > 0 && Invariant(c, s) && !s.closed && (|s.queue| < CAPACITY || s.cancelled)
    ensures CanMove(c, s)
  {
    if s.cancelled {
      if c.pipeline {
        ListedSome(c, |c.world.listing|, s.emitted);
        var k :| 0 <= k <= |c.world.listing| && |Enumerated(c.world, k).jobs| == s.emitted && Enumerated(c.world, k).error.None?;
        assert Enabled(c, s, GiveUp(k, Cancelled));
      } else {
        assert Enabled(c, s, GiveUp(s.listed, Cancelled));
      }
    } else {
      assert Enabled(c, s, if s.emitted < |Jobs(c)| then Emit else Finish);
    }
  }

  /** There is no deadlock: a run that has not finished can move on, unless it waits for memory. */
  lemma Progress(c: Setup, run: seq<Step>)
    requires c.workers > 0 && Legal(c, run)
    ensures Done(Reached(c, run)) || CanMove(c, Reached(c, run)) || WaitsForMemory(Reached(c, run))
  {
    var s := Reached(c, run);
    RunKeepsInvariant(c, run);
    assert !s.cancelled && s.workers[0].Gone? ==> s.closed;
    if w :| 0 <= w < |s.workers| && (s.workers[w].Admitted? || s.workers[w].Recorded?) {
      WorkerMoves(c, s, w);
    } else if w :| 0 <= w < |s.workers| && s.workers[w].Holding? {
      NoPermits(s.workers);
      if !WaitsForMemory(s) {
        WorkerMoves(c, s, w);
      }
    } else if w :| 0 <= w < |s.workers| && s.workers[w].Idle? && (s.queue != [] || s.closed) {
      WorkerMoves(c, s, w);
    } else if !s.closed {
      ProducerMoves(c, s);
    }
  }

  function Weight(p: Phase): nat
  {
    match p case Gone => 0 case Idle => 1 case Recorded(_, _) => 2 case Admitted(_) => 3 case Holding(_) => 4
  }

  function Weights(workers: seq<Phase>): nat
  {
    if workers == [] then 0 else Weights(workers[..|workers| - 1]) + Weight(workers[|workers| - 1])
  }

  lemma {:induction false} WeightsMove(workers: seq<Phase>, w: nat, p: Phase)
    requires w < |workers|
    ensures Weights(workers[w := p]) == Weights(workers) - Weight(workers[w]) + Weight(p)
  {
    var n := |workers| - 1;
    if w < n {
      WeightsMove(workers[..n], w, p);
      assert workers[w := p][..n] == workers[..n][w := p];
    } else {
      assert workers[w := p][..n] == workers[..n];
    }
  }

  /** Turns to enqueue and turns queued. */
  function Backlog(c: Setup, s: State): int { 5 * (|Jobs(c)| - s.emitted) + 4 * |s.queue| + if s.closed then 0 else 1 }

  /** The work left, for the producer and for the workers. */
  function Remaining(c: Setup, s: State): int { Backlog(c, s) + Weights(s.workers) }

  lemma BacklogStep(c: Setup, s: State, step: Step)
    requires Enabled(c, s, step)
    ensures Backlog(c, Next(c, s, step)) == Backlog(c, s) - if step.Receive? then 4 else if step.Emit? || step.Finish? || step.GiveUp? then 1 else 0
  {
  }

  lemma WeightStep(c: Setup, s: State, step: Step)
    requires Enabled(c, s, step)
    ensures Moved(s, step).Some? <==> !Environment(step) && !(step.Emit? || step.Finish? || step.GiveUp?)
    ensures match Moved(s, step)
            case None => true
            case Some((w, p)) => w < |s.workers| && Weight(p) < Weight(s.workers[w]) + if step.Receive? then 4 else 0
  {
  }

  /** Every step of the producer and the workers reduces the work left; the environment adds none. */
  lemma WorkShrinks(c: Setup, s: State, step: Step)
    requires Enabled(c, s, step)
    ensures !Environment(step) ==> Remaining(c, Next(c, s, step)) < Remaining(c, s)
    ensures Environment(step) ==> Remaining(c, Next(c, s, step)) == Remaining(c, s)
  {
    MovedOne(c, s, step);
    BacklogStep(c, s, step);
    WeightStep(c, s, step);
    if Moved(s, step).Some? {
      var (w, p) := Moved(s, step).value;
      WeightsMove(s.workers, w, p);
    }
  }

  function Moves(run: seq<Step>): nat
  {
    if run == [] then 0 else Moves(run[..|run| - 1]) + if Environment(run[|run| - 1]) then 0 else 1
  }

  /** However long a run is, the producer and the workers take a bounded number of its steps. */
  lemma {:induction false} RunsAreBounded(c: Setup, run: seq<Step>)
    requires c.workers > 0 && Legal(c, run)
    ensures Remaining(c, Reached(c, run)) >= 0
    ensures Moves(run) + Remaining(c, Reached(c, run)) <= 5 * |Jobs(c)| + c.workers + 1
  {
    RunKeepsInvariant(c, run);
    if run == [] {
      AllIdle(c.workers);
    } else {
      RunsAreBounded(c, run[..|run| - 1]);
      WorkShrinks(c, Reached(c, run[..|run| - 1]), run[|run| - 1]);
    }
  }

  lemma {:induction false} AllIdle(n: nat)
    ensures Weights(seq(n, _ => Idle)) == n
  {
    if n > 0 {
      AllIdle(n - 1);
      assert seq(n, _ => Idle)[..n - 1] == seq(n - 1, _ => Idle);
    }
  }
}
