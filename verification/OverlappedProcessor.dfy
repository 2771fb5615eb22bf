/**
 Committing a sampled token only when the next mask is needed
 (mlx-helper/Sources/BoundedGeneration/OverlappedTokenProcessor.swift).
 */
module OverlappedProcessor {
  import opened Wrappers

  /** Any processor: what it makes of logits, and how samples and prompts change it. */
  datatype Processor<!S, !L, !T> = Processor(process: (S, L) -> L, processed: (S, L) -> S, sampled: (S, T) -> S, prompted: (S, T) -> S)

  datatype Call<L, T> = Prompt(prompt: T) | Process(logits: L) | Sample(token: T)

  /** The storage of the adapter: the inner processor and the token it has not been told yet. */
  datatype Storage<S, T> = Storage(inner: S, pending: Option<T>)

  // ---------------------------------------------------------------- immediate commits

  function Direct<S, L, T>(p: Processor<S, L, T>, s: S, call: Call<L, T>): S
  {
    match call
    case Prompt(prompt) => p.prompted(s, prompt)
    case Process(logits) => p.processed(s, logits)
    case Sample(token) => p.sampled(s, token)
  }

  function DirectAll<S, L, T>(p: Processor<S, L, T>, s: S, calls: seq<Call<L, T>>): S
  {
    if calls == [] then s else Direct(p, DirectAll(p, s, calls[..|calls| - 1]), calls[|calls| - 1])
  }

  /** The masked logits of every process call. */
  function DirectOutputs<S, L, T>(p: Processor<S, L, T>, s: S, calls: seq<Call<L, T>>): seq<L>
  {
    if calls == [] then []
    else
      var init, last := calls[..|calls| - 1], calls[|calls| - 1];
      DirectOutputs(p, s, init) + if last.Process? then [p.process(DirectAll(p, s, init), last.logits)] else []
  }

  // ---------------------------------------------------------------- the adapter

  /** The pending token is committed before the next processing. */
  function Settled<S, L, T>(p: Processor<S, L, T>, s: Storage<S, T>): Storage<S, T>
  {
    if s.pending.Some? then Storage(p.sampled(s.inner, s.pending.value), None) else s
  }

  function Delayed<S, L, T>(p: Processor<S, L, T>, s: Storage<S, T>, call: Call<L, T>): Storage<S, T>
  {
    match call
    case Prompt(prompt) => s.(inner := p.prompted(s.inner, prompt))
    case Process(logits) => var t := Settled(p, s); t.(inner := p.processed(t.inner, logits))
    case Sample(token) => s.(pending := Some(token))
  }

  function DelayedAll<S, L, T>(p: Processor<S, L, T>, s: Storage<S, T>, calls: seq<Call<L, T>>): Storage<S, T>
  {
    if calls == [] then s else Delayed(p, DelayedAll(p, s, calls[..|calls| - 1]), calls[|calls| - 1])
  }

  function DelayedOutputs<S, L, T>(p: Processor<S, L, T>, s: Storage<S, T>, calls: seq<Call<L, T>>): seq<L>
  {
    if calls == [] then []
    else
      var init, last := calls[..|calls| - 1], calls[|calls| - 1];
      DelayedOutputs(p, s, init)
      + if last.Process? then [p.process(Settled(p, DelayedAll(p, s, init)).inner, last.logits)] else []
  }

  class OverlappedTokenProcessor<S(!new), L(!new), T(!new)> {
    const p: Processor<S, L, T>
    var inner: S
    var pending: Option<T>

    function Value(): Storage<S, T>
      reads this
    {
      Storage(inner, pending)
    }

    constructor (p: Processor<S, L, T>, inner: S)
      ensures this.p == p && Value() == Storage(inner, None)
    {
      this.p, this.inner, pending := p, inner, None;
    }

    method Process(logits: L) returns (masked: L)
      modifies this
      ensures masked == p.process(Settled(p, old(Value())).inner, logits)
      ensures Value() == Delayed(p, old(Value()), Call.Process(logits))
    {
      if pending.Some? {
        var previous := pending.value;
        pending := None;
        inner := p.sampled(inner, previous);
      }
      masked := p.process(inner, logits);
      inner := p.processed(inner, logits);
    }

    method DidSample(token: T)
      requires pending.None?
      modifies this
      ensures Value() == Delayed(p, old(Value()), Sample(token))
    {
      pending := Some(token);
    }

    method Copy() returns (copy: OverlappedTokenProcessor<S, L, T>)
      ensures fresh(copy) && copy.p == p && copy.Value() == Value()
    {
      copy := new OverlappedTokenProcessor(p, inner);
      copy.pending := pending;
    }
  }

  // ---------------------------------------------------------------- the refinement

  /** Between two samples there is a process call, and prompts come before any sample is pending. */
  predicate Alternating<L, T>(calls: seq<Call<L, T>>)
  {
    forall i :: 0 < i < |calls| && calls[i - 1].Sample? ==> calls[i].Process?
  }

  /**
   The adapter refines immediate commits: the same masked logits in the same order, and the same inner
   state but for a last sample that no later call has needed.
   */
  lemma {:induction false} DelayRefines<S, L, T>(p: Processor<S, L, T>, s: S, calls: seq<Call<L, T>>)
    requires Alternating(calls)
    ensures DelayedOutputs(p, Storage(s, None), calls) == DirectOutputs(p, s, calls)
    ensures Settled(p, DelayedAll(p, Storage(s, None), calls)) == Storage(DirectAll(p, s, calls), None)
    ensures DelayedAll(p, Storage(s, None), calls).pending ==
              if calls != [] && calls[|calls| - 1].Sample? then Some(calls[|calls| - 1].token) else None
  {
    if calls != [] {
      DelayRefines(p, s, calls[..|calls| - 1]);
    }
  }
}
