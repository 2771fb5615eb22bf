/**
 Sampling under a grammar (mlx-helper/Sources/BoundedGeneration/GrammarSampling.swift): masks from a
 deterministic matcher, committed tokens, and copies that replay the tokens into a fresh matcher.
 */
module GrammarSampling {
  import opened Wrappers

  /** A logit offset: minus infinity, the penalty for whitespace, or nothing. */
  datatype Weight = Blocked | Penalised | Open

  datatype Code =
    | ConstraintUnavailable | MaskWordCount | MaskNoFiniteToken | MaskComputeError
    | UnexpectedPrefetch | TokenBounds | UnexpectedFastForward | TokenCommitError

  /** The matcher after a token: whether it wants to insert tokens of its own, and whether it is done. */
  datatype Advance<M> = Advance(next: M, fastForward: bool, terminated: bool)

  /** A deterministic matcher; None stands for a thrown error. A mask may be too short for the vocabulary. */
  datatype Matcher<!M> = Matcher(mask: M -> Option<seq<bool>>, advance: (M, int) -> Option<Advance<M>>)

  /** start is what a working factory makes; check and candidate are the optional prefix constraint. */
  datatype Config<!M> = Config(matcher: Matcher<M>, start: M, vocabSize: int, eos: int, whitespace: set<int>,
                               stops: set<int>, unknown: Option<int>, alignStops: bool, enforces: bool,
                               candidate: int -> bool, check: Option<seq<int> -> bool>)

  datatype State<M> = State(constraint: Option<M>, committed: seq<int>, failed: bool, acceptedStop: bool, firstFailure: Option<Code>)

  function Fail<M>(s: State<M>, code: Code): State<M>
  {
    s.(failed := true, firstFailure := if s.firstFailure.None? then Some(code) else s.firstFailure)
  }

  /** A new state over a matcher, or without one when the factory failed. */
  function Fresh<M>(c: Config<M>, constraint: Option<M>): State<M>
  {
    var failed := c.enforces && constraint.None?;
    State(constraint, [], failed, false, if failed then Some(ConstraintUnavailable) else None)
  }

  // ---------------------------------------------------------------- masks

  function Least(a: int, b: int): int { if a < b then a else b }

  function Excluded<M>(c: Config<M>): set<int>
  {
    (c.stops + if c.unknown.Some? then {c.unknown.value} else {}) - {c.eos}
  }

  /** What the mask says about token i when the matcher's bits are long enough. */
  function WeightOf<M>(c: Config<M>, bits: seq<bool>, committed: seq<int>, i: nat): Weight
  {
    if !(i < c.vocabSize && i < |bits| && bits[i]) then Blocked
    else if c.alignStops && i in Excluded(c) then Blocked
    else if c.check.Some? && c.candidate(i) && !c.check.value(committed + [i]) then Blocked
    else if i in c.whitespace then Penalised
    else Open
  }

  function Weights<M>(c: Config<M>, bits: seq<bool>, committed: seq<int>, count: nat): seq<Weight>
  {
    seq(count, i requires 0 <= i < count => WeightOf(c, bits, committed, i))
  }

  function OnlyToken(token: int, count: nat): seq<Weight> { seq(count, i => if i == token then Open else Blocked) }

  predicate AllBlocked(values: seq<Weight>) { forall i :: 0 <= i < |values| ==> values[i].Blocked? }

  datatype Masking = Values(values: seq<Weight>) | MaskError(code: Code)

  /** The mask of a live matcher, or why there is none. */
  function MatcherMask<M>(c: Config<M>, s: State<M>, count: nat): Masking
  {
    if s.failed || s.constraint.None? then MaskError(ConstraintUnavailable)
    else match c.matcher.mask(s.constraint.value)
      case None => MaskError(MaskComputeError)
      case Some(bits) =>
        if Least(c.vocabSize, count) > |bits| then MaskError(MaskWordCount)
        else
          var values := Weights(c, bits, s.committed, count);
          if AllBlocked(values) then MaskError(MaskNoFiniteToken) else Values(values)
  }

  /** The mask returned; an error forces the end of the stream. */
  function Mask<M>(c: Config<M>, s: State<M>, count: nat): seq<Weight>
  {
    if !c.enforces && !s.failed && !s.acceptedStop then seq(count, _ => Open)
    else if s.acceptedStop && !s.failed then OnlyToken(c.eos, count)
    else match MatcherMask(c, s, count)
      case Values(values) => values
      case MaskError(_) => OnlyToken(c.eos, count)
  }

  function AfterMask<M>(c: Config<M>, s: State<M>, count: nat): State<M>
  {
    if (!c.enforces && !s.failed && !s.acceptedStop) || (s.acceptedStop && !s.failed) then s
    else match MatcherMask(c, s, count)
      case Values(_) => s
      case MaskError(code) => Fail(s, code)
  }

  // ---------------------------------------------------------------- commits

  function Commit<M>(c: Config<M>, s: State<M>, token: int): State<M>
  {
    if s.failed then s
    else if s.acceptedStop then (if c.enforces && token != c.eos then Fail(s, UnexpectedPrefetch) else s)
    else if !c.enforces then
      if 0 <= token < c.vocabSize then s.(acceptedStop := token == c.eos || token in c.stops) else Fail(s, TokenBounds)
    else if s.constraint.None? then Fail(s, ConstraintUnavailable)
    else if !(0 <= token < c.vocabSize) then Fail(s, TokenBounds)
    else match c.matcher.advance(s.constraint.value, token)
      case None => Fail(s, TokenCommitError)
      case Some(a) =>
        if a.fastForward then Fail(s.(constraint := Some(a.next)), UnexpectedFastForward)
        else s.(constraint := Some(a.next), acceptedStop := a.terminated, committed := s.committed + [token])
  }

  function CommitAll<M>(c: Config<M>, s: State<M>, tokens: seq<int>): State<M>
  {
    if tokens == [] then s else Commit(c, CommitAll(c, s, tokens[..|tokens| - 1]), tokens[|tokens| - 1])
  }

  predicate Succeeded<M>(s: State<M>) { !s.failed && s.acceptedStop }

  datatype Diagnostic = NoProblem | NotAccepted | Failure(code: Code)

  function Diagnose<M>(s: State<M>): Diagnostic
  {
    if s.firstFailure.Some? then Failure(s.firstFailure.value) else if s.acceptedStop && !s.failed then NoProblem else NotAccepted
  }

  // ---------------------------------------------------------------- copies

  /** A copy replays the committed tokens into what the factory makes. */
  function Copied<M>(c: Config<M>, s: State<M>, factoryWorks: bool): State<M>
  {
    var clone := if s.failed || !factoryWorks then None else Some(c.start);
    var replayed := CommitAll(c, Fresh(c, clone), s.committed);
    var marked := if s.failed then replayed.(failed := true, firstFailure := s.firstFailure) else replayed;
    if c.enforces then marked else marked.(acceptedStop := s.acceptedStop)
  }

  // ---------------------------------------------------------------- what a live state stands for

  /** The matcher's own run over tokens: nothing thrown, nothing inserted, and done only at the end. */
  function GrammarRun<M>(c: Config<M>, tokens: seq<int>): Option<(M, bool)>
  {
    if tokens == [] then Some((c.start, false))
    else
      var token := tokens[|tokens| - 1];
      match GrammarRun(c, tokens[..|tokens| - 1])
      case None => None
      case Some((m, terminated)) =>
        if terminated || !(0 <= token < c.vocabSize) then None
        else match c.matcher.advance(m, token)
          case None => None
          case Some(a) => if a.fastForward then None else Some((a.next, a.terminated))
  }

  predicate Accepts<M>(c: Config<M>, tokens: seq<int>) { GrammarRun(c, tokens).Some? && GrammarRun(c, tokens).value.1 }

  /** A live state is the replay of its tokens, which the matcher has accepted so far. */
  ghost predicate Sound<M>(c: Config<M>, s: State<M>)
  {
    && (s.failed <==> s.firstFailure.Some?)
    && (c.enforces && !s.failed ==>
          && s == CommitAll(c, Fresh(c, Some(c.start)), s.committed)
          && s.constraint.Some? && GrammarRun(c, s.committed) == Some((s.constraint.value, s.acceptedStop)))
    && (!c.enforces ==> s.committed == [])
  }

  lemma StartIsSound<M>(c: Config<M>, constraint: Option<M>)
    requires c.enforces ==> constraint == Some(c.start) || constraint.None?
    ensures Sound(c, Fresh(c, constraint))
  {
  }

  /** Replaying one token more is committing it. */
  lemma ReplayStep<M>(c: Config<M>, tokens: seq<int>, token: int)
    ensures CommitAll(c, Fresh(c, Some(c.start)), tokens + [token]) == Commit(c, CommitAll(c, Fresh(c, Some(c.start)), tokens), token)
  {
    assert (tokens + [token])[..|tokens|] == tokens;
  }

  lemma GrammarStep<M>(c: Config<M>, tokens: seq<int>, m: M, token: int, a: Advance<M>)
    requires GrammarRun(c, tokens) == Some((m, false)) && 0 <= token < c.vocabSize
    requires c.matcher.advance(m, token) == Some(a) && !a.fastForward
    ensures GrammarRun(c, tokens + [token]) == Some((a.next, a.terminated))
  {
    assert (tokens + [token])[..|tokens|] == tokens;
  }

  lemma CommitKeepsSound<M>(c: Config<M>, s: State<M>, token: int)
    requires Sound(c, s)
    ensures Sound(c, Commit(c, s, token))
  {
    var t := Commit(c, s, token);
    if c.enforces && !t.failed && !s.acceptedStop {
      ReplayStep(c, s.committed, token);
      GrammarStep(c, s.committed, s.constraint.value, token, c.matcher.advance(s.constraint.value, token).value);
    }
  }

  lemma MaskKeepsSound<M>(c: Config<M>, s: State<M>, count: nat)
    requires Sound(c, s)
    ensures Sound(c, AfterMask(c, s, count))
    ensures AfterMask(c, s, count) == s || AfterMask(c, s, count).failed
  {
  }

  // ---------------------------------------------------------------- copies cannot be told apart

  /** States no observer can tell apart: equal, or failed for the same reason, or free of a grammar. */
  ghost predicate Alike<M>(c: Config<M>, s: State<M>, t: State<M>)
  {
    || s == t
    || (s.failed && t.failed && s.firstFailure == t.firstFailure && s.firstFailure.Some?)
    || (!c.enforces && s.(constraint := None) == t.(constraint := None))
  }

  datatype Event = MaskFor(count: nat) | Token(token: int)

  function After<M>(c: Config<M>, s: State<M>, e: Event): State<M>
  {
    match e case MaskFor(count) => AfterMask(c, s, count) case Token(token) => Commit(c, s, token)
  }

  function AfterAll<M>(c: Config<M>, s: State<M>, events: seq<Event>): State<M>
  {
    if events == [] then s else After(c, AfterAll(c, s, events[..|events| - 1]), events[|events| - 1])
  }

  /** In every run a state that has not failed is the replay of its tokens, which the matcher has accepted so far. */
  lemma {:induction false} RunIsSound<M>(c: Config<M>, factoryWorks: bool, events: seq<Event>)
    ensures Sound(c, AfterAll(c, Fresh(c, if factoryWorks then Some(c.start) else None), events))
  {
    var start := Fresh(c, if factoryWorks then Some(c.start) else None);
    if events == [] {
      StartIsSound(c, if factoryWorks then Some(c.start) else None);
    } else {
      var n := |events| - 1;
      RunIsSound(c, factoryWorks, events[..n]);
      match events[n] {
        case MaskFor(count) => MaskKeepsSound(c, AfterAll(c, start, events[..n]), count);
        case Token(token) => CommitKeepsSound(c, AfterAll(c, start, events[..n]), token);
      }
    }
  }

  lemma AlikeStep<M>(c: Config<M>, s: State<M>, t: State<M>, e: Event)
    requires Alike(c, s, t)
    ensures Alike(c, After(c, s, e), After(c, t, e))
    ensures Succeeded(s) == Succeeded(t) && Diagnose(s) == Diagnose(t)
    ensures e.MaskFor? ==> Mask(c, s, e.count) == Mask(c, t, e.count)
  {
  }

  /** Whatever happens afterwards, both give the same masks, the same success and the same diagnosis. */
  lemma {:induction false} AlikeForever<M>(c: Config<M>, s: State<M>, t: State<M>, events: seq<Event>, count: nat)
    requires Alike(c, s, t)
    ensures var a, b := AfterAll(c, s, events), AfterAll(c, t, events);
            Alike(c, a, b) && Mask(c, a, count) == Mask(c, b, count) && Succeeded(a) == Succeeded(b) && Diagnose(a) == Diagnose(b)
  {
    if events != [] {
      AlikeForever(c, s, t, events[..|events| - 1], count);
      AlikeStep(c, AfterAll(c, s, events[..|events| - 1]), AfterAll(c, t, events[..|events| - 1]), events[|events| - 1]);
    }
    AlikeStep(c, AfterAll(c, s, events), AfterAll(c, t, events), MaskFor(count));
  }

  lemma {:induction false} FailedStays<M>(c: Config<M>, s: State<M>, tokens: seq<int>)
    requires s.failed
    ensures CommitAll(c, s, tokens) == s
  {
    if tokens != [] {
      FailedStays(c, s, tokens[..|tokens| - 1]);
    }
  }

  /** A copy cannot be told from its original exactly when the factory works or nothing depends on it. */
  lemma CopyIsAlike<M>(c: Config<M>, s: State<M>, factoryWorks: bool)
    requires Sound(c, s)
    ensures Alike(c, s, Copied(c, s, factoryWorks)) <==> factoryWorks || s.failed || !c.enforces
    ensures !Alike(c, s, Copied(c, s, factoryWorks)) ==> Diagnose(s) != Diagnose(Copied(c, s, factoryWorks))
  {
    if c.enforces {
      FailedStays(c, Fresh(c, None), s.committed);
    }
  }

  // ---------------------------------------------------------------- the object

  class GrammarSamplingState<M(!new)> {
    const c: Config<M>
    var constraint: Option<M>
    var committedTokens: seq<int>
    var failed: bool
    var acceptedStop: bool
    var firstFailure: Option<Code>

    function Value(): State<M>
      reads this
    {
      State(constraint, committedTokens, failed, acceptedStop, firstFailure)
    }

    constructor (c: Config<M>, constraint: Option<M>)
      ensures this.c == c && Value() == Fresh(c, constraint)
      ensures (c.enforces ==> constraint == Some(c.start) || constraint.None?) ==> Sound(c, Value())
    {
      this.c, this.constraint, committedTokens, acceptedStop := c, constraint, [], false;
      failed := c.enforces && constraint.None?;
      firstFailure := if c.enforces && constraint.None? then Some(ConstraintUnavailable) else None;
    }

    method Stop(code: Code)
      modifies this
      ensures Value() == Fail(old(Value()), code)
    {
      failed := true;
      if firstFailure.None? {
        firstFailure := Some(code);
      }
    }

    /** Bits of the matcher, stop alignment and prefix constraint, one pass each. */
    method ComputeWeights(bits: seq<bool>, count: nat) returns (values: seq<Weight>)
      requires Least(c.vocabSize, count) <= |bits|
      ensures values == Weights(c, bits, committedTokens, count)
    {
      values := seq(count, _ => Blocked);
      for i := 0 to count
        invariant |values| == count
        invariant forall k :: 0 <= k < i ==>
          values[k] == if k < c.vocabSize && bits[k] then (if k in c.whitespace then Penalised else Open) else Blocked
        invariant forall k :: i <= k < count ==> values[k] == Blocked
      {
        if i < c.vocabSize && bits[i] {
          values := values[i := if i in c.whitespace then Penalised else Open];
        }
      }
      ghost var first := values;
      if c.alignStops {
        for i := 0 to count
          invariant |values| == count
          invariant forall k :: 0 <= k < i ==> values[k] == if k in Excluded(c) then Blocked else first[k]
          invariant forall k :: i <= k < count ==> values[k] == first[k]
        {
          if i in Excluded(c) {
            values := values[i := Blocked];
          }
        }
      }
      ghost var second := values;
      if c.check.Some? {
        for i := 0 to count
          invariant |values| == count
          invariant forall k :: 0 <= k < i ==> values[k] == if c.candidate(k) && !c.check.value(committedTokens + [k]) then Blocked else second[k]
          invariant forall k :: i <= k < count ==> values[k] == second[k]
        {
          if !values[i].Blocked? && c.candidate(i) && !c.check.value(committedTokens + [i]) {
            values := values[i := Blocked];
          }
        }
      }
    }

    method MaskValues(count: nat) returns (values: seq<Weight>)
      modifies this
      ensures values == Mask(c, old(Value()), count) && Value() == AfterMask(c, old(Value()), count)
      ensures old(Sound(c, Value())) ==> Sound(c, Value())
    {
      if !c.enforces && !failed && !acceptedStop {
        return seq(count, _ => Open);
      }
      if acceptedStop && !failed {
        return OnlyToken(c.eos, count);
      }
      var code;
      if failed || constraint.None? {
        code := ConstraintUnavailable;
      } else {
        var bits := c.matcher.mask(constraint.value);
        if bits.None? {
          code := MaskComputeError;
        } else if Least(c.vocabSize, count) > |bits.value| {
          code := MaskWordCount;
        } else {
          values := ComputeWeights(bits.value, count);
          if !AllBlocked(values) {
            return;
          }
          code := MaskNoFiniteToken;
        }
      }
      Stop(code);
      values := OnlyToken(c.eos, count);
    }

    method CommitToken(token: int)
      modifies this
      ensures Value() == Commit(c, old(Value()), token)
      ensures old(Sound(c, Value())) ==> Sound(c, Value())
    {
      if Sound(c, Value()) {
        CommitKeepsSound(c, Value(), token);
      }
      if acceptedStop && !failed {
        if c.enforces && token != c.eos {
          Stop(UnexpectedPrefetch);
        }
        return;
      }
      if failed {
        return;
      }
      if !c.enforces {
        if !(0 <= token < c.vocabSize) {
          Stop(TokenBounds);
          return;
        }
        acceptedStop := token == c.eos || token in c.stops;
        return;
      }
      if constraint.None? {
        Stop(ConstraintUnavailable);
        return;
      }
      if !(0 <= token < c.vocabSize) {
        Stop(TokenBounds);
        return;
      }
      var result := c.matcher.advance(constraint.value, token);
      if result.None? {
        Stop(TokenCommitError);
        return;
      }
      constraint := Some(result.value.next);
      if result.value.fastForward {
        Stop(UnexpectedFastForward);
        return;
      }
      acceptedStop := result.value.terminated;
      committedTokens := committedTokens + [token];
    }

    method IndependentCopy(factoryWorks: bool) returns (copy: GrammarSamplingState<M>)
      ensures fresh(copy) && copy.c == c && copy.Value() == Copied(c, Value(), factoryWorks)
    {
      var clone := if failed || !factoryWorks then None else Some(c.start);
      copy := new GrammarSamplingState(c, clone);
      for i := 0 to |committedTokens|
        invariant copy.c == c && copy.Value() == CommitAll(c, Fresh(c, clone), committedTokens[..i])
        invariant Value() == old(Value())
      {
        assert committedTokens[..i + 1][..i] == committedTokens[..i];
        copy.CommitToken(committedTokens[i]);
      }
      assert committedTokens[..|committedTokens|] == committedTokens;
      if failed {
        copy.failed := true;
        copy.firstFailure := firstFailure;
      }
      if !c.enforces {
        copy.acceptedStop := acceptedStop;
      }
    }
  }
}
