/**
 A bounded thought before the response (mlx-helper/Sources/BoundedGeneration/NativeThoughtBudget.swift):
 tokens are counted until the close marker, which is forced at the limit; then the grammar takes over.
 */
module ThoughtBudget {
  import opened Wrappers
  import opened GrammarSampling

  datatype Problem = InvalidBudget | BudgetBeforeOpen | CloseBeforeOpen | EosBeforeClose

  datatype Settings<!M> = Settings(limit: Option<int>, opening: int, closing: int, eos: int, forceOpen: bool,
                                   promptHasOpen: bool, response: Config<M>)

  datatype Budget<M> = Budget(prefixTokens: nat, seenOpen: bool, inResponse: bool, closeScheduled: bool, forcedClose: bool,
                              problem: Option<Problem>, response: State<M>)

  predicate Failed<M>(b: Budget<M>) { b.problem.Some? }

  function Failing<M>(b: Budget<M>, p: Problem): Budget<M> { b.(problem := if b.problem.None? then Some(p) else b.problem) }

  function Begin<M>(z: Settings<M>, response: State<M>): Budget<M>
  {
    Budget(0, z.promptHasOpen, false, false, false, if z.limit.Some? && z.limit.value < 1 then Some(InvalidBudget) else None, response)
  }

  predicate AtLimit<M>(z: Settings<M>, b: Budget<M>) { z.limit.Some? && b.prefixTokens >= z.limit.value }

  /** No mask at all, or the weights of every token. */
  function MaskOf<M>(z: Settings<M>, b: Budget<M>, count: nat): Option<seq<Weight>>
  {
    if Failed(b) then Some(OnlyToken(z.eos, count))
    else if b.inResponse then (if z.response.enforces then Some(Mask(z.response, b.response, count)) else None)
    else if z.forceOpen && b.prefixTokens == 0 then Some(OnlyToken(z.opening, count))
    else if AtLimit(z, b) then Some(OnlyToken(if b.seenOpen then z.closing else z.eos, count))
    else None
  }

  function Masked<M>(z: Settings<M>, b: Budget<M>, count: nat): Budget<M>
  {
    if Failed(b) then b
    else if b.inResponse then (if z.response.enforces then b.(response := AfterMask(z.response, b.response, count)) else b)
    else if z.forceOpen && b.prefixTokens == 0 then b
    else if AtLimit(z, b) then (if b.seenOpen then b.(closeScheduled := true) else Failing(b, BudgetBeforeOpen))
    else b
  }

  function Committed<M>(z: Settings<M>, b: Budget<M>, token: int): Budget<M>
  {
    if Failed(b) then b
    else if b.inResponse then b.(response := Commit(z.response, b.response, token))
    else if token == z.closing then (if b.seenOpen then b.(forcedClose := b.closeScheduled, inResponse := true) else Failing(b, CloseBeforeOpen))
    else if token == z.eos then Failing(b, EosBeforeClose)
    else b.(prefixTokens := b.prefixTokens + 1, seenOpen := b.seenOpen || token == z.opening)
  }

  predicate Success<M>(b: Budget<M>) { !Failed(b) && b.inResponse && Succeeded(b.response) }

  datatype Report = Own(problem: Problem) | PrefixNotClosed | OfResponse(diagnostic: Diagnostic)

  function ReportOf<M>(b: Budget<M>): Report
  {
    if b.problem.Some? then Own(b.problem.value) else if b.inResponse then OfResponse(Diagnose(b.response)) else PrefixNotClosed
  }

  // ---------------------------------------------------------------- the object

  class NativeThoughtBudgetState<M(!new)> {
    const z: Settings<M>
    const response: GrammarSamplingState<M>
    var prefixTokens: nat
    var seenOpen: bool
    var inResponse: bool
    var closeScheduled: bool
    var forcedClose: bool
    var problem: Option<Problem>

    ghost predicate Valid()
      reads this, response
    {
      response.c == z.response
    }

    function Value(): Budget<M>
      reads this, response
    {
      Budget(prefixTokens, seenOpen, inResponse, closeScheduled, forcedClose, problem, response.Value())
    }

    constructor (z: Settings<M>, response: GrammarSamplingState<M>)
      requires response.c == z.response
      ensures Valid() && this.z == z && this.response == response && Value() == Begin(z, response.Value())
    {
      this.z, this.response := z, response;
      prefixTokens, seenOpen, inResponse, closeScheduled, forcedClose := 0, z.promptHasOpen, false, false, false;
      problem := if z.limit.Some? && z.limit.value < 1 then Some(InvalidBudget) else None;
    }

    method Stop(code: Problem)
      modifies this
      ensures Value() == Failing(old(Value()), code)
    {
      if problem.None? {
        problem := Some(code);
      }
    }

    method MaskValues(count: nat) returns (mask: Option<seq<Weight>>)
      requires Valid()
      modifies this, response
      ensures Valid() && mask == MaskOf(z, old(Value()), count) && Value() == Masked(z, old(Value()), count)
    {
      if problem.Some? {
        return Some(OnlyToken(z.eos, count));
      }
      if inResponse {
        if !z.response.enforces {
          return None;
        }
        var values := response.MaskValues(count);
        return Some(values);
      }
      if z.forceOpen && prefixTokens == 0 {
        return Some(OnlyToken(z.opening, count));
      }
      if z.limit.Some? && prefixTokens >= z.limit.value {
        if !seenOpen {
          Stop(BudgetBeforeOpen);
          return Some(OnlyToken(z.eos, count));
        }
        closeScheduled := true;
        return Some(OnlyToken(z.closing, count));
      }
      mask := None;
    }

    method CommitToken(token: int)
      requires Valid()
      modifies this, response
      ensures Valid() && Value() == Committed(z, old(Value()), token)
    {
      if problem.Some? {
        return;
      }
      if inResponse {
        response.CommitToken(token);
        return;
      }
      if token == z.closing {
        if !seenOpen {
          Stop(CloseBeforeOpen);
          return;
        }
        forcedClose, inResponse := closeScheduled, true;
        return;
      }
      if token == z.eos {
        Stop(EosBeforeClose);
        return;
      }
      prefixTokens := prefixTokens + 1;
      if token == z.opening {
        seenOpen := true;
      }
    }

    method IndependentCopy(factoryWorks: bool) returns (copy: NativeThoughtBudgetState<M>)
      requires Valid()
      ensures fresh(copy) && fresh(copy.response) && copy.Valid() && copy.z == z.(promptHasOpen := false)
      ensures copy.Value() == Value().(response := Copied(z.response, Value().response, factoryWorks))
    {
      var inner := response.IndependentCopy(factoryWorks);
      copy := new NativeThoughtBudgetState(z.(promptHasOpen := false), inner);
      copy.prefixTokens, copy.seenOpen, copy.inResponse := prefixTokens, seenOpen, inResponse;
      copy.closeScheduled, copy.forcedClose, copy.problem := closeScheduled, forcedClose, problem;
    }
  }

  // ---------------------------------------------------------------- runs

  function Reacted<M>(z: Settings<M>, b: Budget<M>, e: Event): Budget<M>
  {
    match e case MaskFor(count) => Masked(z, b, count) case Token(token) => Committed(z, b, token)
  }

  function ReachedFrom<M>(z: Settings<M>, b: Budget<M>, run: seq<Event>): Budget<M>
  {
    if run == [] then b else Reacted(z, ReachedFrom(z, b, run[..|run| - 1]), run[|run| - 1])
  }

  function Reached<M>(z: Settings<M>, run: seq<Event>): Budget<M> { ReachedFrom(z, Begin(z, Fresh(z.response, Some(z.response.start))), run) }

  function Permits(mask: Option<seq<Weight>>, token: int): bool { mask.None? || (0 <= token < |mask.value| && !mask.value[token].Blocked?) }

  /** Every token is one the mask just before it permits. */
  ghost predicate Respectful<M>(z: Settings<M>, run: seq<Event>)
  {
    run == [] ||
    (var init, last := run[..|run| - 1], run[|run| - 1];
     Respectful(z, init) &&
     (last.Token? ==>
        init != [] && init[|init| - 1].MaskFor?
        && Permits(MaskOf(z, Reached(z, init[..|init| - 1]), init[|init| - 1].count), last.token)))
  }

  function Tokens(run: seq<Event>): seq<int>
  {
    if run == [] then []
    else Tokens(run[..|run| - 1]) + match run[|run| - 1] case MaskFor(_) => [] case Token(token) => [token]
  }

  /** A prefix of other tokens that contains the opening marker, unless the prompt did. */
  ghost predicate Thought<M>(z: Settings<M>, prefix: seq<int>)
  {
    (forall i :: 0 <= i < |prefix| ==> prefix[i] != z.closing && prefix[i] != z.eos) && (z.promptHasOpen || z.opening in prefix)
  }

  predicate AllEos(tokens: seq<int>, eos: int) { forall i :: 0 <= i < |tokens| ==> tokens[i] == eos }

  /** The tokens of a run that has not failed, cut into thought, close marker and response. */
  ghost predicate Shape<M>(z: Settings<M>, b: Budget<M>, tokens: seq<int>, prefix: seq<int>, rest: seq<int>)
  {
    && |prefix| == b.prefixTokens
    && if !b.inResponse then
         tokens == prefix && rest == [] && (forall i :: 0 <= i < |prefix| ==> prefix[i] != z.closing && prefix[i] != z.eos)
         && b.seenOpen == (z.promptHasOpen || z.opening in prefix) && b.response == Fresh(z.response, Some(z.response.start))
       else
         tokens == prefix + [z.closing] + rest && Thought(z, prefix)
         && (z.response.enforces && !b.response.failed ==>
               exists extra :: rest == b.response.committed + extra && AllEos(extra, z.response.eos) && (extra != [] ==> b.response.acceptedStop))
  }

  lemma {:induction false} RunHasShape<M>(z: Settings<M>, run: seq<Event>) returns (prefix: seq<int>, rest: seq<int>)
    ensures var b := Reached(z, run);
            Sound(z.response, b.response) && (!Failed(b) ==> Shape(z, b, Tokens(run), prefix, rest))
  {
    if run == [] {
      prefix, rest := [], [];
      StartIsSound(z.response, Some(z.response.start));
    } else {
      var init, last := run[..|run| - 1], run[|run| - 1];
      var before := Reached(z, init);
      prefix, rest := RunHasShape(z, init);
      match last {
        case MaskFor(count) => MaskKeepsSound(z.response, before.response, count);
        case Token(token) => CommitKeepsSound(z.response, before.response, token);
      }
      if !Failed(Reacted(z, before, last)) && last.Token? {
        if before.inResponse {
          rest := RestGrows(z, before, rest, last.token);
          assert Tokens(run) == prefix + [z.closing] + rest;
        } else if last.token != z.closing {
          prefix := prefix + [last.token];
        } else {
          assert Tokens(run) == prefix + [z.closing] + [];
          assert [] == before.response.committed + [];
        }
      }
    }
  }

  lemma RestGrows<M>(z: Settings<M>, b: Budget<M>, rest: seq<int>, token: int) returns (more: seq<int>)
    requires Sound(z.response, b.response)
    requires z.response.enforces && !b.response.failed ==>
               exists extra :: rest == b.response.committed + extra && AllEos(extra, z.response.eos) && (extra != [] ==> b.response.acceptedStop)
    ensures more == rest + [token]
    ensures var s := Commit(z.response, b.response, token);
            z.response.enforces && !s.failed ==>
              exists extra :: more == s.committed + extra && AllEos(extra, z.response.eos) && (extra != [] ==> s.acceptedStop)
  {
    more := rest + [token];
    var s := Commit(z.response, b.response, token);
    if z.response.enforces && !s.failed {
      var extra :| rest == b.response.committed + extra && AllEos(extra, z.response.eos) && (extra != [] ==> b.response.acceptedStop);
      if b.response.acceptedStop {
        assert more == s.committed + (extra + [token]);
      } else {
        assert more == s.committed + [];
      }
    }
  }

  /**
   Success means the whole shape: a thought that was opened and holds no close or end marker, the close
   marker, a response the grammar accepts, and after it nothing but end tokens.
   */
  lemma SuccessIsAccepted<M>(z: Settings<M>, run: seq<Event>) returns (prefix: seq<int>, accepted: seq<int>, extra: seq<int>)
    requires Success(Reached(z, run)) && z.response.enforces
    ensures Tokens(run) == prefix + [z.closing] + (accepted + extra) && Thought(z, prefix) && |prefix| == Reached(z, run).prefixTokens
    ensures Accepts(z.response, accepted) && AllEos(extra, z.response.eos)
  {
    var rest;
    prefix, rest := RunHasShape(z, run);
    var b := Reached(z, run);
    accepted := b.response.committed;
    extra :| rest == b.response.committed + extra && AllEos(extra, z.response.eos) && (extra != [] ==> b.response.acceptedStop);
  }

  /** The response phase is never left. */
  lemma {:induction false} ResponseIsFinal<M>(z: Settings<M>, b: Budget<M>, run: seq<Event>)
    requires b.inResponse
    ensures ReachedFrom(z, b, run).inResponse && ReachedFrom(z, b, run).prefixTokens == b.prefixTokens
    ensures ReachedFrom(z, b, run).forcedClose == b.forcedClose
  {
    if run != [] {
      ResponseIsFinal(z, b, run[..|run| - 1]);
    }
  }

  // ---------------------------------------------------------------- the limit

  /** The close marker is scheduled only at the limit, and then nothing but it is counted. */
  ghost predicate Bounded<M>(z: Settings<M>, b: Budget<M>)
  {
    && (z.limit.Some? && z.limit.value < 1 ==> Failed(b) && b.prefixTokens == 0)
    && (z.limit.Some? && z.limit.value >= 1 ==> b.prefixTokens <= z.limit.value)
    && (b.closeScheduled ==> AtLimit(z, b))
    && (b.inResponse && !Failed(b) ==> b.forcedClose == AtLimit(z, b))
    && (b.forcedClose ==> b.inResponse)
  }

  lemma TokenIsBounded<M>(z: Settings<M>, before: Budget<M>, count: nat, token: int)
    requires Bounded(z, before) && Permits(MaskOf(z, before, count), token)
    ensures Bounded(z, Committed(z, Masked(z, before, count), token))
  {
    var weights := MaskOf(z, before, count);
    if weights.Some? && !Failed(before) && !before.inResponse {
      assert weights.value[token] == Open;
    }
  }

  /** As long as tokens respect their masks a thought never exceeds its limit, and it is cut off exactly there. */
  lemma {:induction false} ThoughtIsBounded<M>(z: Settings<M>, run: seq<Event>)
    requires Respectful(z, run)
    ensures Bounded(z, Reached(z, run))
  {
    if run != [] {
      var init, last := run[..|run| - 1], run[|run| - 1];
      ThoughtIsBounded(z, init);
      if last.Token? {
        var earlier, mask := init[..|init| - 1], init[|init| - 1];
        ThoughtIsBounded(z, earlier);
        TokenIsBounded(z, Reached(z, earlier), mask.count, last.token);
      }
    }
  }

  // ---------------------------------------------------------------- copies

  ghost predicate SameBudget<M>(z: Settings<M>, b: Budget<M>, d: Budget<M>)
  {
    b.(response := d.response) == d && Alike(z.response, b.response, d.response)
  }

  lemma SameCommitted<M>(z: Settings<M>, b: Budget<M>, d: Budget<M>, token: int)
    requires SameBudget(z, b, d)
    ensures SameBudget(z, Committed(z, b, token), Committed(z.(promptHasOpen := false), d, token))
  {
    AlikeStep(z.response, b.response, d.response, Token(token));
  }

  lemma SameMasked<M>(z: Settings<M>, b: Budget<M>, d: Budget<M>, count: nat)
    requires SameBudget(z, b, d)
    ensures SameBudget(z, Masked(z, b, count), Masked(z.(promptHasOpen := false), d, count))
  {
    AlikeStep(z.response, b.response, d.response, MaskFor(count));
  }

  lemma SameObserved<M>(z: Settings<M>, b: Budget<M>, d: Budget<M>, count: nat)
    requires SameBudget(z, b, d)
    ensures MaskOf(z, b, count) == MaskOf(z.(promptHasOpen := false), d, count)
    ensures Success(b) == Success(d) && ReportOf(b) == ReportOf(d)
  {
    AlikeStep(z.response, b.response, d.response, MaskFor(count));
  }

  lemma {:induction false} SameForever<M>(z: Settings<M>, b: Budget<M>, d: Budget<M>, run: seq<Event>)
    requires SameBudget(z, b, d)
    ensures SameBudget(z, ReachedFrom(z, b, run), ReachedFrom(z.(promptHasOpen := false), d, run))
  {
    if run != [] {
      var init := run[..|run| - 1];
      SameForever(z, b, d, init);
      var x, y := ReachedFrom(z, b, init), ReachedFrom(z.(promptHasOpen := false), d, init);
      match run[|run| - 1] {
        case MaskFor(count) => SameMasked(z, x, y, count);
        case Token(token) => SameCommitted(z, x, y, token);
      }
    }
  }

  /**
   With a working factory a copy made at any moment gives the same masks, success and report as the
   original for everything that can follow.
   */
  lemma CopyIsEquivalent<M>(z: Settings<M>, run: seq<Event>, later: seq<Event>, count: nat)
    ensures var b := Reached(z, run);
            var copy := b.(response := Copied(z.response, b.response, true));
            var x, y := ReachedFrom(z, b, later), ReachedFrom(z.(promptHasOpen := false), copy, later);
            && MaskOf(z, x, count) == MaskOf(z.(promptHasOpen := false), y, count)
            && Success(x) == Success(y) && ReportOf(x) == ReportOf(y)
  {
    var b := Reached(z, run);
    var copy := b.(response := Copied(z.response, b.response, true));
    var _, _ := RunHasShape(z, run);
    CopyIsAlike(z.response, b.response, true);
    SameForever(z, b, copy, later);
    SameObserved(z, ReachedFrom(z, b, later), ReachedFrom(z.(promptHasOpen := false), copy, later), count);
  }
}
