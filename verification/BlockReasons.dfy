/**
 The reasons a block's attribution is given, said of the fields of the file and the operations
 (internal/historyattribution/model.go:408-586).
 */
module BlockReasons {
  import opened Wrappers
  import opened BlockAttribution

  // ---------------------------------------------------------------- what an operation is to a file

  predicate Unreadable(file: File, op: Operation) { SharesPath(file, op) && op.blocks.None? }

  predicate Comparable(file: File, op: Operation) { SharesPath(file, op) && op.blocks.Some? && SameChange(file, op) }

  predicate Mismatched(file: File, op: Operation) { SharesPath(file, op) && op.blocks.Some? && !SameChange(file, op) }

  /** A rename of the same old path to somewhere else, while another one leads elsewhere again. */
  predicate Competes(file: File, ops: seq<Operation>, op: Operation)
  {
    && file.rename && op.rename && op.oldPath == file.oldPath && op.path != file.path
    && exists k :: 0 <= k < |ops| && ops[k].blocks.Some? && ops[k].rename && ops[k].oldPath == file.oldPath && ops[k].path != op.path
  }

  predicate Has(file: File, b: Block, op: Operation) { Comparable(file, op) && b in op.blocks.value }

  predicate HasTwice(blocks: seq<Block>, b: Block) { exists i, j :: 0 <= i < j < |blocks| && blocks[i] == b && blocks[j] == b }

  predicate SharesSome(b: Block, blocks: seq<Block>) { exists k :: 0 <= k < |blocks| && SharesLine(b, blocks[k]) }

  // ---------------------------------------------------------------- the reasons

  ghost predicate Given(file: File, n: nat, ops: seq<Operation>, complete: bool, reason: Reason)
    requires n < |file.blocks|
  {
    var b := file.blocks[n];
    match reason
    case ParseFailed => !file.rename && exists k :: 0 <= k < |ops| && Unreadable(file, ops[k])
    case PartialMatch => exists k :: 0 <= k < |ops| && Comparable(file, ops[k]) && !Has(file, b, ops[k]) && SharesSome(b, ops[k].blocks.value)
    case Overlapping => HasTwice(file.blocks, b) || exists k :: 0 <= k < |ops| && Comparable(file, ops[k]) && HasTwice(ops[k].blocks.value, b)
    case RenameMultiple =>
      || (exists k :: 0 <= k < |ops| && Mismatched(file, ops[k]) && Competes(file, ops, ops[k]))
      || (file.rename && TwoHave(file, b, ops))
    case MultipleHistory => !file.rename && TwoHave(file, b, ops)
    case Rewritten => NoneHas(file, b, ops) && RewritingPair(file, b, ops)
    case RenameUnresolved =>
      || (file.rename && exists k :: 0 <= k < |ops| && Unreadable(file, ops[k]))
      || (exists k :: 0 <= k < |ops| && Mismatched(file, ops[k]) && !Competes(file, ops, ops[k]))
      || (file.rename && NothingSaid(file, b, ops))
    case Incomplete => !complete
    case _ => false
  }

  ghost predicate TwoHave(file: File, b: Block, ops: seq<Operation>)
  {
    exists i, j :: 0 <= i < j < |ops| && Has(file, b, ops[i]) && Has(file, b, ops[j])
  }

  ghost predicate NoneHas(file: File, b: Block, ops: seq<Operation>) { forall k :: 0 <= k < |ops| ==> !Has(file, b, ops[k]) }

  /** No operation has anything to do with the block, and nothing else speaks against it. */
  ghost predicate NothingSaid(file: File, b: Block, ops: seq<Operation>)
  {
    (forall k :: 0 <= k < |ops| ==> Unrelated(file, b, ops[k])) && !RewritingPair(file, b, ops) && HasOnce(file.blocks, b)
  }

  // ---------------------------------------------------------------- evidence by fields

  lemma TwoMappings(ops: seq<Operation>, op: Operation, oldPath: Option<Path>)
    requires op in ops && op.blocks.Some? && op.rename && op.oldPath == oldPath
    ensures |Mappings(ops, oldPath)| > 1 <==>
              exists k :: 0 <= k < |ops| && ops[k].blocks.Some? && ops[k].rename && ops[k].oldPath == oldPath && ops[k].path != op.path
  {
    var m := Mappings(ops, oldPath);
    var i :| 0 <= i < |ops| && ops[i] == op;
    assert op.path in m;
    if k :| 0 <= k < |ops| && ops[k].blocks.Some? && ops[k].rename && ops[k].oldPath == oldPath && ops[k].path != op.path {
      assert {op.path, ops[k].path} <= m;
      Smaller({op.path, ops[k].path}, m);
    }
    if |m| > 1 {
      var other := AnotherOne(m, op.path);
    }
  }

  lemma Smaller(a: set<Path>, b: set<Path>)
    requires a <= b
    ensures |a| <= |b|
  {
    assert b == a + (b - a);
  }

  lemma AnotherOne(m: set<Path>, p: Path) returns (q: Path)
    requires p in m && |m| > 1
    ensures q in m && q != p
  {
    assert |m - {p}| == |m| - 1;
    q :| q in m - {p};
  }

  lemma MatchCounts(b: Block, blocks: seq<Block>)
    ensures Positions(b, blocks) > 0 <==> b in blocks
    ensures Positions(b, blocks) > 1 <==> HasTwice(blocks, b)
  {
    NoPosition(b, blocks);
    OnePosition(b, blocks);
    assert b in blocks <==> !Lacks(blocks, b);
    TwiceOrOnce(blocks, b);
  }

  lemma TwiceOrOnce(blocks: seq<Block>, b: Block)
    ensures HasTwice(blocks, b) <==> !HasOnce(blocks, b) && !Lacks(blocks, b)
  {
    if !HasOnce(blocks, b) && !Lacks(blocks, b) {
      var i :| 0 <= i < |blocks| && blocks[i] == b;
      assert !HasOnlyAt(blocks, b, i);
      var j :| 0 <= j < |blocks| && j != i && blocks[j] == b;
      assert HasTwice(blocks, b) by {
        assert blocks[if i < j then i else j] == b && blocks[if i < j then j else i] == b;
      }
    }
    if i, j :| 0 <= i < j < |blocks| && blocks[i] == b && blocks[j] == b {
      forall k | 0 <= k < |blocks| ensures !HasOnlyAt(blocks, b, k) {
        assert k == i ==> j != k && blocks[j] == b;
      }
    }
  }

  /** What the evidence of an operation is, by the fields. */
  lemma EvidenceIs(file: File, b: Block, ops: seq<Operation>, op: Operation)
    requires op in ops
    ensures var e := EvidenceOf(file, b, ops, op);
            && (e.Unparsed? <==> Unreadable(file, op))
            && (e.Mismatch? <==> Mismatched(file, op))
            && (e.Mismatch? ==> e.reason == if Competes(file, ops, op) then RenameMultiple else RenameUnresolved)
            && (e.Compared? <==> Comparable(file, op))
            && (e.Compared? ==> e == Compared(Positions(b, op.blocks.value), Partial(b, op.blocks.value)))
  {
    RelevantSharesPath(file, op);
    if op.blocks.Some? && op.rename && op.oldPath == file.oldPath {
      TwoMappings(ops, op, file.oldPath);
    }
  }

  lemma PartialShares(b: Block, blocks: seq<Block>)
    requires b !in blocks
    ensures Partial(b, blocks) <==> SharesSome(b, blocks)
  {
    forall k | 0 <= k < |blocks| ensures Overlap(b, blocks[k]) <==> SharesLine(b, blocks[k]) {
      OverlapSharesLine(b, blocks[k]);
    }
  }

  /** The reason an operation gives on its own, by the fields. */
  ghost predicate Says(file: File, b: Block, ops: seq<Operation>, op: Operation, reason: Reason)
  {
    match reason
    case ParseFailed => !file.rename && Unreadable(file, op)
    case PartialMatch => Comparable(file, op) && !Has(file, b, op) && SharesSome(b, op.blocks.value)
    case Overlapping => Comparable(file, op) && HasTwice(op.blocks.value, b)
    case RenameMultiple => Mismatched(file, op) && Competes(file, ops, op)
    case RenameUnresolved => (file.rename && Unreadable(file, op)) || (Mismatched(file, op) && !Competes(file, ops, op))
    case _ => false
  }

  lemma ObjectsSays(file: File, b: Block, ops: seq<Operation>, op: Operation, reason: Reason)
    requires op in ops
    ensures Objects(file, EvidenceOf(file, b, ops, op), reason) <==> Says(file, b, ops, op, reason)
  {
    EvidenceIs(file, b, ops, op);
    if Comparable(file, op) {
      MatchCounts(b, op.blocks.value);
      if b !in op.blocks.value {
        PartialShares(b, op.blocks.value);
      }
    }
  }

  ghost predicate SomeSays(file: File, b: Block, ops: seq<Operation>, reason: Reason)
  {
    exists k :: 0 <= k < |ops| && Says(file, b, ops, ops[k], reason)
  }

  lemma SomeObjectsSays(file: File, b: Block, ops: seq<Operation>, reason: Reason)
    ensures SomeObjects(file, Evidences(file, b, ops), reason) <==> SomeSays(file, b, ops, reason)
  {
    var es := Evidences(file, b, ops);
    forall k | 0 <= k < |ops| ensures Objects(file, es[k], reason) <==> Says(file, b, ops, ops[k], reason) {
      ObjectsSays(file, b, ops, ops[k], reason);
    }
  }

  lemma ExactHas(file: File, b: Block, ops: seq<Operation>, k: nat)
    requires k < |ops|
    ensures IsExact(Evidences(file, b, ops)[k]) <==> Has(file, b, ops[k])
  {
    EvidenceIs(file, b, ops, ops[k]);
    if Comparable(file, ops[k]) {
      MatchCounts(b, ops[k].blocks.value);
    }
  }

  lemma ExactCounts(file: File, b: Block, ops: seq<Operation>)
    ensures ExactCount(Evidences(file, b, ops)) == 0 <==> NoneHas(file, b, ops)
    ensures ExactCount(Evidences(file, b, ops)) > 1 <==> TwoHave(file, b, ops)
  {
    var es := Evidences(file, b, ops);
    forall k | 0 <= k < |ops| ensures IsExact(es[k]) <==> Has(file, b, ops[k]) {
      ExactHas(file, b, ops, k);
    }
    NoExact(es);
    if ExactCount(es) == 1 {
      var k := OneExact(es);
    } else if ExactCount(es) > 1 {
      var i, j := TwoExact(es);
    }
  }

  lemma {:induction false} TwoExact(es: seq<Evidence>) returns (i: nat, j: nat)
    requires ExactCount(es) > 1
    ensures i < j < |es| && IsExact(es[i]) && IsExact(es[j])
  {
    var n := |es| - 1;
    if !IsExact(es[n]) {
      i, j := TwoExact(es[..n]);
    } else {
      NoExact(es[..n]);
      i :| 0 <= i < n && IsExact(es[..n][i]);
      j := n;
    }
  }

  /** Whether a reason is recorded before the last two checks, by the fields. */
  ghost predicate GivenEarly(file: File, n: nat, ops: seq<Operation>, reason: Reason)
    requires n < |file.blocks|
  {
    var b := file.blocks[n];
    || SomeSays(file, b, ops, reason)
    || (reason == Rewritten && NoneHas(file, b, ops) && RewritingPair(file, b, ops))
    || (reason == (if file.rename then RenameMultiple else MultipleHistory) && TwoHave(file, b, ops))
    || (reason == Overlapping && HasTwice(file.blocks, b))
  }

  lemma RecordedIsGiven(file: File, n: nat, ops: seq<Operation>, reason: Reason)
    requires n < |file.blocks|
    ensures Recorded(file, FindingsOf(file, file.blocks[n], ops), reason) <==> GivenEarly(file, n, ops, reason)
  {
    var b := file.blocks[n];
    SomeObjectsSays(file, b, ops, reason);
    ExactCounts(file, b, ops);
    MatchCounts(b, file.blocks);
  }

  lemma NothingEarly(file: File, n: nat, ops: seq<Operation>)
    requires n < |file.blocks| && NoneHas(file, file.blocks[n], ops)
    ensures (forall reason :: !GivenEarly(file, n, ops, reason)) <==> NothingSaid(file, file.blocks[n], ops)
  {
    var b := file.blocks[n];
    MatchCounts(b, file.blocks);
    TwiceOrOnce(file.blocks, b);
    assert b in file.blocks;
    forall k | 0 <= k < |ops|
      ensures Unrelated(file, b, ops[k]) <==> forall reason :: !Says(file, b, ops, ops[k], reason)
    {
      SilentIsUnrelated(file, b, ops, ops[k]);
    }
    if forall reason :: !GivenEarly(file, n, ops, reason) {
      assert !GivenEarly(file, n, ops, Rewritten) && !GivenEarly(file, n, ops, Overlapping);
      forall k, reason | 0 <= k < |ops| ensures !Says(file, b, ops, ops[k], reason) {
        assert !GivenEarly(file, n, ops, reason);
      }
    }
  }

  lemma SilentIsUnrelated(file: File, b: Block, ops: seq<Operation>, op: Operation)
    requires !Has(file, b, op)
    ensures Unrelated(file, b, op) <==> forall reason :: !Says(file, b, ops, op, reason)
  {
    if forall reason :: !Says(file, b, ops, op, reason) {
      assert !Says(file, b, ops, op, ParseFailed) && !Says(file, b, ops, op, RenameUnresolved);
      assert !Says(file, b, ops, op, RenameMultiple) && !Says(file, b, ops, op, PartialMatch);
    }
  }

  /** The reason of last resort: a rename that nothing else is said about. */
  lemma LastResort(file: File, n: nat, ops: seq<Operation>)
    requires n < |file.blocks|
    ensures var f := FindingsOf(file, file.blocks[n], ops);
            ExactCount(f.evidence) == 0 && NothingRecorded(file, f) <==> NothingSaid(file, file.blocks[n], ops)
  {
    var b := file.blocks[n];
    var f := FindingsOf(file, b, ops);
    ExactCounts(file, b, ops);
    forall other ensures Recorded(file, f, other) <==> GivenEarly(file, n, ops, other) {
      RecordedIsGiven(file, n, ops, other);
    }
    if NoneHas(file, b, ops) {
      NothingEarly(file, n, ops);
    } else {
      HolderSpeaks(file, b, ops);
    }
  }

  lemma HolderSpeaks(file: File, b: Block, ops: seq<Operation>)
    requires !NoneHas(file, b, ops)
    ensures !NothingSaid(file, b, ops)
  {
    var k :| 0 <= k < |ops| && Has(file, b, ops[k]);
    assert !Unrelated(file, b, ops[k]);
  }

  lemma EarlyIsGiven(file: File, n: nat, ops: seq<Operation>, complete: bool, reason: Reason)
    requires n < |file.blocks|
    ensures Given(file, n, ops, complete, reason) <==>
              GivenEarly(file, n, ops, reason)
              || (reason == RenameUnresolved && file.rename && NothingSaid(file, file.blocks[n], ops))
              || (reason == Incomplete && !complete)
  {
  }

  /** A block's attribution gives exactly the reasons that the fields of the file and the operations give. */
  lemma ReasonsByFields(file: File, n: nat, ops: seq<Operation>, complete: bool, r: Attribution, reason: Reason)
    requires n < |file.blocks| && Correct(file, n, ops, complete, r)
    ensures reason in r.reasons <==> Given(file, n, ops, complete, reason)
  {
    RecordedIsGiven(file, n, ops, reason);
    LastResort(file, n, ops);
    EarlyIsGiven(file, n, ops, complete, reason);
  }
}
