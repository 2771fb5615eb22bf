/**
 Attributing the blocks of a diff to recorded edit operations (internal/historyattribution/model.go:266-340, 346-586).
 A block's verdict is derived from what every recorded operation says about it.
 */
module BlockAttribution {
  import opened Wrappers
  import opened DiffBlocks

  type Id(==, !new)
  type Path(==, !new)

  type Block = seq<Edit>

  /** An operation after parsing; its blocks are missing when its diff could not be read. */
  datatype Operation = Operation(thread: Id, turn: Id, item: Id, index: nat, path: Path, oldPath: Option<Path>,
                                 rename: bool, order: int, blocks: Option<seq<Block>>)

  /** A current file; without blocks its diff was empty or could not be read. */
  datatype File = File(path: Path, oldPath: Option<Path>, rename: bool, binary: bool, blocks: seq<Block>)

  datatype Candidate = Candidate(thread: Id, turn: Id, item: Id, index: nat, exact: bool)

  datatype Reason =
    | RenameUnresolved | RenameMultiple | ParseFailed | PartialMatch | Overlapping
    | Rewritten | MultipleHistory | Incomplete | SplitMerge | UnsupportedChange

  datatype Status = Unmatched | Ambiguous | Matched | Failed

  datatype Attribution = Attribution(path: Path, block: int, status: Status, reasons: seq<Reason>, candidates: seq<Candidate>, singleTurn: bool)

  // ---------------------------------------------------------------- what one operation says

  predicate Relevant(file: File, op: Operation)
  {
    || op.path == file.path
    || (file.oldPath.Some? && (op.path == file.oldPath.value || op.oldPath == file.oldPath))
    || op.oldPath == Some(file.path)
  }

  /** Whether two blocks share an edited line; markers of a missing newline do not count. */
  predicate Overlap(a: Block, b: Block) { exists i :: 0 <= i < |a| && !a[i].NoNewline? && a[i] in b }

  /** How many of the blocks equal b. */
  function Positions(b: Block, blocks: seq<Block>): nat
  {
    if blocks == [] then 0 else Positions(b, blocks[..|blocks| - 1]) + if blocks[|blocks| - 1] == b then 1 else 0
  }

  predicate Partial(b: Block, blocks: seq<Block>) { exists k :: 0 <= k < |blocks| && blocks[k] != b && Overlap(b, blocks[k]) }

  /** The new paths that parsed renames record for the same old path. */
  function Mappings(ops: seq<Operation>, oldPath: Option<Path>): set<Path>
  {
    set k | 0 <= k < |ops| && ops[k].blocks.Some? && ops[k].rename && ops[k].oldPath == oldPath :: ops[k].path
  }

  datatype Evidence = Irrelevant | Unparsed | Mismatch(reason: Reason) | Compared(positions: nat, partial: bool)

  function EvidenceOf(file: File, b: Block, ops: seq<Operation>, op: Operation): Evidence
  {
    if !Relevant(file, op) then Irrelevant
    else if op.blocks.None? then Unparsed
    else if file.rename && (!op.rename || op.path != file.path || op.oldPath != file.oldPath) then
      if op.rename && op.oldPath == file.oldPath && op.path != file.path && |Mappings(ops, file.oldPath)| > 1
      then Mismatch(RenameMultiple) else Mismatch(RenameUnresolved)
    else if !file.rename && op.rename then Mismatch(RenameUnresolved)
    else Compared(Positions(b, op.blocks.value), Partial(b, op.blocks.value))
  }

  predicate IsExact(e: Evidence) { e.Compared? && e.positions > 0 }

  /** The reason an operation gives on its own. */
  predicate Objects(file: File, e: Evidence, reason: Reason)
  {
    match e
    case Irrelevant => false
    case Unparsed => reason == if file.rename then RenameUnresolved else ParseFailed
    case Mismatch(r) => reason == r
    case Compared(positions, partial) => (reason == PartialMatch && partial && positions == 0) || (reason == Overlapping && positions > 1)
  }

  // ---------------------------------------------------------------- rewriting pairs

  const EOF: string := [0 as char, 'E', 'O', 'F']

  /** The lines of one side of a block, with a sentinel for a missing final newline. */
  function Side(b: Block, side: Direction): seq<string>
  {
    if b == [] then []
    else Side(b[..|b| - 1], side) + match b[|b| - 1]
      case Removal(text) => if side == Minus then [text] else []
      case Addition(text) => if side == Plus then [text] else []
      case NoNewline(d) => if d == side then [EOF] else []
  }

  predicate RewrittenBy(current: Block, first: Block, last: Block)
  {
    && |Side(current, Minus)| > 0 && |Side(current, Plus)| > 0 && |Side(first, Plus)| > 0
    && Side(current, Minus) == Side(first, Minus) && Side(first, Plus) == Side(last, Minus) && Side(current, Plus) == Side(last, Plus)
  }

  predicate SomeRewriting(b: Block, first: seq<Block>, last: seq<Block>)
  {
    exists i, j :: 0 <= i < |first| && 0 <= j < |last| && RewrittenBy(b, first[i], last[j])
  }

  function BlocksOf(op: Operation): seq<Block> { if op.blocks.Some? then op.blocks.value else [] }

  /** Two edits of the file within one turn, in this order. */
  predicate OrderedPair(file: File, first: Operation, last: Operation)
  {
    && first.path == file.path && last.path == file.path && first.thread == last.thread && first.turn == last.turn
    && 0 < first.order < last.order
  }

  predicate Rewrites(file: File, b: Block, first: Operation, last: Operation)
  {
    OrderedPair(file, first, last) && SomeRewriting(b, BlocksOf(first), BlocksOf(last))
  }

  /** The search over all ordered pairs of operations. */
  predicate RewritingPair(file: File, b: Block, ops: seq<Operation>)
  {
    exists i, j :: 0 <= i < |ops| && 0 <= j < |ops| && Rewrites(file, b, ops[i], ops[j])
  }

  // ---------------------------------------------------------------- the verdict

  /** What every operation says about the block. */
  function Evidences(file: File, b: Block, ops: seq<Operation>): seq<Evidence>
  {
    seq(|ops|, k requires 0 <= k < |ops| => EvidenceOf(file, b, ops, ops[k]))
  }

  function ExactCount(es: seq<Evidence>): nat
  {
    if es == [] then 0 else ExactCount(es[..|es| - 1]) + if IsExact(es[|es| - 1]) then 1 else 0
  }

  predicate SomeObjects(file: File, es: seq<Evidence>, reason: Reason) { exists k :: 0 <= k < |es| && Objects(file, es[k], reason) }

  /** What the verdict rests on: the evidence, a rewriting pair, and how often the file has the block. */
  datatype Findings = Findings(evidence: seq<Evidence>, rewriting: bool, repeats: nat)

  function FindingsOf(file: File, b: Block, ops: seq<Operation>): Findings
  {
    Findings(Evidences(file, b, ops), RewritingPair(file, b, ops), Positions(b, file.blocks))
  }

  /** Whether a reason is recorded before the last two checks. */
  predicate Recorded(file: File, f: Findings, reason: Reason)
  {
    || SomeObjects(file, f.evidence, reason)
    || (reason == Rewritten && ExactCount(f.evidence) == 0 && f.rewriting)
    || (reason == (if file.rename then RenameMultiple else MultipleHistory) && ExactCount(f.evidence) > 1)
    || (reason == Overlapping && f.repeats > 1)
  }

  ghost predicate NothingRecorded(file: File, f: Findings) { forall reason :: !Recorded(file, f, reason) }

  /** Every reason a block's attribution is given. */
  ghost predicate Holds(file: File, f: Findings, complete: bool, reason: Reason)
  {
    || Recorded(file, f, reason)
    || (reason == RenameUnresolved && file.rename && ExactCount(f.evidence) == 0 && NothingRecorded(file, f))
    || (reason == Incomplete && !complete)
  }

  function CandidateOf(op: Operation, exact: bool): Candidate { Candidate(op.thread, op.turn, op.item, op.index, exact) }

  /** The operations with a common line, in order. */
  function Candidates(ops: seq<Operation>, es: seq<Evidence>): seq<Candidate>
    requires |ops| == |es|
  {
    if ops == [] then []
    else
      var n := |ops| - 1;
      Candidates(ops[..n], es[..n])
      + if es[n].Compared? && (es[n].positions > 0 || es[n].partial) then [CandidateOf(ops[n], es[n].positions > 0)] else []
  }

  /** Turns are told apart by thread and turn. */
  predicate OneTurn(candidates: seq<Candidate>)
  {
    |candidates| > 0 && forall k :: 0 <= k < |candidates| ==> candidates[k].thread == candidates[0].thread && candidates[k].turn == candidates[0].turn
  }

  predicate SomeUnparsed(es: seq<Evidence>) { Unparsed in es }

  function Verdict(file: File, f: Findings, reasons: seq<Reason>, candidates: seq<Candidate>): Status
  {
    if reasons != [] then (if SomeUnparsed(f.evidence) && !file.rename then Failed else Ambiguous)
    else if |candidates| == 1 && ExactCount(f.evidence) == 1 then Matched
    else Unmatched
  }

  ghost predicate Correct(file: File, n: nat, ops: seq<Operation>, complete: bool, r: Attribution)
    requires n < |file.blocks|
  {
    var f := FindingsOf(file, file.blocks[n], ops);
    && r.path == file.path && r.block == n
    && (forall reason :: reason in r.reasons <==> Holds(file, f, complete, reason))
    && r.candidates == Candidates(ops, f.evidence) && r.singleTurn == OneTurn(r.candidates)
    && r.status == Verdict(file, f, r.reasons, r.candidates)
  }

  // ---------------------------------------------------------------- matched, said without the bookkeeping

  predicate Silent(e: Evidence) { e.Irrelevant? || e == Compared(0, false) }

  ghost predicate AllSilentBut(es: seq<Evidence>, k: int)
  {
    forall j :: 0 <= j < |es| && j != k ==> Silent(es[j])
  }

  /** One operation holds the block exactly once, and no other relevant operation has anything to say. */
  ghost predicate UniqueExact(es: seq<Evidence>)
  {
    exists k :: 0 <= k < |es| && es[k].Compared? && es[k].positions == 1 && AllSilentBut(es, k)
  }

  lemma {:induction false} NoExact(es: seq<Evidence>)
    ensures ExactCount(es) == 0 <==> forall k :: 0 <= k < |es| ==> !IsExact(es[k])
  {
    if es != [] {
      NoExact(es[..|es| - 1]);
    }
  }

  lemma {:induction false} OneExact(es: seq<Evidence>) returns (k: nat)
    requires ExactCount(es) == 1
    ensures k < |es| && IsExact(es[k]) && forall j :: 0 <= j < |es| && j != k ==> !IsExact(es[j])
  {
    var n := |es| - 1;
    if IsExact(es[n]) {
      NoExact(es[..n]);
      k := n;
    } else {
      k := OneExact(es[..n]);
    }
  }

  lemma {:induction false} OnlyOneExact(es: seq<Evidence>, k: nat)
    requires k < |es| && IsExact(es[k]) && forall j :: 0 <= j < |es| && j != k ==> !IsExact(es[j])
    ensures ExactCount(es) == 1
  {
    var n := |es| - 1;
    if k == n {
      NoExact(es[..n]);
    } else {
      OnlyOneExact(es[..n], k);
    }
  }

  /** Evidence that gives no reason of its own is silent or exact. */
  lemma NoObjection(file: File, e: Evidence)
    ensures (forall reason :: !Objects(file, e, reason)) <==> Silent(e) || (e.Compared? && e.positions == 1)
  {
    if e.Unparsed? {
      assert Objects(file, e, if file.rename then RenameUnresolved else ParseFailed);
    } else if e.Mismatch? {
      assert Objects(file, e, e.reason);
    } else if e.Compared? {
      assert e.partial && e.positions == 0 ==> Objects(file, e, PartialMatch);
      assert e.positions > 1 ==> Objects(file, e, Overlapping);
    }
  }

  lemma {:induction false} OneCandidate(ops: seq<Operation>, es: seq<Evidence>, k: nat)
    requires |ops| == |es| && k < |es| && es[k].Compared? && es[k].positions == 1 && AllSilentBut(es, k)
    ensures Candidates(ops, es) == [CandidateOf(ops[k], true)]
  {
    var n := |es| - 1;
    if k == n {
      NoCandidates(ops[..n], es[..n]);
    } else {
      OneCandidate(ops[..n], es[..n], k);
    }
  }

  lemma {:induction false} NoCandidates(ops: seq<Operation>, es: seq<Evidence>)
    requires |ops| == |es| && forall j :: 0 <= j < |es| ==> Silent(es[j])
    ensures Candidates(ops, es) == []
  {
    if es != [] {
      NoCandidates(ops[..|es| - 1], es[..|es| - 1]);
    }
  }

  /** No reason holds and one operation is exact: the recorded evidence says the same without counting. */
  lemma QuietIsUnique(file: File, f: Findings, complete: bool)
    requires (forall reason :: !Holds(file, f, complete, reason)) && ExactCount(f.evidence) == 1
    ensures complete && UniqueExact(f.evidence) && f.repeats <= 1
  {
    var es := f.evidence;
    assert !Holds(file, f, complete, Incomplete) && !Holds(file, f, complete, Overlapping);
    var k := OneExact(es);
    forall j | 0 <= j < |es| ensures Silent(es[j]) || (es[j].Compared? && es[j].positions == 1) {
      forall reason ensures !Objects(file, es[j], reason) {
        assert !Holds(file, f, complete, reason);
      }
      NoObjection(file, es[j]);
    }
  }

  lemma UniqueIsQuiet(file: File, f: Findings, reason: Reason)
    requires UniqueExact(f.evidence) && f.repeats <= 1
    ensures !Holds(file, f, true, reason) && ExactCount(f.evidence) == 1
  {
    var es := f.evidence;
    var k :| 0 <= k < |es| && es[k].Compared? && es[k].positions == 1 && AllSilentBut(es, k);
    OnlyOneExact(es, k);
    forall j | 0 <= j < |es| ensures !Objects(file, es[j], reason) {
      assert Silent(es[j]) || (es[j].Compared? && es[j].positions == 1);
      NoObjection(file, es[j]);
    }
  }

  lemma SomeReason(reasons: seq<Reason>)
    ensures reasons == [] || exists reason :: reason in reasons
  {
    if reasons != [] {
      assert reasons[0] in reasons;
    }
  }

  lemma UniqueIsMatched(file: File, n: nat, ops: seq<Operation>, r: Attribution)
    requires n < |file.blocks| && Correct(file, n, ops, true, r)
    requires UniqueExact(Evidences(file, file.blocks[n], ops)) && Positions(file.blocks[n], file.blocks) == 1
    ensures r.status == Matched
  {
    var f := FindingsOf(file, file.blocks[n], ops);
    forall reason ensures reason !in r.reasons {
      UniqueIsQuiet(file, f, reason);
    }
    SomeReason(r.reasons);
    UniqueIsQuiet(file, f, Incomplete);
    var k :| 0 <= k < |f.evidence| && f.evidence[k].Compared? && f.evidence[k].positions == 1 && AllSilentBut(f.evidence, k);
    OneCandidate(ops, f.evidence, k);
  }

  /**
   A block is matched exactly when the history is complete, one relevant operation holds it exactly once,
   no other relevant operation has a line in common with it, fails to parse or is a mismatched rename, and
   the file has the block once.
   */
  lemma MatchedExactly(file: File, n: nat, ops: seq<Operation>, complete: bool, r: Attribution)
    requires n < |file.blocks| && Correct(file, n, ops, complete, r)
    ensures r.status == Matched <==>
              complete && UniqueExact(Evidences(file, file.blocks[n], ops)) && Positions(file.blocks[n], file.blocks) == 1
  {
    var b := file.blocks[n];
    HasItself(b, file.blocks, n);
    if r.status == Matched {
      assert forall reason :: reason !in r.reasons;
      QuietIsUnique(file, FindingsOf(file, b, ops), complete);
    }
    if complete && UniqueExact(Evidences(file, b, ops)) && Positions(b, file.blocks) == 1 {
      UniqueIsMatched(file, n, ops, r);
    }
  }

  lemma {:induction false} HasItself(b: Block, blocks: seq<Block>, n: nat)
    requires n < |blocks| && blocks[n] == b
    ensures Positions(b, blocks) >= 1
  {
    if n < |blocks| - 1 {
      HasItself(b, blocks[..|blocks| - 1], n);
    }
  }

  // ---------------------------------------------------------------- matched, said of the fields

  function Names(path: Path, oldPath: Option<Path>): set<Path> { {path} + if oldPath.Some? then {oldPath.value} else {} }

  /** The operation and the file have a path in common, old or new. */
  predicate SharesPath(file: File, op: Operation)
  {
    exists p :: p in Names(file.path, file.oldPath) && p in Names(op.path, op.oldPath)
  }

  /** A rename is compared with a rename between the same paths only, and nothing else with a rename. */
  predicate SameChange(file: File, op: Operation)
  {
    if file.rename then op.rename && op.path == file.path && op.oldPath == file.oldPath else !op.rename
  }

  predicate SharesLine(a: Block, b: Block) { exists line :: line in a && line in b && !line.NoNewline? }

  predicate HasOnce(blocks: seq<Block>, b: Block) { exists i :: 0 <= i < |blocks| && HasOnlyAt(blocks, b, i) }

  predicate HasOnlyAt(blocks: seq<Block>, b: Block, i: nat)
    requires i < |blocks|
  {
    blocks[i] == b && forall j :: 0 <= j < |blocks| && j != i ==> blocks[j] != b
  }

  predicate Lacks(blocks: seq<Block>, b: Block) { forall k :: 0 <= k < |blocks| ==> blocks[k] != b }

  /** The operation has the block exactly once. */
  predicate Holder(file: File, b: Block, op: Operation)
  {
    SharesPath(file, op) && op.blocks.Some? && SameChange(file, op) && HasOnce(op.blocks.value, b)
  }

  /** The operation is about other paths, or could be read and compared and has no line of the block. */
  predicate Unrelated(file: File, b: Block, op: Operation)
  {
    || !SharesPath(file, op)
    || (op.blocks.Some? && SameChange(file, op)
        && forall k :: 0 <= k < |op.blocks.value| ==> op.blocks.value[k] != b && !SharesLine(b, op.blocks.value[k]))
  }

  ghost predicate OneHolder(file: File, b: Block, ops: seq<Operation>)
  {
    exists k :: 0 <= k < |ops| && Holder(file, b, ops[k]) && forall j :: 0 <= j < |ops| && j != k ==> Unrelated(file, b, ops[j])
  }

  lemma RelevantSharesPath(file: File, op: Operation)
    ensures Relevant(file, op) <==> SharesPath(file, op)
  {
    if Relevant(file, op) {
      var p := if op.path == file.path || op.oldPath == Some(file.path) then file.path else file.oldPath.value;
      assert p in Names(file.path, file.oldPath) && p in Names(op.path, op.oldPath);
    }
  }

  lemma OverlapSharesLine(a: Block, b: Block)
    ensures Overlap(a, b) <==> SharesLine(a, b)
  {
    if line :| line in a && line in b && !line.NoNewline? {
      var i :| 0 <= i < |a| && a[i] == line;
    }
  }

  lemma {:induction false} NoPosition(b: Block, blocks: seq<Block>)
    ensures Positions(b, blocks) == 0 <==> Lacks(blocks, b)
  {
    if blocks != [] {
      NoPosition(b, blocks[..|blocks| - 1]);
    }
  }

  lemma {:induction false} OnePosition(b: Block, blocks: seq<Block>)
    ensures Positions(b, blocks) == 1 <==> HasOnce(blocks, b)
  {
    if blocks != [] {
      var n := |blocks| - 1;
      NoPosition(b, blocks[..n]);
      OnePosition(b, blocks[..n]);
      if blocks[n] != b {
        OnceBefore(b, blocks);
      } else {
        OnceLast(b, blocks);
      }
    }
  }

  lemma OnceBefore(b: Block, blocks: seq<Block>)
    requires blocks != [] && blocks[|blocks| - 1] != b
    ensures HasOnce(blocks, b) <==> HasOnce(blocks[..|blocks| - 1], b)
  {
    var n := |blocks| - 1;
    forall i | 0 <= i < n ensures HasOnlyAt(blocks, b, i) <==> HasOnlyAt(blocks[..n], b, i) {
      assert forall j :: 0 <= j < n ==> blocks[..n][j] == blocks[j];
    }
  }

  lemma OnceLast(b: Block, blocks: seq<Block>)
    requires blocks != [] && blocks[|blocks| - 1] == b
    ensures HasOnce(blocks, b) <==> Lacks(blocks[..|blocks| - 1], b)
  {
    var n := |blocks| - 1;
    assert forall i :: 0 <= i < n ==> blocks[..n][i] == blocks[i];
    if Lacks(blocks[..n], b) {
      assert HasOnlyAt(blocks, b, n);
    }
  }

  lemma EvidenceByFields(file: File, b: Block, ops: seq<Operation>, op: Operation)
    ensures var e := EvidenceOf(file, b, ops, op);
            (e.Compared? && e.positions == 1 <==> Holder(file, b, op)) && (Silent(e) <==> Unrelated(file, b, op))
  {
    RelevantSharesPath(file, op);
    if op.blocks.Some? {
      OnePosition(b, op.blocks.value);
      NoPosition(b, op.blocks.value);
      forall k | 0 <= k < |op.blocks.value| ensures Overlap(b, op.blocks.value[k]) <==> SharesLine(b, op.blocks.value[k]) {
        OverlapSharesLine(b, op.blocks.value[k]);
      }
    }
  }

  lemma UniqueByFields(file: File, b: Block, ops: seq<Operation>)
    ensures UniqueExact(Evidences(file, b, ops)) <==> OneHolder(file, b, ops)
  {
    var es := Evidences(file, b, ops);
    forall k | 0 <= k < |ops|
      ensures es[k].Compared? && es[k].positions == 1 <==> Holder(file, b, ops[k])
      ensures Silent(es[k]) <==> Unrelated(file, b, ops[k])
    {
      EvidenceByFields(file, b, ops, ops[k]);
    }
  }

  /**
   A block is matched exactly when the history is complete, the file has the block once, and one operation with a
   path of the file has it once, while every other operation either names none of the file's paths or could be
   compared and has no line of the block.
   */
  lemma MatchedByFields(file: File, n: nat, ops: seq<Operation>, complete: bool, r: Attribution)
    requires n < |file.blocks| && Correct(file, n, ops, complete, r)
    ensures r.status == Matched <==> complete && HasOnce(file.blocks, file.blocks[n]) && OneHolder(file, file.blocks[n], ops)
  {
    MatchedExactly(file, n, ops, complete, r);
    UniqueByFields(file, file.blocks[n], ops);
    OnePosition(file.blocks[n], file.blocks);
  }

  // ---------------------------------------------------------------- the loops

  method AddReason(reasons: seq<Reason>, reason: Reason) returns (r: seq<Reason>)
    ensures forall x :: x in r <==> x in reasons || x == reason
  {
    r := if reason in reasons then reasons else reasons + [reason];
  }

  method Overlaps(a: Block, b: Block) returns (found: bool)
    ensures found == Overlap(a, b)
  {
    for i := 0 to |a|
      invariant forall j :: 0 <= j < i ==> a[j].NoNewline? || a[j] !in b
    {
      if !a[i].NoNewline? && a[i] in b {
        return true;
      }
    }
    found := false;
  }

  method CompareBlocks(b: Block, blocks: seq<Block>) returns (positions: nat, partial: bool)
    ensures positions == Positions(b, blocks) && partial == Partial(b, blocks)
  {
    positions, partial := 0, false;
    for k := 0 to |blocks|
      invariant positions == Positions(b, blocks[..k])
      invariant partial == Partial(b, blocks[..k])
    {
      assert blocks[..k + 1][..k] == blocks[..k] && blocks[..k + 1][k] == blocks[k];
      assert forall j :: 0 <= j < k ==> blocks[..k + 1][j] == blocks[..k][j];
      if blocks[k] == b {
        positions := positions + 1;
      } else {
        var common := Overlaps(b, blocks[k]);
        partial := partial || common;
      }
    }
    assert blocks[..|blocks|] == blocks;
  }

  method Evaluate(file: File, b: Block, ops: seq<Operation>, op: Operation) returns (e: Evidence)
    ensures e == EvidenceOf(file, b, ops, op)
  {
    if !Relevant(file, op) {
      return Irrelevant;
    }
    if op.blocks.None? {
      return Unparsed;
    }
    if file.rename && (!op.rename || op.path != file.path || op.oldPath != file.oldPath) {
      var reason := RenameUnresolved;
      if op.rename && op.oldPath == file.oldPath && op.path != file.path {
        var mappings := Mappings(ops, file.oldPath);
        if |mappings| > 1 {
          reason := RenameMultiple;
        }
      }
      return Mismatch(reason);
    }
    if !file.rename && op.rename {
      return Mismatch(RenameUnresolved);
    }
    var positions, partial := CompareBlocks(b, op.blocks.value);
    e := Compared(positions, partial);
  }

  predicate StartsPair(file: File, b: Block, op: Operation)
  {
    op.path == file.path && op.order > 0 && exists k :: 0 <= k < |BlocksOf(op)| && Side(BlocksOf(op)[k], Minus) == Side(b, Minus)
  }

  predicate EndsPair(file: File, b: Block, op: Operation)
  {
    op.path == file.path && op.order > 0 && exists k :: 0 <= k < |BlocksOf(op)| && Side(BlocksOf(op)[k], Plus) == Side(b, Plus)
  }

  /** The operations that can begin a rewriting pair, and those that can end one. */
  method PairCandidates(file: File, b: Block, ops: seq<Operation>) returns (firsts: seq<Operation>, lasts: seq<Operation>)
    ensures forall op :: op in firsts <==> op in ops && StartsPair(file, b, op)
    ensures forall op :: op in lasts <==> op in ops && EndsPair(file, b, op)
  {
    firsts, lasts := [], [];
    for n := 0 to |ops|
      invariant forall op :: op in firsts <==> op in ops[..n] && StartsPair(file, b, op)
      invariant forall op :: op in lasts <==> op in ops[..n] && EndsPair(file, b, op)
    {
      assert ops[..n + 1] == ops[..n] + [ops[n]];
      if StartsPair(file, b, ops[n]) {
        firsts := firsts + [ops[n]];
      }
      if EndsPair(file, b, ops[n]) {
        lasts := lasts + [ops[n]];
      }
    }
    assert ops[..|ops|] == ops;
  }

  /** The pre-filters lose no rewriting pair. */
  lemma FiltersAreExact(file: File, b: Block, first: Operation, last: Operation)
    requires Rewrites(file, b, first, last)
    ensures StartsPair(file, b, first) && EndsPair(file, b, last) && |Side(b, Minus)| > 0 && |Side(b, Plus)| > 0
  {
    var i, j :| 0 <= i < |BlocksOf(first)| && 0 <= j < |BlocksOf(last)| && RewrittenBy(b, BlocksOf(first)[i], BlocksOf(last)[j]);
  }

  lemma PairIsFiltered(file: File, b: Block, ops: seq<Operation>, firsts: seq<Operation>, lasts: seq<Operation>)
    requires |Side(b, Minus)| > 0 && |Side(b, Plus)| > 0 ==>
               forall op :: op in ops ==> (StartsPair(file, b, op) ==> op in firsts) && (EndsPair(file, b, op) ==> op in lasts)
    ensures RewritingPair(file, b, ops) ==>
              exists k, l :: 0 <= k < |firsts| && 0 <= l < |lasts| && Rewrites(file, b, firsts[k], lasts[l])
  {
    if i, j :| 0 <= i < |ops| && 0 <= j < |ops| && Rewrites(file, b, ops[i], ops[j]) {
      FiltersAreExact(file, b, ops[i], ops[j]);
      assert ops[i] in ops && ops[j] in ops;
      var k :| 0 <= k < |firsts| && firsts[k] == ops[i];
      var l :| 0 <= l < |lasts| && lasts[l] == ops[j];
      assert Rewrites(file, b, firsts[k], lasts[l]);
    }
  }

  /** The filtered search finds a pair exactly when the search over all pairs does. */
  method FindRewriting(file: File, b: Block, ops: seq<Operation>) returns (found: bool)
    ensures found == RewritingPair(file, b, ops)
  {
    var firsts, lasts := [], [];
    if |Side(b, Minus)| > 0 && |Side(b, Plus)| > 0 {
      firsts, lasts := PairCandidates(file, b, ops);
    }
    found := false;
    for i := 0 to |firsts|
      invariant !found
      invariant forall k, l :: 0 <= k < i && 0 <= l < |lasts| ==> !Rewrites(file, b, firsts[k], lasts[l])
    {
      for j := 0 to |lasts|
        invariant forall l :: 0 <= l < j ==> !Rewrites(file, b, firsts[i], lasts[l])
      {
        if Rewrites(file, b, firsts[i], lasts[j]) {
          assert firsts[i] in ops && lasts[j] in ops;
          return true;
        }
      }
    }
    PairIsFiltered(file, b, ops, firsts, lasts);
  }

  ghost predicate Collected(file: File, es: seq<Evidence>, ops: seq<Operation>, reasons: seq<Reason>, candidates: seq<Candidate>, exactCount: nat)
    requires |es| == |ops|
  {
    && (forall reason :: reason in reasons <==> SomeObjects(file, es, reason))
    && candidates == Candidates(ops, es) && exactCount == ExactCount(es)
  }

  lemma ObjectsStep(file: File, es: seq<Evidence>, e: Evidence, reason: Reason)
    ensures SomeObjects(file, es + [e], reason) <==> SomeObjects(file, es, reason) || Objects(file, e, reason)
  {
    var more := es + [e];
    assert more[|es|] == e;
    assert forall k :: 0 <= k < |es| ==> more[k] == es[k];
    if k :| 0 <= k < |es| && Objects(file, es[k], reason) {
      assert Objects(file, more[k], reason);
    }
  }

  /** The reasons one operation gives are recorded. */
  method RecordEvidence(file: File, e: Evidence, before: seq<Reason>) returns (reasons: seq<Reason>)
    ensures forall reason :: reason in reasons <==> reason in before || Objects(file, e, reason)
  {
    reasons := before;
    match e
    case Irrelevant =>
    case Unparsed =>
      reasons := AddReason(reasons, if file.rename then RenameUnresolved else ParseFailed);
    case Mismatch(reason) =>
      reasons := AddReason(reasons, reason);
    case Compared(positions, partial) =>
      if partial && positions == 0 {
        reasons := AddReason(reasons, PartialMatch);
      }
      if positions > 1 {
        reasons := AddReason(reasons, Overlapping);
      }
  }

  /** What all operations say, one after the other. */
  method Collect(file: File, b: Block, ops: seq<Operation>)
    returns (reasons: seq<Reason>, candidates: seq<Candidate>, exactCount: nat, unknown: bool)
    ensures Collected(file, Evidences(file, b, ops), ops, reasons, candidates, exactCount)
    ensures unknown == SomeUnparsed(Evidences(file, b, ops))
  {
    reasons, candidates, exactCount, unknown := [], [], 0, false;
    ghost var es := [];
    for n := 0 to |ops|
      invariant |es| == n && es == Evidences(file, b, ops)[..n]
      invariant Collected(file, es, ops[..n], reasons, candidates, exactCount)
      invariant unknown == SomeUnparsed(es)
    {
      var op := ops[n];
      var e := Evaluate(file, b, ops, op);
      forall reason ensures SomeObjects(file, es + [e], reason) <==> SomeObjects(file, es, reason) || Objects(file, e, reason) {
        ObjectsStep(file, es, e, reason);
      }
      reasons := RecordEvidence(file, e, reasons);
      unknown := unknown || e.Unparsed?;
      if e.Compared? && (e.positions > 0 || e.partial) {
        candidates := candidates + [CandidateOf(op, e.positions > 0)];
      }
      if IsExact(e) {
        exactCount := exactCount + 1;
      }
      assert (es + [e])[..n] == es && ops[..n + 1][..n] == ops[..n];
      es := es + [e];
    }
    assert ops[..|ops|] == ops && es == Evidences(file, b, ops);
  }

  /** The reasons that do not depend on the rest, from what was collected. */
  method RecordAll(file: File, b: Block, ops: seq<Operation>, collected: seq<Reason>, exactCount: nat) returns (reasons: seq<Reason>)
    requires forall reason :: reason in collected <==> SomeObjects(file, Evidences(file, b, ops), reason)
    requires exactCount == ExactCount(Evidences(file, b, ops))
    ensures forall reason :: reason in reasons <==> Recorded(file, FindingsOf(file, b, ops), reason)
  {
    reasons := collected;
    if exactCount == 0 {
      var found := FindRewriting(file, b, ops);
      if found {
        reasons := AddReason(reasons, Rewritten);
      }
    }
    if exactCount > 1 {
      reasons := AddReason(reasons, if file.rename then RenameMultiple else MultipleHistory);
    }
    var repeats, _ := CompareBlocks(b, file.blocks);
    if repeats > 1 {
      reasons := AddReason(reasons, Overlapping);
    }
  }

  method CompareBlock(file: File, n: nat, ops: seq<Operation>, complete: bool) returns (r: Attribution)
    requires n < |file.blocks|
    ensures Correct(file, n, ops, complete, r)
  {
    var b := file.blocks[n];
    ghost var f := FindingsOf(file, b, ops);
    var reasons, candidates, exactCount, unknown := Collect(file, b, ops);
    reasons := RecordAll(file, b, ops, reasons, exactCount);
    SomeReason(reasons);
    assert |reasons| == 0 <==> NothingRecorded(file, f);
    if file.rename && exactCount == 0 && |reasons| == 0 {
      reasons := AddReason(reasons, RenameUnresolved);
    }
    if !complete {
      reasons := AddReason(reasons, Incomplete);
    }
    assert forall reason :: reason in reasons <==> Holds(file, f, complete, reason);
    var status := Unmatched;
    if |reasons| > 0 {
      status := Ambiguous;
      if unknown && !file.rename {
        status := Failed;
      }
    } else if |candidates| == 1 && exactCount == 1 {
      status := Matched;
    }
    r := Attribution(file.path, n, status, reasons, candidates, OneTurn(candidates));
  }
}
