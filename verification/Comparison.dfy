/**
 The whole comparison (internal/historyattribution/model.go:347-602): every block of every current file
 gets an attribution, and then the cross-file evidence is weighed against the matches.
 */
module Comparison {
  import opened Wrappers
  import opened BlockAttribution
  import opened SplitMerge

  /** Which block of which file an attribution is about; a file without blocks has one of its own. */
  datatype Unit = Unit(file: nat, block: int)

  function FileUnits(file: File, f: nat, n: nat): seq<Unit>
    requires n <= |file.blocks|
  {
    if n == 0 then [] else FileUnits(file, f, n - 1) + [Unit(f, n - 1)]
  }

  /** One unit for each block of each file, in order. */
  function Units(files: seq<File>): seq<Unit>
  {
    if files == [] then []
    else
      var f := |files| - 1;
      Units(files[..f]) + if files[f].blocks == [] then [Unit(f, -1)] else FileUnits(files[f], f, |files[f].blocks|)
  }

  /** A file that cannot be compared; a rename may be real although its content is unknown. */
  function Unsupported(file: File): Attribution
  {
    if file.rename && !file.binary then Attribution(file.path, -1, Ambiguous, [RenameUnresolved], [], false)
    else Attribution(file.path, -1, Failed, [UnsupportedChange], [], false)
  }

  /** The attribution of a unit before the cross-file evidence. */
  ghost predicate First(files: seq<File>, ops: seq<Operation>, complete: bool, u: Unit, r: Attribution)
  {
    && u.file < |files|
    && if u.block < 0 then files[u.file].blocks == [] && r == Unsupported(files[u.file])
       else u.block < |files[u.file].blocks| && Correct(files[u.file], u.block, ops, complete, r)
  }

  ghost predicate Firsts(files: seq<File>, ops: seq<Operation>, complete: bool, units: seq<Unit>, results: seq<Attribution>)
  {
    |results| == |units| && forall r :: 0 <= r < |units| ==> First(files, ops, complete, units[r], results[r])
  }

  method CompareFiles(files: seq<File>, ops: seq<Operation>, complete: bool) returns (results: seq<Attribution>)
    ensures Firsts(files, ops, complete, Units(files), results)
  {
    results := [];
    for f := 0 to |files|
      invariant Firsts(files, ops, complete, Units(files[..f]), results)
    {
      ghost var before := Units(files[..f]);
      assert files[..f + 1][..f] == files[..f];
      if |files[f].blocks| == 0 {
        results := results + [Unsupported(files[f])];
        continue;
      }
      for n := 0 to |files[f].blocks|
        invariant Firsts(files, ops, complete, before + FileUnits(files[f], f, n), results)
      {
        var r := CompareBlock(files[f], n, ops, complete);
        assert before + FileUnits(files[f], f, n + 1) == before + FileUnits(files[f], f, n) + [Unit(f, n)];
        results := results + [r];
      }
    }
    assert files[..|files|] == files;
  }

  // ---------------------------------------------------------------- the operations that count

  /** An operation as recorded; without a diff it has no blocks either. */
  datatype Recorded = Recorded(operation: Operation, completed: bool, hasDiff: bool)

  function KeyOf(op: Operation): (Id, Id, Id, nat) { (op.thread, op.turn, op.item, op.index) }

  function KeysOf(ops: seq<Operation>): set<(Id, Id, Id, nat)> { set op | op in ops :: KeyOf(op) }

  /** Of the operations that pass the filter, the first one with each key. */
  function FirstOf(filter: Recorded -> bool, recorded: seq<Recorded>): seq<Operation>
  {
    if recorded == [] then []
    else
      var before, last := FirstOf(filter, recorded[..|recorded| - 1]), recorded[|recorded| - 1];
      if filter(last) && KeyOf(last.operation) !in KeysOf(before) then before + [last.operation] else before
  }

  /** Completed operations give candidates, and those of them with a diff that are no renames give fragments. */
  function Considered(recorded: seq<Recorded>): seq<Operation> { FirstOf((r: Recorded) => r.completed, recorded) }

  function Weighed(recorded: seq<Recorded>): seq<Operation>
  {
    FirstOf((r: Recorded) => r.completed && r.hasDiff && !r.operation.rename, recorded)
  }

  method DropRepeated(filter: Recorded -> bool, recorded: seq<Recorded>) returns (ops: seq<Operation>)
    ensures ops == FirstOf(filter, recorded)
  {
    ops := [];
    var seen := {};
    for i := 0 to |recorded|
      invariant ops == FirstOf(filter, recorded[..i]) && seen == KeysOf(ops)
    {
      assert recorded[..i + 1][..i] == recorded[..i];
      var r := recorded[i];
      if !filter(r) || KeyOf(r.operation) in seen {
        continue;
      }
      seen := seen + {KeyOf(r.operation)};
      ops := ops + [r.operation];
    }
    assert recorded[..|recorded|] == recorded;
  }

  ghost predicate KeysDistinct(recorded: seq<Recorded>)
  {
    forall i, j :: 0 <= i < j < |recorded| ==> KeyOf(recorded[i].operation) != KeyOf(recorded[j].operation)
  }

  /** An operation counts exactly when it passes the filter, as long as no key is repeated. */
  lemma {:induction false} FirstOfMembers(filter: Recorded -> bool, recorded: seq<Recorded>, op: Operation)
    requires KeysDistinct(recorded)
    ensures op in FirstOf(filter, recorded) <==> exists i :: 0 <= i < |recorded| && filter(recorded[i]) && recorded[i].operation == op
  {
    if recorded != [] {
      var n := |recorded| - 1;
      FirstOfMembers(filter, recorded[..n], op);
      assert forall i :: 0 <= i < n ==> recorded[..n][i] == recorded[i];
      NotBefore(filter, recorded[..n], recorded[n]);
    }
  }

  lemma {:induction false} NotBefore(filter: Recorded -> bool, recorded: seq<Recorded>, last: Recorded)
    requires forall i :: 0 <= i < |recorded| ==> KeyOf(recorded[i].operation) != KeyOf(last.operation)
    ensures KeyOf(last.operation) !in KeysOf(FirstOf(filter, recorded))
  {
    if recorded != [] {
      NotBefore(filter, recorded[..|recorded| - 1], last);
    }
  }

  function Operations(recorded: seq<Recorded>): seq<Operation>
  {
    seq(|recorded|, i requires 0 <= i < |recorded| => recorded[i].operation)
  }

  /** What a reader of the history delivers: completed operations, each once. */
  ghost predicate AsRead(recorded: seq<Recorded>)
  {
    && KeysDistinct(recorded)
    && forall i :: 0 <= i < |recorded| ==> recorded[i].completed && (!recorded[i].hasDiff ==> recorded[i].operation.blocks.None?)
  }

  /** Of what a reader delivers nothing is dropped. */
  lemma {:induction false} NothingRepeated(recorded: seq<Recorded>)
    requires AsRead(recorded)
    ensures Considered(recorded) == Operations(recorded)
  {
    if recorded != [] {
      var n := |recorded| - 1;
      NothingRepeated(recorded[..n]);
      NotBefore((r: Recorded) => r.completed, recorded[..n], recorded[n]);
      assert Operations(recorded) == Operations(recorded[..n]) + [recorded[n].operation];
    }
  }

  /** The fragments weighed are then those of all operations. */
  lemma AllWeighed(recorded: seq<Recorded>, p: Past)
    requires AsRead(recorded)
    ensures (exists k, n :: IsPastFrom(Weighed(recorded), k, n, p)) <==> exists k, n :: IsPastFrom(Operations(recorded), k, n, p)
  {
    var filter := (r: Recorded) => r.completed && r.hasDiff && !r.operation.rename;
    var all, weighed := Operations(recorded), Weighed(recorded);
    if k, n :| IsPastFrom(weighed, k, n, p) {
      FirstOfMembers(filter, recorded, weighed[k]);
      var i :| 0 <= i < |recorded| && filter(recorded[i]) && recorded[i].operation == weighed[k];
      assert IsPastFrom(all, i, n, p);
    }
    if k, n :| IsPastFrom(all, k, n, p) {
      FirstOfMembers(filter, recorded, all[k]);
      assert filter(recorded[k]);
      var i :| 0 <= i < |weighed| && weighed[i] == all[k];
      assert IsPastFrom(weighed, i, n, p);
    }
  }

  // ---------------------------------------------------------------- the fragments

  /** A one-sided block of a current file that is no rename, and an attribution with its path and number. */
  ghost predicate IsCurrent(files: seq<File>, results: seq<Attribution>, f: int, n: int, r: int)
  {
    && 0 <= f < |files| && !files[f].rename && 0 <= n < |files[f].blocks| && SingleDirection(ContentLines(files[f].blocks[n]))
    && 0 <= r < |results| && results[r].path == files[f].path && results[r].block == n
  }

  function CurrentAt(files: seq<File>, f: int, n: int, r: nat): Current
    requires 0 <= f < |files| && 0 <= n < |files[f].blocks|
  {
    Current(Fragment(files[f].path, ContentLines(files[f].blocks[n])), r)
  }

  ghost predicate IsCurrentFrom(files: seq<File>, results: seq<Attribution>, f: int, n: int, r: int, c: Current)
  {
    IsCurrent(files, results, f, n, r) && c == CurrentAt(files, f, n, r)
  }

  method CurrentFragments(files: seq<File>, results: seq<Attribution>) returns (current: seq<Current>)
    ensures forall c :: c in current <==> exists f, n, r :: IsCurrentFrom(files, results, f, n, r, c)
  {
    current := [];
    for f := 0 to |files|
      invariant forall c :: c in current <==> exists g, n, r :: g < f && IsCurrentFrom(files, results, g, n, r, c)
    {
      if files[f].rename {
        continue;
      }
      ghost var before := current;
      for n := 0 to |files[f].blocks|
        invariant forall c :: c in current <==> c in before || exists m, r :: m < n && IsCurrentFrom(files, results, f, m, r, c)
      {
        var found := BlockFragments(files, results, f, n);
        current := current + found;
      }
    }
  }

  /** The fragments of one block, one for each attribution with its path and number. */
  method BlockFragments(files: seq<File>, results: seq<Attribution>, f: nat, n: nat) returns (found: seq<Current>)
    requires f < |files| && n < |files[f].blocks| && !files[f].rename
    ensures forall c :: c in found <==> exists r :: IsCurrentFrom(files, results, f, n, r, c)
  {
    found := [];
    var lines := ContentLines(files[f].blocks[n]);
    if !SingleDirection(lines) {
      return;
    }
    for r := 0 to |results|
      invariant forall c :: c in found <==> exists q :: q < r && IsCurrentFrom(files, results, f, n, q, c)
    {
      if results[r].path == files[f].path && results[r].block == n {
        var fragment := Current(Fragment(files[f].path, lines), r);
        assert IsCurrentFrom(files, results, f, n, r, fragment);
        found := found + [fragment];
      }
    }
  }

  /** A one-sided block of a readable operation that is no rename. */
  ghost predicate IsPast(ops: seq<Operation>, k: int, n: int)
  {
    && 0 <= k < |ops| && !ops[k].rename && ops[k].blocks.Some? && 0 <= n < |ops[k].blocks.value|
    && SingleDirection(ContentLines(ops[k].blocks.value[n]))
  }

  function PastAt(ops: seq<Operation>, k: int, n: int): Past
    requires 0 <= k < |ops| && ops[k].blocks.Some? && 0 <= n < |ops[k].blocks.value|
  {
    Past(Fragment(ops[k].path, ContentLines(ops[k].blocks.value[n])), CandidateOf(ops[k], false))
  }

  ghost predicate IsPastFrom(ops: seq<Operation>, k: int, n: int, p: Past) { IsPast(ops, k, n) && p == PastAt(ops, k, n) }

  method PastFragments(ops: seq<Operation>) returns (history: seq<Past>)
    ensures forall p :: p in history <==> exists k, n :: IsPastFrom(ops, k, n, p)
  {
    history := [];
    for k := 0 to |ops|
      invariant forall p :: p in history <==> exists j, n :: j < k && IsPastFrom(ops, j, n, p)
    {
      if ops[k].rename || ops[k].blocks.None? {
        continue;
      }
      ghost var before := history;
      for n := 0 to |ops[k].blocks.value|
        invariant forall p :: p in history <==> p in before || exists m :: m < n && IsPastFrom(ops, k, m, p)
      {
        var lines := ContentLines(ops[k].blocks.value[n]);
        if SingleDirection(lines) {
          var past := Past(Fragment(ops[k].path, lines), CandidateOf(ops[k], false));
          assert IsPastFrom(ops, k, n, past);
          history := history + [past];
        }
      }
    }
  }

  ghost predicate AreSides(files: seq<File>, ops: seq<Operation>, results: seq<Attribution>, s: Sides)
  {
    && (forall c :: c in s.current <==> exists f, n, r :: IsCurrentFrom(files, results, f, n, r, c))
    && (forall p :: p in s.history <==> exists k, n :: IsPastFrom(ops, k, n, p))
  }

  ghost predicate Compared(files: seq<File>, recorded: seq<Recorded>, complete: bool, firsts: seq<Attribution>, s: Sides,
                           results: seq<Attribution>)
  {
    && Firsts(files, Considered(recorded), complete, Units(files), firsts) && AreSides(files, Weighed(recorded), firsts, s)
    && |results| == |firsts| && forall r :: 0 <= r < |results| ==> Doubted(s, firsts[r], results[r], r)
  }

  method Compare(files: seq<File>, recorded: seq<Recorded>, complete: bool) returns (results: seq<Attribution>)
    ensures exists firsts, s {:trigger Compared(files, recorded, complete, firsts, s, results)} ::
              Compared(files, recorded, complete, firsts, s, results)
  {
    var ops := DropRepeated((r: Recorded) => r.completed, recorded);
    results := CompareFiles(files, ops, complete);
    ghost var firsts := results;
    var current := CurrentFragments(files, results);
    var weighed := DropRepeated((r: Recorded) => r.completed && r.hasDiff && !r.operation.rename, recorded);
    var history := PastFragments(weighed);
    var s := Sides(current, history);
    assert AreSides(files, Weighed(recorded), firsts, s);
    assert forall i :: 0 <= i < |current| ==> current[i] in current;
    assert forall i :: 0 <= i < |history| ==> history[i] in history;
    results := MarkSplitMergeEvidence(s, results);
    assert Compared(files, recorded, complete, firsts, s, results);
  }

  /**
   In the end a block is matched exactly when the history is complete, one relevant operation holds it
   exactly once while no other says anything, the file has it once, and no pair of fragments in different
   paths suggests that content was split or merged.
   */
  lemma FinallyMatched(files: seq<File>, recorded: seq<Recorded>, complete: bool, firsts: seq<Attribution>, s: Sides,
                       results: seq<Attribution>, r: nat)
    requires Compared(files, recorded, complete, firsts, s, results) && r < |results|
    ensures var u, ops := Units(files)[r], Considered(recorded);
            results[r].status == Matched <==>
              && u.block >= 0 && complete && UniqueExact(Evidences(files[u.file], files[u.file].blocks[u.block], ops))
              && Positions(files[u.file].blocks[u.block], files[u.file].blocks) == 1
              && Unopposed(s, r)
  {
    var u := Units(files)[r];
    assert First(files, Considered(recorded), complete, u, firsts[r]);
    if u.block >= 0 {
      MatchedExactly(files[u.file], u.block, Considered(recorded), complete, firsts[r]);
    }
  }
}
