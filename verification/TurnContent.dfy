/**
 What the reader of a turn reports (internal/historyattribution/history.go:416-536), said of the entries the
 server sent: every item is taken at its first entry, every completed edit that concerns a selected path and
 whose diff may be kept becomes one operation, and the outcome holds nothing else.
 */
module TurnContent {
  import opened Wrappers
  import opened TurnReader

  // ---------------------------------------------------------------- entries

  /** No earlier entry has the same item. */
  ghost predicate First(es: seq<Entry>, i: nat)
    requires i < |es|
  {
    forall j :: 0 <= j < i ==> es[j].id != es[i].id
  }

  ghost function FirstOnes(es: seq<Entry>, n: nat): set<int>
    requires n <= |es|
  {
    set j | 0 <= j < n && First(es, j)
  }

  /** How many items the first n entries hold. */
  ghost function Items(es: seq<Entry>, n: nat): nat
    requires n <= |es|
  {
    |FirstOnes(es, n)|
  }

  /** The entry names the turn and an item, and repeats the item as it was. */
  ghost predicate Fine(head: Head, es: seq<Entry>, i: nat)
    requires i < |es|
  {
    Named(head, es[i]) && forall j :: 0 <= j < i && es[j].id == es[i].id ==> es[j].content == es[i].content
  }

  predicate Named(head: Head, e: Entry) { e.turn == head.turn && e.id.Some? }

  ghost predicate Clean(head: Head, es: seq<Entry>) { forall i :: 0 <= i < |es| ==> Fine(head, es, i) }

  // ---------------------------------------------------------------- edits

  /** The edit concerns a selected path: its own, or either end of a move. A rename without a move is not usable. */
  predicate Concerns(scope: Scope, e: Edit)
  {
    && e.path.Some?
    && match e.moved
       case None => !e.kind.Rename? && e.path.value in scope.targets
       case Some(target) => target.Some? && (target.value in scope.targets || e.path.value in scope.targets)
  }

  predicate Safe(scope: Scope, e: Edit) { e.diff.Some? ==> scope.safe(e.diff.value) }

  /** The operation says what the edit did. */
  predicate Describes(op: Operation, e: Edit)
  {
    && op.diff == e.diff
    && match e.moved
       case None => Some(op.path) == e.path && op.oldPath == None && op.kind == e.kind
       case Some(target) => Some(op.path) == target && op.oldPath == e.path && op.kind == Rename
  }

  /** The operation is the one of edit k of an item. */
  ghost predicate FromEdit(scope: Scope, head: Head, item: Id, order: nat, edits: seq<Edit>, k: nat, op: Operation)
  {
    && k < |edits| && Concerns(scope, edits[k]) && Safe(scope, edits[k]) && Describes(op, edits[k])
    && op.key == Key(head.thread, head.turn, item, k) && op.order == order
  }

  ghost predicate FromEdits(scope: Scope, head: Head, item: Id, order: nat, edits: seq<Edit>, n: nat, op: Operation)
  {
    exists k :: 0 <= k < n && FromEdit(scope, head, item, order, edits, k, op)
  }

  predicate IndexedIn(ops: seq<Operation>) { forall a, b :: 0 <= a < b < |ops| ==> ops[a].key.index < ops[b].key.index }

  /** The operations of the first n edits, in their order. */
  ghost predicate EditsGive(scope: Scope, head: Head, item: Id, order: nat, edits: seq<Edit>, n: nat, ops: seq<Operation>)
  {
    IndexedIn(ops) && forall op :: op in ops <==> FromEdits(scope, head, item, order, edits, n, op)
  }

  /** Edits that concern a selected path, with a diff that may not be kept. */
  ghost function UnsafeOf(scope: Scope, edits: seq<Edit>, n: nat): set<int>
    requires n <= |edits|
  {
    set k | 0 <= k < n && Concerns(scope, edits[k]) && !Safe(scope, edits[k])
  }

  lemma SelectedConcerns(scope: Scope, head: Head, item: Id, order: nat, edits: seq<Edit>, k: nat)
    requires k < |edits|
    ensures Selected(scope, edits[k]) <==> Concerns(scope, edits[k])
    ensures Selected(scope, edits[k]) && Safe(scope, edits[k]) ==>
              forall op :: FromEdit(scope, head, item, order, edits, k, op) <==> op == OperationOf(head, item, order, k, edits[k])
  {
  }

  lemma UnsafeStep(scope: Scope, edits: seq<Edit>, n: nat)
    requires n < |edits|
    ensures |UnsafeOf(scope, edits, n + 1)| == |UnsafeOf(scope, edits, n)| + if Concerns(scope, edits[n]) && !Safe(scope, edits[n]) then 1 else 0
  {
    assert UnsafeOf(scope, edits, n + 1) == UnsafeOf(scope, edits, n) + if Concerns(scope, edits[n]) && !Safe(scope, edits[n]) then {n} else {};
  }

  /** Nothing of the item from edit n on has been seen. */
  predicate Unseen(item: Id, n: nat, seen: set<Key>) { forall k :: k in seen && k.item == item ==> k.index < n }

  /** The readings differ only in operations, drops, and keys of the item. */
  predicate OnlyEdits(item: Id, r: Reading, s: Reading)
  {
    && s.(operations := r.operations, dropped := r.dropped, seen := r.seen) == r
    && forall k :: k in s.seen ==> k in r.seen || k.item == item
  }

  /** What the first n edits of an item add to a reading. */
  ghost predicate EditsAdd(scope: Scope, head: Head, item: Id, edits: seq<Edit>, n: nat, r: Reading, s: Reading, added: seq<Operation>)
    requires n <= |edits|
  {
    && OnlyEdits(item, r, s) && Unseen(item, n, s.seen)
    && s.operations == r.operations + added && EditsGive(scope, head, item, r.order, edits, n, added)
    && s.dropped == r.dropped + |UnsafeOf(scope, edits, n)|
  }

  lemma FromEditsStep(scope: Scope, head: Head, item: Id, order: nat, edits: seq<Edit>, n: nat, op: Operation)
    ensures FromEdits(scope, head, item, order, edits, n + 1, op) <==>
              FromEdits(scope, head, item, order, edits, n, op) || FromEdit(scope, head, item, order, edits, n, op)
  {
  }

  lemma GiveNothing(scope: Scope, head: Head, item: Id, order: nat, edits: seq<Edit>, n: nat, ops: seq<Operation>)
    requires EditsGive(scope, head, item, order, edits, n, ops)
    requires forall op :: !FromEdit(scope, head, item, order, edits, n, op)
    ensures EditsGive(scope, head, item, order, edits, n + 1, ops)
  {
    forall op ensures op in ops <==> FromEdits(scope, head, item, order, edits, n + 1, op) {
      FromEditsStep(scope, head, item, order, edits, n, op);
    }
  }

  lemma GiveOne(scope: Scope, head: Head, item: Id, order: nat, edits: seq<Edit>, n: nat, ops: seq<Operation>, last: Operation)
    requires EditsGive(scope, head, item, order, edits, n, ops)
    requires forall op :: FromEdit(scope, head, item, order, edits, n, op) <==> op == last
    ensures EditsGive(scope, head, item, order, edits, n + 1, ops + [last])
  {
    forall op ensures op in ops + [last] <==> FromEdits(scope, head, item, order, edits, n + 1, op) {
      FromEditsStep(scope, head, item, order, edits, n, op);
    }
    forall a | 0 <= a < |ops| ensures ops[a].key.index < last.key.index {
      assert ops[a] in ops && FromEdits(scope, head, item, order, edits, n, ops[a]);
      assert FromEdit(scope, head, item, order, edits, n, last);
    }
  }

  lemma EditTaken(scope: Scope, head: Head, item: Id, edits: seq<Edit>, n: nat, r: Reading, s: Reading, added: seq<Operation>)
    returns (more: seq<Operation>)
    requires n < |edits| && EditsAdd(scope, head, item, edits, n, r, s, added)
    ensures EditsAdd(scope, head, item, edits, n + 1, r, TakeEdit(scope, head, item, n, edits[n], s), more)
  {
    SelectedConcerns(scope, head, item, r.order, edits, n);
    UnsafeStep(scope, edits, n);
    more := added;
    if Concerns(scope, edits[n]) && Safe(scope, edits[n]) {
      more := added + [OperationOf(head, item, r.order, n, edits[n])];
      GiveOne(scope, head, item, r.order, edits, n, added, OperationOf(head, item, r.order, n, edits[n]));
    } else {
      GiveNothing(scope, head, item, r.order, edits, n, added);
    }
  }

  lemma EditsTaken(scope: Scope, head: Head, item: Id, edits: seq<Edit>, r: Reading) returns (added: seq<Operation>)
    requires Unseen(item, 0, r.seen)
    ensures EditsAdd(scope, head, item, edits, |edits|, r, TakeEdits(scope, head, item, edits, |edits|, r), added)
  {
    added := [];
    for n := 0 to |edits|
      invariant EditsAdd(scope, head, item, edits, n, r, TakeEdits(scope, head, item, edits, n, r), added)
    {
      added := EditTaken(scope, head, item, edits, n, r, TakeEdits(scope, head, item, edits, n, r), added);
    }
  }

  // ---------------------------------------------------------------- what a turn holds

  /** The operation is that of an edit in entry i: a completed file change, and the first entry of its item. */
  ghost predicate FromEntry(scope: Scope, head: Head, es: seq<Entry>, i: nat, op: Operation)
  {
    && i < |es| && First(es, i) && es[i].id.Some? && es[i].content.FileChange? && es[i].content.completed
    && FromEdits(scope, head, es[i].id.value, Items(es, i + 1), es[i].content.edits, |es[i].content.edits|, op)
  }

  ghost predicate FromEntries(scope: Scope, head: Head, es: seq<Entry>, n: nat, op: Operation)
  {
    exists i :: 0 <= i < n && FromEntry(scope, head, es, i, op)
  }

  predicate Before(a: Operation, b: Operation) { a.order < b.order || (a.order == b.order && a.key.index < b.key.index) }

  predicate InOrder(ops: seq<Operation>) { forall a, b :: 0 <= a < b < |ops| ==> Before(ops[a], ops[b]) }

  /** Exactly the operations of the edits, by item and then by edit. */
  ghost predicate HoldsOperations(scope: Scope, head: Head, es: seq<Entry>, ops: seq<Operation>)
  {
    InOrder(ops) && forall op :: op in ops <==> FromEntries(scope, head, es, |es|, op)
  }

  /** The command is the one in entry i. */
  ghost predicate RanIn(es: seq<Entry>, i: nat, c: Executed)
  {
    i < |es| && First(es, i) && es[i].content == Command(Some(c.mention)) && es[i].id == Some(c.item) && c.order == Items(es, i + 1)
  }

  ghost predicate RanInSome(es: seq<Entry>, n: nat, c: Executed) { exists i :: 0 <= i < n && RanIn(es, i, c) }

  ghost predicate HoldsCommands(es: seq<Entry>, commands: seq<Executed>)
  {
    && (forall a, b :: 0 <= a < b < |commands| ==> commands[a].order < commands[b].order)
    && forall c :: c in commands <==> RanInSome(es, |es|, c)
  }

  ghost predicate FinalIn(es: seq<Entry>, i: nat)
    requires i < |es|
  {
    First(es, i) && es[i].content.Message? && es[i].content.final
  }

  /** The last final message. */
  ghost predicate HoldsFinal(es: seq<Entry>, final: Option<Final>)
  {
    if final.None? then forall i :: 0 <= i < |es| ==> !FinalIn(es, i)
    else exists i :: 0 <= i < |es| && FinalAt(es, i, final.value)
  }

  ghost predicate FinalAt(es: seq<Entry>, i: nat, f: Final)
    requires i < |es|
  {
    && FinalIn(es, i) && f.text == es[i].content.text && es[i].id == Some(f.item) && f.order == Items(es, i + 1)
    && forall j :: i < j < |es| ==> !FinalIn(es, j)
  }

  /** How many edits of the first n entries concern a selected path with a diff that may not be kept. */
  ghost function Unsafe(scope: Scope, es: seq<Entry>, n: nat): nat
    requires n <= |es|
  {
    if n == 0 then 0
    else Unsafe(scope, es, n - 1) + if First(es, n - 1) then UnsafeIn(scope, es[n - 1].content) else 0
  }

  ghost function UnsafeIn(scope: Scope, c: Content): nat
  {
    if c.FileChange? && c.completed then |UnsafeOf(scope, c.edits, |c.edits|)| else 0
  }

  ghost predicate HoldsItems(es: seq<Entry>, r: Reading)
  {
    && (forall i :: 0 <= i < |es| ==> es[i].id.Some? && es[i].id.value in r.items && r.items[es[i].id.value] == es[i].content)
    && (forall id :: id in r.items ==> exists i :: 0 <= i < |es| && es[i].id == Some(id))
    && (forall k :: k in r.seen ==> k.item in r.items)
  }

  ghost predicate HoldsCounts(scope: Scope, es: seq<Entry>, r: Reading)
  {
    r.order == Items(es, |es|) && r.scanned == |es| && r.duplicates == |es| - r.order && r.dropped == Unsafe(scope, es, |es|)
  }

  ghost predicate Holds(scope: Scope, head: Head, es: seq<Entry>, r: Reading)
  {
    && Clean(head, es) && HoldsItems(es, r) && HoldsCounts(scope, es, r)
    && HoldsOperations(scope, head, es, r.operations) && HoldsCommands(es, r.commands) && HoldsFinal(es, r.final)
  }

  // ---------------------------------------------------------------- one entry more

  lemma FirstStays(es: seq<Entry>, e: Entry, i: nat)
    requires i < |es|
    ensures First(es + [e], i) <==> First(es, i)
    ensures (es + [e])[i] == es[i]
  {
    assert forall j :: 0 <= j <= i ==> (es + [e])[j] == es[j];
  }

  lemma ItemsStay(es: seq<Entry>, e: Entry, n: nat)
    requires n <= |es|
    ensures Items(es + [e], n) == Items(es, n)
  {
    forall j | 0 <= j < n ensures First(es + [e], j) <==> First(es, j) {
      FirstStays(es, e, j);
    }
    assert FirstOnes(es + [e], n) == FirstOnes(es, n);
  }

  lemma ItemsStep(es: seq<Entry>, n: nat)
    requires n < |es|
    ensures Items(es, n + 1) == Items(es, n) + if First(es, n) then 1 else 0
  {
    assert FirstOnes(es, n + 1) == FirstOnes(es, n) + if First(es, n) then {n} else {};
  }

  lemma ItemsMore(es: seq<Entry>, e: Entry)
    ensures Items(es + [e], |es| + 1) == Items(es, |es|) + if First(es + [e], |es|) then 1 else 0
  {
    ItemsStep(es + [e], |es|);
    ItemsStay(es, e, |es|);
  }

  lemma {:induction false} UnsafeStays(scope: Scope, es: seq<Entry>, e: Entry, n: nat)
    requires n <= |es|
    ensures Unsafe(scope, es + [e], n) == Unsafe(scope, es, n)
  {
    if n > 0 {
      UnsafeStays(scope, es, e, n - 1);
      FirstStays(es, e, n - 1);
    }
  }

  lemma UnsafeMore(scope: Scope, es: seq<Entry>, e: Entry)
    ensures Unsafe(scope, es + [e], |es| + 1) == Unsafe(scope, es, |es|) + if First(es + [e], |es|) then UnsafeIn(scope, e.content) else 0
  {
    UnsafeStays(scope, es, e, |es|);
    assert (es + [e])[|es|] == e;
  }

  lemma FromEntryStays(scope: Scope, head: Head, es: seq<Entry>, e: Entry, i: nat, op: Operation)
    requires i < |es|
    ensures FromEntry(scope, head, es + [e], i, op) <==> FromEntry(scope, head, es, i, op)
  {
    FirstStays(es, e, i);
    ItemsStay(es, e, i + 1);
  }

  lemma FromEntriesMore(scope: Scope, head: Head, es: seq<Entry>, e: Entry, op: Operation)
    ensures FromEntries(scope, head, es + [e], |es| + 1, op) <==>
              FromEntries(scope, head, es, |es|, op) || FromEntry(scope, head, es + [e], |es|, op)
  {
    forall i | 0 <= i < |es| ensures FromEntry(scope, head, es + [e], i, op) <==> FromEntry(scope, head, es, i, op) {
      FromEntryStays(scope, head, es, e, i, op);
    }
  }

  lemma RanInMore(es: seq<Entry>, e: Entry, c: Executed)
    ensures RanInSome(es + [e], |es| + 1, c) <==> RanInSome(es, |es|, c) || RanIn(es + [e], |es|, c)
  {
    forall i | 0 <= i < |es| ensures RanIn(es + [e], i, c) <==> RanIn(es, i, c) {
      FirstStays(es, e, i);
      ItemsStay(es, e, i + 1);
    }
  }

  lemma ItemsGrow(es: seq<Entry>, n: nat)
    requires n <= |es|
    ensures Items(es, n) <= Items(es, |es|)
  {
    Cardinalities(FirstOnes(es, n), FirstOnes(es, |es|));
  }

  lemma Cardinalities(a: set<int>, b: set<int>)
    requires a <= b
    ensures |a| <= |b|
  {
    assert |b| == |a| + |b - a| by { assert b == a + (b - a); }
  }

  lemma OperationsSame(scope: Scope, head: Head, es: seq<Entry>, e: Entry, ops: seq<Operation>)
    requires HoldsOperations(scope, head, es, ops) && forall op :: !FromEntry(scope, head, es + [e], |es|, op)
    ensures HoldsOperations(scope, head, es + [e], ops)
  {
    forall op ensures op in ops <==> FromEntries(scope, head, es + [e], |es| + 1, op) {
      FromEntriesMore(scope, head, es, e, op);
    }
  }

  lemma EarlierOrder(scope: Scope, head: Head, es: seq<Entry>, op: Operation)
    requires FromEntries(scope, head, es, |es|, op)
    ensures op.order <= Items(es, |es|)
  {
    var i :| 0 <= i < |es| && FromEntry(scope, head, es, i, op);
    ItemsGrow(es, i + 1);
  }

  lemma OperationsMore(scope: Scope, head: Head, es: seq<Entry>, e: Entry, ops: seq<Operation>, added: seq<Operation>)
    requires HoldsOperations(scope, head, es, ops) && First(es + [e], |es|)
    requires e.id.Some? && e.content.FileChange? && e.content.completed
    requires EditsGive(scope, head, e.id.value, Items(es, |es|) + 1, e.content.edits, |e.content.edits|, added)
    ensures HoldsOperations(scope, head, es + [e], ops + added)
  {
    ItemsMore(es, e);
    assert (es + [e])[|es|] == e;
    forall op ensures op in ops + added <==> FromEntries(scope, head, es + [e], |es| + 1, op) {
      FromEntriesMore(scope, head, es, e, op);
    }
    OrderedMore(scope, head, es, e.id.value, e.content.edits, ops, added);
  }

  lemma OrderedMore(scope: Scope, head: Head, es: seq<Entry>, item: Id, edits: seq<Edit>, ops: seq<Operation>, added: seq<Operation>)
    requires HoldsOperations(scope, head, es, ops)
    requires EditsGive(scope, head, item, Items(es, |es|) + 1, edits, |edits|, added)
    ensures InOrder(ops + added)
  {
    forall a | 0 <= a < |ops| ensures ops[a].order <= Items(es, |es|) {
      assert ops[a] in ops;
      EarlierOrder(scope, head, es, ops[a]);
    }
    forall b | 0 <= b < |added| ensures added[b].order == Items(es, |es|) + 1 {
      assert added[b] in added && FromEdits(scope, head, item, Items(es, |es|) + 1, edits, |edits|, added[b]);
    }
    JoinOrdered(ops, added, Items(es, |es|));
  }

  lemma JoinOrdered(ops: seq<Operation>, added: seq<Operation>, n: nat)
    requires InOrder(ops) && IndexedIn(added)
    requires forall a :: 0 <= a < |ops| ==> ops[a].order <= n
    requires forall b :: 0 <= b < |added| ==> added[b].order == n + 1
    ensures InOrder(ops + added)
  {
    var all := ops + added;
    forall a, b | 0 <= a < b < |all| ensures Before(all[a], all[b]) {
      assert all[a] == if a < |ops| then ops[a] else added[a - |ops|];
      assert all[b] == if b < |ops| then ops[b] else added[b - |ops|];
    }
  }

  lemma CommandsSame(es: seq<Entry>, e: Entry, commands: seq<Executed>)
    requires HoldsCommands(es, commands) && forall c :: !RanIn(es + [e], |es|, c)
    ensures HoldsCommands(es + [e], commands)
  {
    forall c ensures c in commands <==> RanInSome(es + [e], |es| + 1, c) {
      RanInMore(es, e, c);
    }
  }

  lemma CommandsMore(es: seq<Entry>, e: Entry, commands: seq<Executed>, last: Executed)
    requires HoldsCommands(es, commands) && forall c :: RanIn(es + [e], |es|, c) <==> c == last
    ensures HoldsCommands(es + [e], commands + [last])
  {
    forall c ensures c in commands + [last] <==> RanInSome(es + [e], |es| + 1, c) {
      RanInMore(es, e, c);
    }
    forall a | 0 <= a < |commands| ensures commands[a].order < last.order {
      assert commands[a] in commands && RanInSome(es, |es|, commands[a]);
      var i :| 0 <= i < |es| && RanIn(es, i, commands[a]);
      ItemsGrow(es, i + 1);
      ItemsMore(es, e);
      assert RanIn(es + [e], |es|, last);
    }
  }

  lemma FinalStays(es: seq<Entry>, e: Entry, i: nat)
    requires i < |es|
    ensures FinalIn(es + [e], i) <==> FinalIn(es, i)
  {
    FirstStays(es, e, i);
  }

  lemma FinalSame(es: seq<Entry>, e: Entry, final: Option<Final>)
    requires HoldsFinal(es, final) && !FinalIn(es + [e], |es|)
    ensures HoldsFinal(es + [e], final)
  {
    forall i | 0 <= i < |es| ensures FinalIn(es + [e], i) <==> FinalIn(es, i) {
      FinalStays(es, e, i);
    }
    if final.Some? {
      var i :| 0 <= i < |es| && FinalAt(es, i, final.value);
      ItemsStay(es, e, i + 1);
      assert FinalAt(es + [e], i, final.value);
    }
  }

  lemma FinalNew(es: seq<Entry>, e: Entry, f: Final)
    requires FinalIn(es + [e], |es|) && e.content.Message? && f.text == e.content.text && e.id == Some(f.item) && f.order == Items(es, |es|) + 1
    ensures HoldsFinal(es + [e], Some(f))
  {
    ItemsMore(es, e);
    assert FinalAt(es + [e], |es|, f);
  }

  // ---------------------------------------------------------------- an entry is taken

  lemma NotNew(scope: Scope, head: Head, es: seq<Entry>, e: Entry, r: Reading)
    requires Holds(scope, head, es, r) && e.id.Some? && e.id.value in r.items
    ensures !First(es + [e], |es|)
    ensures Named(head, e) ==> (Fine(head, es + [e], |es|) <==> r.items[e.id.value] == e.content)
  {
    var i :| 0 <= i < |es| && es[i].id == Some(e.id.value);
    var more := es + [e];
    assert more[i] == es[i] && more[|es|] == e;
  }

  lemma IsNew(scope: Scope, head: Head, es: seq<Entry>, e: Entry, r: Reading)
    requires Holds(scope, head, es, r) && Named(head, e) && e.id.value !in r.items
    ensures First(es + [e], |es|) && Fine(head, es + [e], |es|)
    ensures Unseen(e.id.value, 0, r.seen)
  {
    var more := es + [e];
    forall j | 0 <= j < |es| ensures more[j].id != e.id {
      assert more[j] == es[j];
    }
  }

  lemma StillClean(head: Head, es: seq<Entry>, e: Entry)
    ensures Clean(head, es + [e]) <==> Clean(head, es) && Fine(head, es + [e], |es|)
  {
    forall i | 0 <= i < |es| ensures Fine(head, es + [e], i) <==> Fine(head, es, i) {
      assert forall j :: 0 <= j <= i ==> (es + [e])[j] == es[j];
    }
  }

  lemma RepeatTaken(scope: Scope, head: Head, es: seq<Entry>, e: Entry, r: Reading)
    requires Holds(scope, head, es, r) && Named(head, e) && e.id.value in r.items && r.items[e.id.value] == e.content
    ensures Holds(scope, head, es + [e], r.(scanned := r.scanned + 1, duplicates := r.duplicates + 1))
  {
    NotNew(scope, head, es, e, r);
    StillClean(head, es, e);
    ItemsMore(es, e);
    UnsafeMore(scope, es, e);
    OperationsSame(scope, head, es, e, r.operations);
    CommandsSame(es, e, r.commands);
    FinalSame(es, e, r.final);
    RepeatHeld(es, e, r);
  }

  lemma RepeatHeld(es: seq<Entry>, e: Entry, r: Reading)
    requires HoldsItems(es, r) && e.id.Some? && e.id.value in r.items && r.items[e.id.value] == e.content
    ensures HoldsItems(es + [e], r.(scanned := r.scanned + 1, duplicates := r.duplicates + 1))
  {
    var more := es + [e];
    forall i | 0 <= i < |more| ensures more[i].id.Some? && more[i].id.value in r.items && r.items[more[i].id.value] == more[i].content {
      assert i < |es| ==> more[i] == es[i];
    }
    forall id | id in r.items ensures exists i :: 0 <= i < |more| && more[i].id == Some(id) {
      var i :| 0 <= i < |es| && es[i].id == Some(id);
      assert more[i].id == Some(id);
    }
  }

  lemma NewTaken(scope: Scope, head: Head, es: seq<Entry>, e: Entry, r: Reading)
    requires Holds(scope, head, es, r) && Named(head, e) && e.id.value !in r.items
    ensures TakeEntry(scope, head, e, r).1.None? && Holds(scope, head, es + [e], TakeEntry(scope, head, e, r).0)
    ensures Fine(head, es + [e], |es|)
  {
    IsNew(scope, head, es, e, r);
    ItemTaken(scope, head, es, e, r);
    SameAsNumbered(scope, head, e, r);
  }

  lemma SameAsNumbered(scope: Scope, head: Head, e: Entry, r: Reading)
    requires Named(head, e) && e.id.value !in r.items
    ensures TakeEntry(scope, head, e, r) == (TakeContent(scope, head, e.id.value, e.content, Numbered(e, r)), None)
  {
  }

  lemma OldTaken(scope: Scope, head: Head, es: seq<Entry>, e: Entry, r: Reading)
    requires Holds(scope, head, es, r) && Named(head, e) && e.id.value in r.items
    ensures Fine(head, es + [e], |es|) ==> TakeEntry(scope, head, e, r).1.None? && Holds(scope, head, es + [e], TakeEntry(scope, head, e, r).0)
    ensures !Fine(head, es + [e], |es|) ==> TakeEntry(scope, head, e, r) == (r.(scanned := r.scanned + 1), Some(ConflictingItem))
  {
    NotNew(scope, head, es, e, r);
    if r.items[e.id.value] == e.content {
      RepeatTaken(scope, head, es, e, r);
    }
  }

  /** The content of a new item: what it gives besides its number. */
  lemma ContentTaken(scope: Scope, head: Head, es: seq<Entry>, e: Entry, r: Reading)
    requires Holds(scope, head, es, r) && Named(head, e) && e.id.value !in r.items
    ensures var s := TakeContent(scope, head, e.id.value, e.content, Numbered(e, r));
            && HoldsOperations(scope, head, es + [e], s.operations) && HoldsCommands(es + [e], s.commands) && HoldsFinal(es + [e], s.final)
            && OnlyContent(e.id.value, Numbered(e, r), s) && s.dropped == r.dropped + UnsafeIn(scope, e.content)
  {
    IsNew(scope, head, es, e, r);
    ItemsMore(es, e);
    assert (es + [e])[|es|] == e;
    var n := Numbered(e, r);
    if e.content.FileChange? && e.content.completed {
      var added := EditsTaken(scope, head, e.id.value, e.content.edits, n);
      OperationsMore(scope, head, es, e, r.operations, added);
    } else {
      OperationsSame(scope, head, es, e, r.operations);
    }
    if e.content.Command? && e.content.mention.Some? {
      CommandsMore(es, e, r.commands, Executed(e.id.value, n.order, e.content.mention.value));
    } else {
      CommandsSame(es, e, r.commands);
    }
    if e.content.Message? && e.content.final {
      FinalNew(es, e, Final(e.id.value, n.order, e.content.text));
    } else {
      FinalSame(es, e, r.final);
    }
  }

  /** The content changes nothing that all items share. */
  predicate OnlyContent(item: Id, r: Reading, s: Reading)
  {
    && s.order == r.order && s.items == r.items && s.scanned == r.scanned && s.duplicates == r.duplicates
    && forall k :: k in s.seen ==> k in r.seen || k.item == item
  }

  lemma ItemTaken(scope: Scope, head: Head, es: seq<Entry>, e: Entry, r: Reading)
    requires Holds(scope, head, es, r) && Named(head, e) && e.id.value !in r.items
    ensures Holds(scope, head, es + [e], TakeContent(scope, head, e.id.value, e.content, Numbered(e, r)))
  {
    IsNew(scope, head, es, e, r);
    StillClean(head, es, e);
    ContentTaken(scope, head, es, e, r);
    ItemsHeld(es, e, r, TakeContent(scope, head, e.id.value, e.content, Numbered(e, r)));
    CountsHeld(scope, es, e, r, TakeContent(scope, head, e.id.value, e.content, Numbered(e, r)));
  }

  lemma CountsHeld(scope: Scope, es: seq<Entry>, e: Entry, r: Reading, s: Reading)
    requires HoldsCounts(scope, es, r) && e.id.Some? && First(es + [e], |es|)
    requires OnlyContent(e.id.value, Numbered(e, r), s) && s.dropped == r.dropped + UnsafeIn(scope, e.content)
    ensures HoldsCounts(scope, es + [e], s)
  {
    ItemsMore(es, e);
    UnsafeMore(scope, es, e);
  }

  lemma ItemsHeld(es: seq<Entry>, e: Entry, r: Reading, s: Reading)
    requires HoldsItems(es, r) && e.id.Some? && e.id.value !in r.items && OnlyContent(e.id.value, Numbered(e, r), s)
    ensures HoldsItems(es + [e], s)
  {
    var more := es + [e];
    forall i | 0 <= i < |more| ensures more[i].id.Some? && more[i].id.value in s.items && s.items[more[i].id.value] == more[i].content {
      assert i < |es| ==> more[i] == es[i];
    }
    forall id | id in s.items ensures exists i :: 0 <= i < |more| && more[i].id == Some(id) {
      if id == e.id.value {
        assert more[|es|].id == Some(id);
      } else {
        var i :| 0 <= i < |es| && es[i].id == Some(id);
        assert more[i].id == Some(id);
      }
    }
  }

  /** The error of an entry that is not fine. */
  function Complaint(head: Head, e: Entry): Error { if Named(head, e) then ConflictingItem else InvalidItemIdentity }

  /** An entry is taken exactly when it is fine, and otherwise only counted. */
  lemma EntryTaken(scope: Scope, head: Head, es: seq<Entry>, e: Entry, r: Reading)
    requires Holds(scope, head, es, r)
    ensures Fine(head, es + [e], |es|) ==> TakeEntry(scope, head, e, r).1.None? && Holds(scope, head, es + [e], TakeEntry(scope, head, e, r).0)
    ensures !Fine(head, es + [e], |es|) ==> TakeEntry(scope, head, e, r) == (r.(scanned := r.scanned + 1), Some(Complaint(head, e)))
  {
    assert (es + [e])[|es|] == e;
    if Named(head, e) {
      if e.id.value in r.items {
        OldTaken(scope, head, es, e, r);
      } else {
        NewTaken(scope, head, es, e, r);
      }
    }
  }

  // ---------------------------------------------------------------- pages

  /** Reading stopped at entry i, the first one that is not fine. */
  ghost predicate FailedAt(scope: Scope, head: Head, es: seq<Entry>, i: nat, s: Reading, error: Error)
  {
    && i < |es| && Clean(head, es[..i]) && !Fine(head, es, i) && error == Complaint(head, es[i])
    && s.scanned == i + 1 && s.duplicates == i - Items(es[..i], i) && s.dropped == Unsafe(scope, es[..i], i)
  }

  ghost predicate Failed(scope: Scope, head: Head, es: seq<Entry>, s: Reading, error: Error)
  {
    exists i :: 0 <= i < |es| && FailedAt(scope, head, es, i, s, error)
  }

  ghost predicate Taken(scope: Scope, head: Head, es: seq<Entry>, s: Reading, error: Option<Error>)
  {
    if Clean(head, es) then error.None? && Holds(scope, head, es, s) else error.Some? && Failed(scope, head, es, s, error.value)
  }

  lemma FailureStays(scope: Scope, head: Head, es: seq<Entry>, e: Entry, s: Reading, error: Error)
    requires Failed(scope, head, es, s, error)
    ensures Failed(scope, head, es + [e], s, error) && !Clean(head, es + [e])
  {
    var i :| 0 <= i < |es| && FailedAt(scope, head, es, i, s, error);
    var more := es + [e];
    assert more[..i] == es[..i] && forall j :: 0 <= j <= i ==> more[j] == es[j];
    assert FailedAt(scope, head, more, i, s, error);
  }

  lemma OneMoreTaken(scope: Scope, head: Head, es: seq<Entry>, e: Entry, s: Reading)
    requires Holds(scope, head, es, s)
    ensures Taken(scope, head, es + [e], TakeEntry(scope, head, e, s).0, TakeEntry(scope, head, e, s).1)
  {
    EntryTaken(scope, head, es, e, s);
    StillClean(head, es, e);
    if !Fine(head, es + [e], |es|) {
      assert (es + [e])[..|es|] == es;
      assert FailedAt(scope, head, es + [e], |es|, TakeEntry(scope, head, e, s).0, Complaint(head, e));
    }
  }

  lemma EntriesTakenStep(scope: Scope, head: Head, es: seq<Entry>, entries: seq<Entry>, n: nat, r: Reading)
    requires n < |entries|
    requires Taken(scope, head, es + entries[..n], TakeEntries(scope, head, entries, n, r).0, TakeEntries(scope, head, entries, n, r).1)
    ensures Taken(scope, head, es + entries[..n + 1], TakeEntries(scope, head, entries, n + 1, r).0, TakeEntries(scope, head, entries, n + 1, r).1)
  {
    var (s, error) := TakeEntries(scope, head, entries, n, r);
    assert es + entries[..n + 1] == (es + entries[..n]) + [entries[n]];
    if error.None? {
      OneMoreTaken(scope, head, es + entries[..n], entries[n], s);
    } else {
      FailureStays(scope, head, es + entries[..n], entries[n], s, error.value);
    }
  }

  lemma EntriesTaken(scope: Scope, head: Head, es: seq<Entry>, entries: seq<Entry>, r: Reading)
    requires Holds(scope, head, es, r)
    ensures Taken(scope, head, es + entries, TakeEntries(scope, head, entries, |entries|, r).0, TakeEntries(scope, head, entries, |entries|, r).1)
  {
    assert es + entries[..0] == es;
    for n := 0 to |entries|
      invariant Taken(scope, head, es + entries[..n], TakeEntries(scope, head, entries, n, r).0, TakeEntries(scope, head, entries, n, r).1)
    {
      EntriesTakenStep(scope, head, es, entries, n, r);
    }
    assert entries[..|entries|] == entries;
  }

  /** The first n replies are pages that each name a new next one, and all their entries are fine. */
  ghost predicate Underway(head: Head, script: seq<Reply>, n: nat)
  {
    && n <= |script| && (forall i :: 0 <= i < n ==> script[i].Page? && script[i].next.Some?)
    && (forall i, j :: 0 <= i < j < n ==> script[i].next != script[j].next)
    && Clean(head, Entries(script, n))
  }

  /** An earlier page named the same next one. */
  ghost predicate Repeats(script: seq<Reply>, n: nat)
    requires n < |script| && script[n].Page?
  {
    exists i :: 0 <= i < n && script[i].Page? && script[i].next == script[n].next
  }

  ghost predicate HasCursors(script: seq<Reply>, n: nat, cursors: set<Cursor>)
    requires n <= |script|
  {
    forall c :: c in cursors <==> exists i :: 0 <= i < n && script[i].Page? && script[i].next == Some(c)
  }

  /** What is known of the reader while the pages go on. */
  ghost predicate ReadsOn(scope: Scope, head: Head, script: seq<Reply>, n: nat, p: Progress)
  {
    n <= |script| && p.Going? && HasCursors(script, n, p.cursors) && Holds(scope, head, Entries(script, n), p.reading)
  }

  lemma NothingRead(scope: Scope, head: Head, script: seq<Reply>)
    ensures ReadsOn(scope, head, script, 0, TakeReplies(scope, head, script, 0, Fresh({})))
  {
  }

  lemma CursorMore(script: seq<Reply>, n: nat, cursors: set<Cursor>)
    requires n < |script| && script[n].Page? && script[n].next.Some? && HasCursors(script, n, cursors)
    ensures HasCursors(script, n + 1, cursors + {script[n].next.value})
    ensures script[n].next.value in cursors <==> Repeats(script, n)
  {
  }

  /** The page is taken with what came before. */
  lemma PageTaken(scope: Scope, head: Head, script: seq<Reply>, n: nat, r: Reading)
    requires n < |script| && script[n].Page? && Holds(scope, head, Entries(script, n), r)
    ensures var (s, error) := TakeEntries(scope, head, script[n].entries, |script[n].entries|, r);
            Taken(scope, head, Entries(script, n + 1), s, error)
  {
    EntriesTaken(scope, head, Entries(script, n), script[n].entries, r);
  }

  lemma GoesOn(scope: Scope, head: Head, script: seq<Reply>, n: nat, p: Progress)
    requires n < |script| && ReadsOn(scope, head, script, n, p) && Underway(head, script, n + 1)
    ensures ReadsOn(scope, head, script, n + 1, TakeReply(scope, head, script[n], p.cursors, p.reading))
  {
    PageTaken(scope, head, script, n, p.reading);
    CursorMore(script, n, p.cursors);
  }

  // ---------------------------------------------------------------- the outcome

  /** Nothing is reported but the counters of the entries read. */
  ghost predicate Reports(scope: Scope, es: seq<Entry>, o: Outcome, error: Error)
  {
    && o.error == Some(error) && o.operations == [] && o.records == []
    && o.scanned == |es| && o.duplicates == |es| - Items(es, |es|) && o.dropped == Unsafe(scope, es, |es|)
  }

  /** The same when entry i is the first one that is not fine. */
  ghost predicate ReportsEntry(scope: Scope, head: Head, es: seq<Entry>, i: nat, o: Outcome)
  {
    && i < |es| && Clean(head, es[..i]) && !Fine(head, es, i) && o.error == Some(Complaint(head, es[i])) && o.operations == [] && o.records == []
    && o.scanned == i + 1 && o.duplicates == i - Items(es[..i], i) && o.dropped == Unsafe(scope, es[..i], i)
  }

  /** The turn's record: its commands, and its last final message when that is usable. */
  ghost predicate HoldsRecord(scope: Scope, head: Head, es: seq<Entry>, record: Record)
  {
    record.head == head && HoldsCommands(es, record.commands) && exists final :: HoldsFinal(es, final) && record.final == Usable(scope, final)
  }

  function Usable(scope: Scope, final: Option<Final>): Option<Final>
  {
    if final.Some? && scope.usable(final.value.text) then final else None
  }

  /** The turn has something to tell: an operation or a command. */
  ghost predicate Tells(es: seq<Entry>, ops: seq<Operation>) { ops != [] || exists c :: RanInSome(es, |es|, c) }

  /** Everything the entries say, and a record of the turn if that is anything. */
  ghost predicate Delivers(scope: Scope, head: Head, es: seq<Entry>, o: Outcome)
  {
    && o.error == None && HoldsOperations(scope, head, es, o.operations)
    && (if Tells(es, o.operations) then |o.records| == 1 && HoldsRecord(scope, head, es, o.records[0]) else o.records == [])
    && o.scanned == |es| && o.duplicates == |es| - Items(es, |es|) && o.dropped == Unsafe(scope, es, |es|)
  }

  /** What comes of a turn whose pages went on until reply n. */
  ghost predicate EndsAt(scope: Scope, head: Head, script: seq<Reply>, n: nat, o: Outcome)
    requires n <= |script|
  {
    if n == |script| then Reports(scope, Entries(script, n), o, Rpc)
    else match script[n]
      case Refused => Reports(scope, Entries(script, n), o, Rpc)
      case NoData => Reports(scope, Entries(script, n), o, InvalidSchema)
      case Page(_, next) =>
        var es := Entries(script, n + 1);
        if !Clean(head, es) then exists i :: 0 <= i < |es| && ReportsEntry(scope, head, es, i, o)
        else if next.None? then Delivers(scope, head, es, o)
        else Repeats(script, n) && Reports(scope, es, o, RepeatedCursor)
  }

  lemma FinishedDelivers(scope: Scope, head: Head, es: seq<Entry>, r: Reading)
    requires Holds(scope, head, es, r)
    ensures Delivers(scope, head, es, Finished(scope, head, r))
  {
    if r.commands != [] {
      assert r.commands[0] in r.commands && RanInSome(es, |es|, r.commands[0]);
    }
    assert HoldsFinal(es, r.final) && Usable(scope, r.final) == (if r.final.Some? && scope.usable(r.final.value.text) then r.final else None);
  }

  lemma AbandonedReports(scope: Scope, head: Head, es: seq<Entry>, r: Reading, error: Error)
    requires Holds(scope, head, es, r)
    ensures Reports(scope, es, Abandoned(r, error), error)
  {
  }

  lemma FailedReports(scope: Scope, head: Head, es: seq<Entry>, r: Reading, error: Error)
    requires Failed(scope, head, es, r, error)
    ensures exists i :: 0 <= i < |es| && ReportsEntry(scope, head, es, i, Abandoned(r, error))
  {
    var i :| 0 <= i < |es| && FailedAt(scope, head, es, i, r, error);
    assert ReportsEntry(scope, head, es, i, Abandoned(r, error));
  }

  /** The reply after which the reader does not go on. */
  lemma LastReply(scope: Scope, head: Head, script: seq<Reply>, n: nat, p: Progress)
    requires n < |script| && ReadsOn(scope, head, script, n, p) && Underway(head, script, n) && !Underway(head, script, n + 1)
    ensures var q := TakeReply(scope, head, script[n], p.cursors, p.reading);
            !q.Going? && EndsAt(scope, head, script, n, Concluded(scope, head, q))
  {
    var q := TakeReply(scope, head, script[n], p.cursors, p.reading);
    if script[n].Page? {
      LastPage(scope, head, script, n, p);
    } else {
      AbandonedReports(scope, head, Entries(script, n), p.reading, q.error);
    }
  }

  lemma LastPage(scope: Scope, head: Head, script: seq<Reply>, n: nat, p: Progress)
    requires n < |script| && script[n].Page? && ReadsOn(scope, head, script, n, p) && Underway(head, script, n) && !Underway(head, script, n + 1)
    ensures var q := TakeReply(scope, head, script[n], p.cursors, p.reading);
            !q.Going? && EndsAt(scope, head, script, n, Concluded(scope, head, q))
  {
    var es := Entries(script, n + 1);
    var (s, error) := TakeEntries(scope, head, script[n].entries, |script[n].entries|, p.reading);
    PageTaken(scope, head, script, n, p.reading);
    if !Clean(head, es) {
      FailedReports(scope, head, es, s, error.value);
    } else if script[n].next.None? {
      FinishedDelivers(scope, head, es, s);
    } else {
      CursorMore(script, n, p.cursors);
      NotUnderway(head, script, n);
      AbandonedReports(scope, head, es, s, RepeatedCursor);
    }
  }

  lemma NotUnderway(head: Head, script: seq<Reply>, n: nat)
    requires n < |script| && Underway(head, script, n) && !Underway(head, script, n + 1)
    requires script[n].Page? && script[n].next.Some? && Clean(head, Entries(script, n + 1))
    ensures Repeats(script, n)
  {
  }

  /** Whatever the server replies, the outcome is the one of the first reply after which reading does not go on. */
  lemma TurnEnds(scope: Scope, head: Head, script: seq<Reply>) returns (n: nat)
    ensures n <= |script| && Underway(head, script, n) && EndsAt(scope, head, script, n, Turn(scope, head, script, {}))
  {
    n := 0;
    NothingRead(scope, head, script);
    while n < |script| && Underway(head, script, n + 1)
      invariant n <= |script| && Underway(head, script, n)
      invariant ReadsOn(scope, head, script, n, TakeReplies(scope, head, script, n, Fresh({})))
    {
      GoesOn(scope, head, script, n, TakeReplies(scope, head, script, n, Fresh({})));
      n := n + 1;
    }
    var p := TakeReplies(scope, head, script, n, Fresh({}));
    if n < |script| {
      LastReply(scope, head, script, n, p);
      DoneAt(scope, head, script, n + 1, Fresh({}));
    } else {
      AbandonedReports(scope, head, Entries(script, n), p.reading, Rpc);
    }
  }

  /** Reply n is the last page of a turn that can be read. */
  ghost predicate Complete(head: Head, script: seq<Reply>, n: nat)
  {
    n < |script| && Underway(head, script, n) && script[n].Page? && script[n].next.None? && Clean(head, Entries(script, n + 1))
  }

  lemma {:induction false} CleanBefore(head: Head, script: seq<Reply>, m: nat, n: nat)
    requires m <= n <= |script| && Clean(head, Entries(script, n))
    ensures Clean(head, Entries(script, m))
  {
    if m < n {
      var before, all := Entries(script, n - 1), Entries(script, n);
      forall i | 0 <= i < |before| ensures Fine(head, before, i) {
        assert Fine(head, all, i) && forall j :: 0 <= j <= i ==> all[j] == before[j];
      }
      CleanBefore(head, script, m, n - 1);
    }
  }

  lemma OneEnd(scope: Scope, head: Head, script: seq<Reply>, n: nat, m: nat, o: Outcome)
    requires Complete(head, script, n) && m <= |script| && Underway(head, script, m) && EndsAt(scope, head, script, m, o)
    ensures m == n
  {
    if m < n {
      CleanBefore(head, script, m + 1, n);
    }
  }

  ghost predicate Readable(head: Head, script: seq<Reply>) { exists n: nat :: Complete(head, script, n) }

  lemma EndsComplete(scope: Scope, head: Head, script: seq<Reply>, n: nat, o: Outcome)
    requires n <= |script| && Underway(head, script, n) && EndsAt(scope, head, script, n, o) && o.error.None?
    ensures Complete(head, script, n)
  {
  }

  lemma CompleteDelivers(scope: Scope, head: Head, script: seq<Reply>, n: nat, o: Outcome)
    requires Complete(head, script, n) && EndsAt(scope, head, script, n, o)
    ensures Delivers(scope, head, Entries(script, n + 1), o)
  {
  }

  /** Whatever the server replies, the outcome is that of the first reply after which reading does not go on. */
  lemma TurnEndsSomewhere(scope: Scope, head: Head, script: seq<Reply>, seen: set<Key>)
    requires OwnKeys(head, seen) == {}
    ensures exists n :: 0 <= n <= |script| && Underway(head, script, n) && EndsAt(scope, head, script, n, Turn(scope, head, script, seen))
  {
    SeenDoesNotMatter(scope, head, script, seen);
    var n := TurnEnds(scope, head, script);
  }

  /** What a turn that can be read delivers. */
  lemma TurnDelivers(scope: Scope, head: Head, script: seq<Reply>, seen: set<Key>, n: nat)
    requires OwnKeys(head, seen) == {} && Complete(head, script, n)
    ensures Delivers(scope, head, Entries(script, n + 1), Turn(scope, head, script, seen))
  {
    SeenDoesNotMatter(scope, head, script, seen);
    var m := TurnEnds(scope, head, script);
    OneEnd(scope, head, script, n, m, Turn(scope, head, script, {}));
    CompleteDelivers(scope, head, script, n, Turn(scope, head, script, {}));
  }

  /** Reading succeeds exactly when the replies are pages with new cursors, up to one without a next page, and all their entries are fine. */
  lemma SuccessIsReadable(scope: Scope, head: Head, script: seq<Reply>, seen: set<Key>)
    requires OwnKeys(head, seen) == {}
    ensures Turn(scope, head, script, seen).error.None? <==> Readable(head, script)
  {
    SeenDoesNotMatter(scope, head, script, seen);
    if Turn(scope, head, script, {}).error.None? {
      var m := TurnEnds(scope, head, script);
      EndsComplete(scope, head, script, m, Turn(scope, head, script, {}));
    } else if Readable(head, script) {
      var n: nat :| Complete(head, script, n);
      TurnDelivers(scope, head, script, {}, n);
    }
  }

  /** A delivered operation and the edit it comes from, field by field. */
  lemma OperationIsEdit(scope: Scope, head: Head, es: seq<Entry>, o: Outcome, op: Operation)
    requires Delivers(scope, head, es, o) && op in o.operations
    ensures exists i, k :: 0 <= i < |es| && EditAt(es, i, k)
              && es[i].id == Some(op.key.item) && op.key == Key(head.thread, head.turn, op.key.item, k)
              && var e := es[i].content.edits[k];
                 op.diff == e.diff && (op.diff.Some? ==> scope.safe(op.diff.value))
                 && (e.moved.None? ==> e.path == Some(op.path) && op.oldPath == None && op.kind == e.kind)
                 && (e.moved.Some? ==> e.moved.value == Some(op.path) && op.oldPath == e.path && op.oldPath.Some? && op.kind == Rename)
                 && (op.path in scope.targets || (op.oldPath.Some? && op.oldPath.value in scope.targets))
  {
    assert FromEntries(scope, head, es, |es|, op);
    var i :| 0 <= i < |es| && FromEntry(scope, head, es, i, op);
    var k :| 0 <= k < |es[i].content.edits| && FromEdit(scope, head, es[i].id.value, Items(es, i + 1), es[i].content.edits, k, op);
    assert EditAt(es, i, k);
  }

  /** Entry i is a completed file change with an edit k. */
  predicate EditAt(es: seq<Entry>, i: int, k: int)
    requires 0 <= i < |es|
  {
    es[i].content.FileChange? && es[i].content.completed && 0 <= k < |es[i].content.edits|
  }
}
