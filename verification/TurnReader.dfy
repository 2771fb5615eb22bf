/**
 Reading one turn of a conversation history, page by page (internal/historyattribution/history.go:416-536).
 The server's replies for a turn are a fixed script, so that two readers of the same turn see the same.
 */
module TurnReader {
  import opened Wrappers

  type Id(==, !new)
  type Cursor(==, !new)
  type Path(==, !new)
  type Text(==, !new)
  type Mention(==, !new)

  datatype Kind = Rename | OtherKind(name: Text)

  /** A file edit; paths outside the worktree have already become None. */
  datatype Edit = Edit(path: Option<Path>, moved: Option<Option<Path>>, kind: Kind, diff: Option<Text>)

  datatype Content =
    | Message(final: bool, text: Text)
    | Command(mention: Option<Mention>)
    | FileChange(completed: bool, edits: seq<Edit>)
    | OtherContent(text: Text)

  /** The turn an entry names, its item's id (empty: None) and the rest of the item. */
  datatype Entry = Entry(turn: Id, id: Option<Id>, content: Content)

  datatype Reply = Refused | NoData | Page(entries: seq<Entry>, next: Option<Cursor>)

  datatype Head = Head(thread: Id, turn: Id, startedAt: int, payload: Text)

  datatype Key = Key(thread: Id, turn: Id, item: Id, index: nat)

  datatype Operation = Operation(key: Key, path: Path, oldPath: Option<Path>, kind: Kind, diff: Option<Text>, order: nat)
  datatype Final = Final(item: Id, order: nat, text: Text)
  datatype Executed = Executed(item: Id, order: nat, mention: Mention)
  datatype Record = Record(head: Head, final: Option<Final>, commands: seq<Executed>)

  datatype Error =
    | Rpc | InvalidSchema | InvalidItemIdentity | ConflictingItem | RepeatedCursor
    | ConflictingTurn | Cancelled | SensitiveOmitted | IdleTimeout | Memory

  /** The selected paths, and which texts may be kept. */
  datatype Scope = Scope(targets: set<Path>, safe: Text -> bool, usable: Text -> bool)

  /** What has been read of a turn so far; seen are the operations the reader already holds. */
  datatype Reading = Reading(order: nat, items: map<Id, Content>, final: Option<Final>, commands: seq<Executed>,
                             operations: seq<Operation>, scanned: nat, dropped: nat, duplicates: nat, seen: set<Key>)

  datatype Progress = Going(reading: Reading, cursors: set<Cursor>) | Ended(reading: Reading) | Stopped(reading: Reading, error: Error)

  /** What one turn contributes: nothing but its counters when reading failed. */
  datatype Outcome = Outcome(operations: seq<Operation>, records: seq<Record>, scanned: nat, dropped: nat, duplicates: nat, error: Option<Error>)

  // ---------------------------------------------------------------- the specification

  /** The edit's path after a move, the path before it, and its kind. */
  function Located(e: Edit): (Option<Path>, Option<Path>, Kind)
  {
    match e.moved
    case None => (e.path, None, e.kind)
    case Some(target) => (target, e.path, Rename)
  }

  predicate Selected(scope: Scope, e: Edit)
  {
    var (path, oldPath, kind) := Located(e);
    && path.Some? && (kind.Rename? ==> oldPath.Some?)
    && (path.value in scope.targets || (oldPath.Some? && oldPath.value in scope.targets))
  }

  function OperationOf(head: Head, item: Id, order: nat, index: nat, e: Edit): Operation
    requires Located(e).0.Some?
  {
    var (path, oldPath, kind) := Located(e);
    Operation(Key(head.thread, head.turn, item, index), path.value, oldPath, kind, e.diff, order)
  }

  function TakeEdit(scope: Scope, head: Head, item: Id, index: nat, e: Edit, r: Reading): Reading
  {
    if !Selected(scope, e) then r
    else if e.diff.Some? && !scope.safe(e.diff.value) then r.(dropped := r.dropped + 1)
    else if Key(head.thread, head.turn, item, index) in r.seen then r
    else r.(seen := r.seen + {Key(head.thread, head.turn, item, index)},
            operations := r.operations + [OperationOf(head, item, r.order, index, e)])
  }

  function TakeEdits(scope: Scope, head: Head, item: Id, edits: seq<Edit>, n: nat, r: Reading): Reading
    requires n <= |edits|
  {
    if n == 0 then r else TakeEdit(scope, head, item, n - 1, edits[n - 1], TakeEdits(scope, head, item, edits, n - 1, r))
  }

  function TakeContent(scope: Scope, head: Head, item: Id, content: Content, r: Reading): Reading
  {
    match content
    case Message(final, text) => if final then r.(final := Some(Final(item, r.order, text))) else r
    case Command(mention) => if mention.Some? then r.(commands := r.commands + [Executed(item, r.order, mention.value)]) else r
    case FileChange(completed, edits) => if completed then TakeEdits(scope, head, item, edits, |edits|, r) else r
    case OtherContent(_) => r
  }

  function TakeEntry(scope: Scope, head: Head, e: Entry, r: Reading): (Reading, Option<Error>)
  {
    var s := r.(scanned := r.scanned + 1);
    if e.turn != head.turn || e.id.None? then (s, Some(InvalidItemIdentity))
    else if e.id.value in r.items then
      if r.items[e.id.value] != e.content then (s, Some(ConflictingItem)) else (s.(duplicates := s.duplicates + 1), None)
    else (TakeContent(scope, head, e.id.value, e.content, s.(items := s.items[e.id.value := e.content], order := s.order + 1)), None)
  }

  function TakeEntries(scope: Scope, head: Head, entries: seq<Entry>, n: nat, r: Reading): (Reading, Option<Error>)
    requires n <= |entries|
  {
    if n == 0 then (r, None)
    else
      var (s, error) := TakeEntries(scope, head, entries, n - 1, r);
      if error.Some? then (s, error) else TakeEntry(scope, head, entries[n - 1], s)
  }

  function TakeReply(scope: Scope, head: Head, reply: Reply, cursors: set<Cursor>, r: Reading): Progress
  {
    match reply
    case Refused => Stopped(r, Rpc)
    case NoData => Stopped(r, InvalidSchema)
    case Page(entries, next) =>
      var (s, error) := TakeEntries(scope, head, entries, |entries|, r);
      if error.Some? then Stopped(s, error.value)
      else if next.None? then Ended(s)
      else if next.value in cursors then Stopped(s, RepeatedCursor)
      else Going(s, cursors + {next.value})
  }

  /** The first n calls. */
  function TakeReplies(scope: Scope, head: Head, script: seq<Reply>, n: nat, r: Reading): Progress
    requires n <= |script|
  {
    if n == 0 then Going(r, {})
    else match TakeReplies(scope, head, script, n - 1, r)
      case Going(s, cursors) => TakeReply(scope, head, script[n - 1], cursors, s)
      case done => done
  }

  function Fresh(seen: set<Key>): Reading { Reading(0, map[], None, [], [], 0, 0, 0, seen) }

  function Finished(scope: Scope, head: Head, r: Reading): Outcome
  {
    var final := if r.final.Some? && scope.usable(r.final.value.text) then r.final else None;
    var kept := r.operations != [] || r.commands != [];
    Outcome(if kept then r.operations else [], if kept then [Record(head, final, r.commands)] else [], r.scanned, r.dropped, r.duplicates, None)
  }

  function Abandoned(r: Reading, error: Error): Outcome { Outcome([], [], r.scanned, r.dropped, r.duplicates, Some(error)) }

  /** A script that ends while the server still promises a page stands for a lost connection. */
  function Concluded(scope: Scope, head: Head, p: Progress): Outcome
  {
    match p
    case Ended(r) => Finished(scope, head, r)
    case Stopped(r, error) => Abandoned(r, error)
    case Going(r, _) => Abandoned(r, Rpc)
  }

  /** What a reader that already holds the operations in seen makes of the turn. */
  function Turn(scope: Scope, head: Head, script: seq<Reply>, seen: set<Key>): Outcome
  {
    Concluded(scope, head, TakeReplies(scope, head, script, |script|, Fresh(seen)))
  }

  function SeenAfter(scope: Scope, head: Head, script: seq<Reply>, seen: set<Key>): set<Key>
  {
    TakeReplies(scope, head, script, |script|, Fresh(seen)).reading.seen
  }

  // ---------------------------------------------------------------- the operations already seen never matter

  function OwnKeys(head: Head, keys: set<Key>): set<Key> { set k | k in keys && k.thread == head.thread && k.turn == head.turn }

  /** The two readings agree on everything but the operations held from elsewhere. */
  ghost predicate Agree(head: Head, r: Reading, s: Reading)
  {
    r.(seen := {}) == s.(seen := {}) && OwnKeys(head, r.seen) == OwnKeys(head, s.seen)
  }

  /** r holds only operations it started with or produced itself. */
  ghost predicate Extends(head: Head, seen: set<Key>, r: Reading)
  {
    seen <= r.seen && forall k :: k in r.seen ==> k in seen || (k.thread == head.thread && k.turn == head.turn)
  }

  ghost predicate BothAgree(head: Head, seen: set<Key>, r: Reading, s: Reading) { Agree(head, r, s) && Extends(head, seen, r) }

  lemma EditAgrees(scope: Scope, head: Head, item: Id, index: nat, e: Edit, r: Reading, s: Reading, seen: set<Key>)
    requires BothAgree(head, seen, r, s)
    ensures BothAgree(head, seen, TakeEdit(scope, head, item, index, e, r), TakeEdit(scope, head, item, index, e, s))
  {
    var key := Key(head.thread, head.turn, item, index);
    assert key in r.seen <==> key in OwnKeys(head, r.seen);
    assert key in s.seen <==> key in OwnKeys(head, s.seen);
    assert OwnKeys(head, r.seen + {key}) == OwnKeys(head, r.seen) + {key};
    assert OwnKeys(head, s.seen + {key}) == OwnKeys(head, s.seen) + {key};
  }

  lemma {:induction false} EditsAgree(scope: Scope, head: Head, item: Id, edits: seq<Edit>, n: nat, r: Reading, s: Reading, seen: set<Key>)
    requires n <= |edits| && BothAgree(head, seen, r, s)
    ensures BothAgree(head, seen, TakeEdits(scope, head, item, edits, n, r), TakeEdits(scope, head, item, edits, n, s))
  {
    if n > 0 {
      EditsAgree(scope, head, item, edits, n - 1, r, s, seen);
      EditAgrees(scope, head, item, n - 1, edits[n - 1], TakeEdits(scope, head, item, edits, n - 1, r),
                 TakeEdits(scope, head, item, edits, n - 1, s), seen);
    }
  }

  lemma EntryAgrees(scope: Scope, head: Head, e: Entry, r: Reading, s: Reading, seen: set<Key>)
    requires BothAgree(head, seen, r, s)
    ensures BothAgree(head, seen, TakeEntry(scope, head, e, r).0, TakeEntry(scope, head, e, s).0)
    ensures TakeEntry(scope, head, e, r).1 == TakeEntry(scope, head, e, s).1
  {
    if e.id.Some? && e.content.FileChange? {
      var r', s' := Numbered(e, r), Numbered(e, s);
      EditsAgree(scope, head, e.id.value, e.content.edits, |e.content.edits|, r', s', seen);
    }
  }

  /** The reading with a new item registered. */
  function Numbered(e: Entry, r: Reading): Reading
    requires e.id.Some?
  {
    r.(scanned := r.scanned + 1, items := r.items[e.id.value := e.content], order := r.order + 1)
  }

  lemma {:induction false} EntriesAgree(scope: Scope, head: Head, entries: seq<Entry>, n: nat, r: Reading, s: Reading, seen: set<Key>)
    requires n <= |entries| && BothAgree(head, seen, r, s)
    ensures BothAgree(head, seen, TakeEntries(scope, head, entries, n, r).0, TakeEntries(scope, head, entries, n, s).0)
    ensures TakeEntries(scope, head, entries, n, r).1 == TakeEntries(scope, head, entries, n, s).1
  {
    if n > 0 {
      EntriesAgree(scope, head, entries, n - 1, r, s, seen);
      EntryAgrees(scope, head, entries[n - 1], TakeEntries(scope, head, entries, n - 1, r).0, TakeEntries(scope, head, entries, n - 1, s).0, seen);
    }
  }

  ghost predicate ProgressAgrees(head: Head, seen: set<Key>, p: Progress, q: Progress)
  {
    && BothAgree(head, seen, p.reading, q.reading)
    && match (p, q)
       case (Going(_, c), Going(_, d)) => c == d
       case (Ended(_), Ended(_)) => true
       case (Stopped(_, e), Stopped(_, f)) => e == f
       case _ => false
  }

  lemma {:induction false} RepliesAgree(scope: Scope, head: Head, script: seq<Reply>, n: nat, r: Reading, s: Reading, seen: set<Key>)
    requires n <= |script| && BothAgree(head, seen, r, s)
    ensures ProgressAgrees(head, seen, TakeReplies(scope, head, script, n, r), TakeReplies(scope, head, script, n, s))
  {
    if n > 0 {
      RepliesAgree(scope, head, script, n - 1, r, s, seen);
      var p, q := TakeReplies(scope, head, script, n - 1, r), TakeReplies(scope, head, script, n - 1, s);
      if p.Going? && script[n - 1].Page? {
        EntriesAgree(scope, head, script[n - 1].entries, |script[n - 1].entries|, p.reading, q.reading, seen);
      }
    }
  }

  /**
   A reader that holds operations of other turns only reads the turn as a fresh one does, and
   afterwards holds at most this turn's operations in addition.
   */
  lemma SeenDoesNotMatter(scope: Scope, head: Head, script: seq<Reply>, seen: set<Key>)
    requires OwnKeys(head, seen) == {}
    ensures Turn(scope, head, script, seen) == Turn(scope, head, script, {})
    ensures forall k :: k in SeenAfter(scope, head, script, seen) ==> k in seen || (k.thread == head.thread && k.turn == head.turn)
  {
    RepliesAgree(scope, head, script, |script|, Fresh(seen), Fresh({}), seen);
  }

  // ---------------------------------------------------------------- paging never matters

  function Entries(script: seq<Reply>, n: nat): seq<Entry>
    requires n <= |script|
  {
    if n == 0 then [] else Entries(script, n - 1) + if script[n - 1].Page? then script[n - 1].entries else []
  }

  lemma {:induction false} EntriesCompose(scope: Scope, head: Head, a: seq<Entry>, b: seq<Entry>, n: nat, r: Reading)
    requires n <= |b|
    ensures TakeEntries(scope, head, a, |a|, r).1.None? ==>
              TakeEntries(scope, head, a + b, |a| + n, r) == TakeEntries(scope, head, b, n, TakeEntries(scope, head, a, |a|, r).0)
    ensures n == 0 ==> TakeEntries(scope, head, a + b, |a|, r) == TakeEntries(scope, head, a, |a|, r)
  {
    if n == 0 {
      PrefixTaken(scope, head, a, b, |a|, r);
    } else {
      EntriesCompose(scope, head, a, b, n - 1, r);
      assert (a + b)[|a| + n - 1] == b[n - 1];
    }
  }

  lemma {:induction false} PrefixTaken(scope: Scope, head: Head, a: seq<Entry>, b: seq<Entry>, n: nat, r: Reading)
    requires n <= |a|
    ensures TakeEntries(scope, head, a + b, n, r) == TakeEntries(scope, head, a, n, r)
  {
    if n > 0 {
      PrefixTaken(scope, head, a, b, n - 1, r);
      assert (a + b)[n - 1] == a[n - 1];
    }
  }

  /** A turn served in pages: every page but the last names a next one, and none names the same. */
  ghost predicate Paged(script: seq<Reply>)
  {
    && script != [] && (forall n :: 0 <= n < |script| ==> script[n].Page? && (script[n].next.Some? <==> n < |script| - 1))
    && forall m, n :: 0 <= m < n < |script| - 1 ==> script[m].next != script[n].next
  }

  function Cursors(script: seq<Reply>): set<Cursor> { set reply | reply in script && reply.Page? && reply.next.Some? :: reply.next.value }

  lemma CursorsStep(script: seq<Reply>, n: nat)
    requires Paged(script) && n + 1 < |script|
    ensures script[n].next.value !in Cursors(script[..n])
    ensures Cursors(script[..n + 1]) == Cursors(script[..n]) + {script[n].next.value}
  {
    assert script[..n + 1] == script[..n] + [script[n]];
  }

  /** After n pages the reading is that of their entries in one sequence. */
  ghost predicate ReadSoFar(scope: Scope, head: Head, script: seq<Reply>, n: nat, r: Reading)
    requires n <= |script|
  {
    var (s, error) := TakeEntries(scope, head, Entries(script, n), |Entries(script, n)|, r);
    TakeReplies(scope, head, script, n, r) ==
      if error.Some? then Stopped(s, error.value) else if n == |script| then Ended(s) else Going(s, Cursors(script[..n]))
  }

  lemma PageFails(scope: Scope, head: Head, script: seq<Reply>, n: nat, r: Reading)
    requires n < |script| && Paged(script) && ReadSoFar(scope, head, script, n, r)
    requires TakeEntries(scope, head, Entries(script, n), |Entries(script, n)|, r).1.Some?
    ensures ReadSoFar(scope, head, script, n + 1, r)
  {
    var before, page := Entries(script, n), script[n].entries;
    PrefixTaken(scope, head, before, page, |before|, r);
    StopsAt(scope, head, before + page, |before|, r);
  }

  lemma PageRead(scope: Scope, head: Head, script: seq<Reply>, n: nat, r: Reading)
    requires n < |script| && Paged(script) && ReadSoFar(scope, head, script, n, r)
    requires TakeEntries(scope, head, Entries(script, n), |Entries(script, n)|, r).1.None?
    ensures ReadSoFar(scope, head, script, n + 1, r)
  {
    var s := TakeEntries(scope, head, Entries(script, n), |Entries(script, n)|, r).0;
    PageEntries(scope, head, script, n, r);
    if n + 1 < |script| {
      CursorsStep(script, n);
    }
    assert TakeReplies(scope, head, script, n + 1, r) == TakeReply(scope, head, script[n], Cursors(script[..n]), s);
  }

  /** Reading the entries of one page more is reading that page next. */
  lemma PageEntries(scope: Scope, head: Head, script: seq<Reply>, n: nat, r: Reading)
    requires n < |script| && script[n].Page?
    requires TakeEntries(scope, head, Entries(script, n), |Entries(script, n)|, r).1.None?
    ensures var s := TakeEntries(scope, head, Entries(script, n), |Entries(script, n)|, r).0;
            TakeEntries(scope, head, Entries(script, n + 1), |Entries(script, n + 1)|, r)
            == TakeEntries(scope, head, script[n].entries, |script[n].entries|, s)
  {
    EntriesCompose(scope, head, Entries(script, n), script[n].entries, |script[n].entries|, r);
  }

  lemma NextPage(scope: Scope, head: Head, script: seq<Reply>, n: nat, r: Reading)
    requires n < |script| && Paged(script) && ReadSoFar(scope, head, script, n, r)
    ensures ReadSoFar(scope, head, script, n + 1, r)
  {
    if TakeEntries(scope, head, Entries(script, n), |Entries(script, n)|, r).1.Some? {
      PageFails(scope, head, script, n, r);
    } else {
      PageRead(scope, head, script, n, r);
    }
  }

  lemma NoPage(scope: Scope, head: Head, script: seq<Reply>, r: Reading)
    requires Paged(script)
    ensures ReadSoFar(scope, head, script, 0, r)
  {
  }

  lemma PagesAreEntries(scope: Scope, head: Head, script: seq<Reply>, n: nat, r: Reading)
    requires n <= |script| && Paged(script)
    ensures ReadSoFar(scope, head, script, n, r)
  {
    NoPage(scope, head, script, r);
    for k := 0 to n
      invariant ReadSoFar(scope, head, script, k, r)
    {
      NextPage(scope, head, script, k, r);
    }
  }

  /** However the server cuts a turn into pages, it is read, or refused, as one page with everything. */
  lemma PagingDoesNotMatter(scope: Scope, head: Head, script: seq<Reply>, seen: set<Key>)
    requires Paged(script)
    ensures Turn(scope, head, script, seen) == Turn(scope, head, [Page(Entries(script, |script|), None)], seen)
  {
    PagesAreEntries(scope, head, script, |script|, Fresh(seen));
    var one := [Page(Entries(script, |script|), None)];
    assert Entries(one, 0) == [];
    assert Entries(one, 1) == Entries(script, |script|);
    PagesAreEntries(scope, head, one, 1, Fresh(seen));
  }

  // ---------------------------------------------------------------- the loops

  method ReadEdits(scope: Scope, head: Head, item: Id, edits: seq<Edit>, before: Reading) returns (r: Reading)
    ensures r == TakeEdits(scope, head, item, edits, |edits|, before)
  {
    r := before;
    for index := 0 to |edits|
      invariant r == TakeEdits(scope, head, item, edits, index, before)
    {
      var edit := edits[index];
      var path, oldPath, kind := edit.path, None, edit.kind;
      if edit.moved.Some? {
        oldPath, path, kind := path, edit.moved.value, Rename;
      }
      if path.None? || (kind.Rename? && oldPath.None?) {
        continue;
      }
      if path.value !in scope.targets && !(oldPath.Some? && oldPath.value in scope.targets) {
        continue;
      }
      if edit.diff.Some? && !scope.safe(edit.diff.value) {
        r := r.(dropped := r.dropped + 1);
        continue;
      }
      var id := Key(head.thread, head.turn, item, index);
      if id in r.seen {
        continue;
      }
      r := r.(seen := r.seen + {id}, operations := r.operations + [Operation(id, path.value, oldPath, kind, edit.diff, r.order)]);
    }
  }

  method ReadEntries(scope: Scope, head: Head, entries: seq<Entry>, before: Reading) returns (r: Reading, error: Option<Error>)
    ensures (r, error) == TakeEntries(scope, head, entries, |entries|, before)
  {
    r := before;
    for n := 0 to |entries|
      invariant (r, None) == TakeEntries(scope, head, entries, n, before)
    {
      var e := entries[n];
      ghost var s, failed := TakeEntry(scope, head, e, r).0, TakeEntry(scope, head, e, r).1;
      assert TakeEntries(scope, head, entries, n + 1, before) == (s, failed);
      r := r.(scanned := r.scanned + 1);
      if e.turn != head.turn || e.id.None? {
        StopsAt(scope, head, entries, n + 1, before);
        return r, Some(InvalidItemIdentity);
      }
      if e.id.value in r.items {
        if r.items[e.id.value] != e.content {
          StopsAt(scope, head, entries, n + 1, before);
          return r, Some(ConflictingItem);
        }
        r := r.(duplicates := r.duplicates + 1);
        continue;
      }
      r := r.(items := r.items[e.id.value := e.content], order := r.order + 1);
      match e.content
      case Message(final, text) =>
        if final {
          r := r.(final := Some(Final(e.id.value, r.order, text)));
        }
      case Command(mention) =>
        if mention.Some? {
          r := r.(commands := r.commands + [Executed(e.id.value, r.order, mention.value)]);
        }
      case FileChange(completed, edits) =>
        if completed {
          r := ReadEdits(scope, head, e.id.value, edits, r);
        }
      case OtherContent(_) =>
    }
    error := None;
  }

  /** After an error no further entry is taken. */
  lemma {:induction false} StopsAt(scope: Scope, head: Head, entries: seq<Entry>, n: nat, r: Reading)
    requires n <= |entries| && TakeEntries(scope, head, entries, n, r).1.Some?
    ensures TakeEntries(scope, head, entries, |entries|, r) == TakeEntries(scope, head, entries, n, r)
    decreases |entries| - n
  {
    if n < |entries| {
      StopsAt(scope, head, entries, n + 1, r);
    }
  }

  lemma {:induction false} DoneAt(scope: Scope, head: Head, script: seq<Reply>, n: nat, r: Reading)
    requires n <= |script| && !TakeReplies(scope, head, script, n, r).Going?
    ensures TakeReplies(scope, head, script, |script|, r) == TakeReplies(scope, head, script, n, r)
    decreases |script| - n
  {
    if n < |script| {
      DoneAt(scope, head, script, n + 1, r);
    }
  }

  /** The reader of a turn; the operations held before and after are seen and held. */
  method ReadTurn(scope: Scope, head: Head, script: seq<Reply>, seen: set<Key>) returns (outcome: Outcome, held: set<Key>)
    ensures outcome == Turn(scope, head, script, seen)
    ensures held == SeenAfter(scope, head, script, seen)
  {
    var r, cursors := Fresh(seen), {};
    for n := 0 to |script|
      invariant TakeReplies(scope, head, script, n, Fresh(seen)) == Going(r, cursors)
    {
      assert TakeReplies(scope, head, script, n + 1, Fresh(seen)) == TakeReply(scope, head, script[n], cursors, r);
      match script[n]
      case Refused =>
        DoneAt(scope, head, script, n + 1, Fresh(seen));
        return Abandoned(r, Rpc), r.seen;
      case NoData =>
        DoneAt(scope, head, script, n + 1, Fresh(seen));
        return Abandoned(r, InvalidSchema), r.seen;
      case Page(entries, next) =>
        var error;
        r, error := ReadEntries(scope, head, entries, r);
        if error.Some? {
          DoneAt(scope, head, script, n + 1, Fresh(seen));
          return Abandoned(r, error.value), r.seen;
        }
        if next.None? {
          DoneAt(scope, head, script, n + 1, Fresh(seen));
          return Finished(scope, head, r), r.seen;
        }
        if next.value in cursors {
          DoneAt(scope, head, script, n + 1, Fresh(seen));
          return Abandoned(r, RepeatedCursor), r.seen;
        }
        cursors := cursors + {next.value};
    }
    return Abandoned(r, Rpc), r.seen;
  }
}
