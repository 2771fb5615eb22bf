/**
 The commit executor (internal/commitexec/executor.go) over an abstract repository: HEAD is a
 chain of commits, and trees, the index and the worktree map paths to entries. Hooks run inside
 git commit and may do anything to HEAD, the index and the worktree; every other step may fail.
 */
module CommitTransaction {
  import opened Wrappers

  type Path(==, !new)
  type Entry(==, !new)
  type Tree = map<Path, Entry>

  /** A commit is identified with its content, as an injective digest would; stamp covers its message and time. */
  datatype Commit =
    | Initial(tree: Tree, stamp: nat)
    | Child(parent: Commit, tree: Tree, stamp: nat)

  function Lookup(t: Tree, p: Path): Option<Entry> { if p in t then Some(t[p]) else None }

  /** The paths a commit changes relative to its parent (git diff-tree --root --name-only). */
  function ChangedPaths(c: Commit): set<Path>
  {
    if c.Initial? then c.tree.Keys
    else set p | p in c.parent.tree.Keys + c.tree.Keys && Lookup(c.parent.tree, p) != Lookup(c.tree, p)
  }

  // ---------------------------------------------------------------- the repository

  /** The index that keeps the original selection outside the given paths and mirrors HEAD inside them. */
  function Retained(original: Tree, headTree: Tree, paths: set<Path>): Tree
  {
    (map p | p in original && p !in paths :: original[p]) + (map p | p in paths && p in headTree :: headTree[p])
  }

  /** HEAD's tree with the given paths replaced by their worktree content. */
  function Staged(headTree: Tree, worktree: Tree, paths: set<Path>): Tree
  {
    (map p | p in headTree && p !in paths :: headTree[p]) + (map p | p in paths && p in worktree :: worktree[p])
  }

  lemma RetainedAt(original: Tree, headTree: Tree, paths: set<Path>, p: Path)
    ensures Lookup(Retained(original, headTree, paths), p) == if p in paths then Lookup(headTree, p) else Lookup(original, p)
  {
  }

  lemma StagedAt(headTree: Tree, worktree: Tree, paths: set<Path>, p: Path)
    ensures Lookup(Staged(headTree, worktree, paths), p) == if p in paths then Lookup(worktree, p) else Lookup(headTree, p)
  {
  }

  class Repository {
    var head: Option<Commit>
    var index: Tree
    var worktree: Tree

    constructor (head: Option<Commit>, index: Tree, worktree: Tree)
      ensures this.head == head && this.index == index && this.worktree == worktree
    {
      this.head, this.index, this.worktree := head, index, worktree;
    }

    /** Rewrites the index file. A failed write may leave anything behind. */
    method WriteIndex(data: Tree, quiet: bool) returns (ok: bool)
      modifies this`index
      ensures ok ==> index == data
      ensures quiet ==> ok
    {
      ok := *;
      if ok || quiet {
        ok, index := true, data;
      } else {
        index := *;
      }
    }

    /** A step that touches neither HEAD nor the index and may fail for its own reasons. */
    method Attempt(quiet: bool) returns (ok: bool)
      ensures quiet ==> ok
    {
      ok := *;
      ok := ok || quiet;
    }

    /** git rev-parse HEAD */
    method ReadHead(quiet: bool) returns (current: Option<Commit>)
      ensures current.Some? ==> current == head
      ensures quiet ==> current == head
    {
      var ok := Attempt(quiet);
      current := if ok then head else None;
    }

    /**
     git commit with its hooks. In a quiet repository it records the index, and fails when
     there is nothing to record; otherwise HEAD, index, worktree and exit status are arbitrary.
     */
    method GitCommit(quiet: bool) returns (ok: bool)
      modifies this
      ensures quiet && old(head).Some? && old(index) != old(head).value.tree ==>
                ok && index == old(index) && worktree == old(worktree) && head.Some? && head.value.Child?
                && head.value.parent == old(head).value && head.value.tree == old(index)
    {
      if quiet && head.Some? {
        var stamp: nat := *;
        ok := index != head.value.tree;
        if ok {
          head := Some(Child(head.value, index, stamp));
        }
      } else {
        head, index, worktree, ok := *, *, *, *;
      }
    }

    /** git add -- path in a temporary index: records the content, or the absence, of a path. */
    method Add(temp: Tree, p: Path, quiet: bool) returns (ok: bool, updated: Tree)
      ensures ok ==> updated == if p in worktree then temp[p := worktree[p]] else temp - {p}
      ensures quiet && (p in worktree || p in temp) ==> ok
    {
      ok := Attempt(quiet);
      ok := ok && (p in worktree || p in temp);
      updated := if p in worktree then temp[p := worktree[p]] else temp - {p};
    }

    /** stageAssignment: the index becomes HEAD plus the assigned paths. */
    method StageAssignment(original: Tree, paths: seq<Path>, quiet: bool) returns (ok: bool)
      modifies this`index
      ensures ok ==> head.Some? && index == Staged(head.value.tree, worktree, Set(paths))
      ensures quiet && head.Some? && (forall p :: p in paths ==> p in worktree || p in head.value.tree) ==> ok
    {
      ok := WriteIndex(original, quiet);
      if !ok {
        return;
      }
      ok := Attempt(quiet);
      if !ok || head.None? {
        return false;
      }
      var temp;
      ok, temp := AddAll(head.value.tree, paths, quiet);
      if ok {
        ok := WriteIndex(temp, quiet);
      }
    }

    /** git add for each distinct path, in a temporary index that starts as HEAD. */
    method AddAll(headTree: Tree, paths: seq<Path>, quiet: bool) returns (ok: bool, temp: Tree)
      ensures ok ==> temp == Staged(headTree, worktree, Set(paths))
      ensures quiet && (forall p :: p in paths ==> p in worktree || p in headTree) ==> ok
    {
      ok, temp := true, headTree;
      StagedNothing(headTree, worktree);
      for i := 0 to |paths|
        invariant ok && temp == Staged(headTree, worktree, Set(paths[..i]))
      {
        SetStep(paths, i);
        if paths[i] !in paths[..i] {
          StagedAt(headTree, worktree, Set(paths[..i]), paths[i]);
          StageOne(headTree, worktree, Set(paths[..i]), paths[i]);
          ok, temp := Add(temp, paths[i], quiet);
          if !ok {
            return;
          }
        }
      }
      assert paths[..|paths|] == paths;
    }

    /** restoreOutOfScopeIndex: keeps the original index outside the paths, mirrors HEAD inside. */
    method RestoreOutOfScope(original: Tree, paths: seq<Path>, quiet: bool) returns (ok: bool)
      modifies this`index
      ensures ok ==> (paths != [] ==> head.Some?)
      ensures ok && head.Some? ==> index == Retained(original, head.value.tree, Set(paths))
      ensures ok && head.None? ==> index == original
      ensures quiet && head.Some? ==> ok
    {
      var temp := original;
      RetainedNothing(original, if head.Some? then head.value.tree else map[]);
      for i := 0 to |paths|
        invariant head.Some? ==> temp == Retained(original, head.value.tree, Set(paths[..i]))
        invariant head.None? ==> i == 0 && temp == original
      {
        SetStep(paths, i);
        ok := Attempt(quiet);
        if !ok || head.None? {
          return false;
        }
        var p := paths[i];
        RetainOne(original, head.value.tree, Set(paths[..i]), p);
        temp := if p in head.value.tree then temp[p := head.value.tree[p]] else temp - {p};
      }
      assert paths[..|paths|] == paths;
      ok := WriteIndex(temp, quiet);
    }
  }

  function Set(paths: seq<Path>): set<Path> { set p | p in paths }

  lemma SetStep(paths: seq<Path>, i: nat)
    requires i < |paths|
    ensures Set(paths[..i + 1]) == Set(paths[..i]) + {paths[i]}
    ensures paths[i] in paths[..i] ==> Set(paths[..i + 1]) == Set(paths[..i])
  {
    assert paths[..i + 1] == paths[..i] + [paths[i]];
  }

  lemma StagedNothing(headTree: Tree, worktree: Tree)
    ensures Staged(headTree, worktree, {}) == headTree
    ensures Set([]) == {}
  {
  }

  lemma RetainedNothing(original: Tree, headTree: Tree)
    ensures Retained(original, headTree, {}) == original
    ensures Set([]) == {}
  {
  }

  lemma StageOne(headTree: Tree, worktree: Tree, done: set<Path>, p: Path)
    ensures Staged(headTree, worktree, done + {p})
         == if p in worktree then Staged(headTree, worktree, done)[p := worktree[p]] else Staged(headTree, worktree, done) - {p}
  {
  }

  lemma RetainOne(original: Tree, headTree: Tree, done: set<Path>, p: Path)
    ensures Retained(original, headTree, done + {p})
         == if p in headTree then Retained(original, headTree, done)[p := headTree[p]] else Retained(original, headTree, done) - {p}
  {
  }

  // ---------------------------------------------------------------- plans

  datatype FileId = NoId | Id(number: nat)
  datatype Change = Change(id: FileId, oldPath: Option<Path>, newPath: Option<Path>)

  /** Every path a change stages, for a rename the old and the new one. */
  function ChangePaths(c: Change): seq<Path>
  {
    (if c.oldPath.Some? then [c.oldPath.value] else []) + (if c.newPath.Some? then [c.newPath.value] else [])
  }

  function AssignmentPaths(byId: map<FileId, Change>, ids: seq<FileId>): seq<Path>
    requires forall id :: id in ids ==> id in byId
  {
    if ids == [] then []
    else AssignmentPaths(byId, ids[..|ids| - 1]) + ChangePaths(byId[ids[|ids| - 1]])
  }

  datatype ErrorKind =
    | EmptyRequest | InvalidChanges | EmptyAssignment | RepeatedAssignment | Revalidation | Interrupted | Raw
    | CommitFailed | HashUnknown | ParentUnreadable | ParentMismatch | FileSetUnreadable | FileSetMismatch | OutputFailed
    | NotAllAssigned | RestorationUnknown

  datatype Failure = Failure(kind: ErrorKind, commit: Option<Commit>, paths: set<Path>, restored: bool)

  function Fail(kind: ErrorKind): Option<Failure> { Some(Failure(kind, None, {}, false)) }

  /** hash is exactly the commit of these paths on top of parent. */
  ghost predicate IsCommitOf(parent: Commit, hash: Commit, paths: seq<Path>)
  {
    hash.Child? && hash.parent == parent && ChangedPaths(hash) == Set(paths)
  }

  method ValidateCreatedCommit(repo: Repository, parent: Commit, hash: Commit, paths: seq<Path>, quiet: bool) returns (failure: Option<Failure>)
    ensures failure.None? ==> IsCommitOf(parent, hash, paths)
    ensures quiet && IsCommitOf(parent, hash, paths) ==> failure.None?
    ensures failure.Some? ==> !failure.value.restored && !failure.value.kind.RestorationUnknown?
  {
    var ok := repo.Attempt(quiet);
    if !ok || hash.Initial? {
      return Some(Failure(ParentUnreadable, Some(hash), {}, false));
    }
    if hash.parent != parent {
      return Some(Failure(ParentMismatch, Some(hash), {}, false));
    }
    ok := repo.Attempt(quiet);
    if !ok {
      return Some(Failure(FileSetUnreadable, Some(hash), {}, false));
    }
    var actual, expected := ChangedPaths(hash), Set(paths);
    if actual != expected {
      return Some(Failure(FileSetMismatch, Some(hash), (actual - expected) + (expected - actual), false));
    }
    failure := None;
  }

  ghost predicate DistinctIds(changes: seq<Change>)
  {
    && (forall i :: 0 <= i < |changes| ==> changes[i].id != NoId)
    && forall i, j :: 0 <= i < j < |changes| ==> changes[i].id != changes[j].id
  }

  function IdSet(changes: seq<Change>): set<FileId> { set c | c in changes :: c.id }

  ghost predicate Indexes(byId: map<FileId, Change>, changes: seq<Change>)
  {
    byId.Keys == IdSet(changes) && forall c :: c in changes ==> byId[c.id] == c
  }

  lemma IndexStep(byId: map<FileId, Change>, changes: seq<Change>, c: Change)
    requires DistinctIds(changes) && Indexes(byId, changes)
    ensures DistinctIds(changes + [c]) <==> c.id != NoId && c.id !in byId
    ensures c.id !in byId ==> Indexes(byId[c.id := c], changes + [c])
  {
    var more := changes + [c];
    assert more[|changes|] == c && forall i :: 0 <= i < |changes| ==> more[i] == changes[i];
    if c.id in byId {
      var d :| d in changes && d.id == c.id;
      var i :| 0 <= i < |changes| && changes[i] == d;
      assert more[i].id == more[|changes|].id;
    } else {
      assert forall i :: 0 <= i < |changes| ==> changes[i] in changes;
    }
  }

  lemma DistinctPrefix(changes: seq<Change>, n: nat)
    requires n <= |changes|
    ensures DistinctIds(changes) ==> DistinctIds(changes[..n])
  {
  }

  method IndexChanges(changes: seq<Change>) returns (ok: bool, byId: map<FileId, Change>)
    ensures ok <==> DistinctIds(changes)
    ensures ok ==> Indexes(byId, changes)
  {
    byId := map[];
    for i := 0 to |changes|
      invariant DistinctIds(changes[..i]) && Indexes(byId, changes[..i])
    {
      assert changes[..i + 1] == changes[..i] + [changes[i]];
      IndexStep(byId, changes[..i], changes[i]);
      DistinctPrefix(changes, i + 1);
      if changes[i].id == NoId || changes[i].id in byId {
        return false, byId;
      }
      byId := byId[changes[i].id := changes[i]];
    }
    assert changes[..|changes|] == changes;
    ok := true;
  }

  function IdsIn(ids: seq<FileId>): set<FileId> { set id | id in ids }

  /** Resolves one assignment; every file must be known and not yet assigned. */
  method ResolveAssignment(byId: map<FileId, Change>, ids: seq<FileId>, before: set<FileId>)
    returns (ok: bool, taken: set<FileId>, paths: seq<Path>)
    ensures ok <==> FreshIds(byId, ids, before)
    ensures ok ==> taken == before + IdsIn(ids) && paths == AssignmentPaths(byId, ids)
  {
    taken, paths := before, [];
    for i := 0 to |ids|
      invariant FreshIds(byId, ids[..i], before)
      invariant taken == before + IdsIn(ids[..i])
      invariant paths == AssignmentPaths(byId, ids[..i])
    {
      var more := ids[..i + 1];
      assert more == ids[..i] + [ids[i]] && more[..i] == ids[..i];
      if ids[i] !in byId || ids[i] in taken {
        assert ids[i] in taken ==> ids[i] in before || ids[i] in ids[..i];
        return false, taken, paths;
      }
      taken := taken + {ids[i]};
      paths := paths + ChangePaths(byId[ids[i]]);
    }
    assert ids[..|ids|] == ids;
    ok := true;
  }

  /** Known files, none repeated, none assigned before. */
  ghost predicate FreshIds(byId: map<FileId, Change>, ids: seq<FileId>, before: set<FileId>)
  {
    && (forall id :: id in ids ==> id in byId && id !in before)
    && forall i, j :: 0 <= i < j < |ids| ==> ids[i] != ids[j]
  }

  // ---------------------------------------------------------------- the transaction

  /**
   What the transaction has done so far: the commits it recorded, of which the first ones have been
   validated, and the paths it took over. Unread means that HEAD could not be read after the last git commit.
   */
  datatype Progress = Progress(hashes: seq<Commit>, created: bool, committed: seq<Path>, unread: bool, validated: nat)

  const NOTHING := Progress([], false, [], false, 0)

  /**
   The user's index is conserved: untouched if nothing was committed, and otherwise the original
   selection outside the committed paths with exactly HEAD's content inside them.
   */
  ghost predicate IndexConserved(original: Tree, head: Option<Commit>, index: Tree, p: Progress)
  {
    if !p.created then index == original
    else if head.Some? then index == Retained(original, head.value.tree, Set(p.committed))
    else p.committed == [] && index == original
  }

  /** Each commit sits on the one before it and changes exactly the paths of its assignment. */
  ghost predicate Chain(start: Commit, hashes: seq<Commit>, assignments: seq<seq<Path>>)
  {
    && |hashes| == |assignments|
    && forall k :: 0 <= k < |hashes| ==> Linked(start, hashes, k, assignments[k])
  }

  ghost predicate Linked(start: Commit, hashes: seq<Commit>, k: int, paths: seq<Path>)
    requires 0 <= k < |hashes|
  {
    IsCommitOf(if k == 0 then start else hashes[k - 1], hashes[k], paths)
  }

  function Tip(start: Commit, hashes: seq<Commit>): Commit { if hashes == [] then start else hashes[|hashes| - 1] }

  function Flatten(assignments: seq<seq<Path>>): seq<Path>
  {
    if assignments == [] then [] else Flatten(assignments[..|assignments| - 1]) + assignments[|assignments| - 1]
  }

  lemma ChainGrows(start: Commit, hashes: seq<Commit>, assignments: seq<seq<Path>>, hash: Commit, paths: seq<Path>)
    requires Chain(start, hashes, assignments) && IsCommitOf(Tip(start, hashes), hash, paths)
    ensures Chain(start, hashes + [hash], assignments + [paths])
    ensures Flatten(assignments + [paths]) == Flatten(assignments) + paths
  {
    var more := assignments + [paths];
    assert more[..|more| - 1] == assignments && more[|more| - 1] == paths;
    var grown := hashes + [hash];
    forall k | 0 <= k < |grown| ensures Linked(start, grown, k, more[k]) {
      LinkedStill(start, hashes, k, assignments, hash, paths);
    }
  }

  lemma LinkedStill(start: Commit, hashes: seq<Commit>, k: nat, assignments: seq<seq<Path>>, hash: Commit, paths: seq<Path>)
    requires Chain(start, hashes, assignments) && IsCommitOf(Tip(start, hashes), hash, paths) && k <= |hashes|
    ensures Linked(start, hashes + [hash], k, (assignments + [paths])[k])
  {
    if k < |hashes| {
      assert Linked(start, hashes, k, assignments[k]);
    }
  }

  /** HEAD as the recorded commits have it. */
  function Latest(start: Option<Commit>, hashes: seq<Commit>): Option<Commit> { if hashes == [] then start else Some(hashes[|hashes| - 1]) }

  /** What is noted after git commit, from its exit status and an attempt to read HEAD. */
  function Noted(before: Progress, parent: Commit, paths: seq<Path>, exit: bool, read: Option<Commit>): Progress
  {
    if exit || (read.Some? && read.value != parent) then
      Progress(before.hashes + (if read.Some? then [read.value] else []), true, before.committed + paths, read.None?, before.validated)
    else before.(unread := read.None?)
  }

  /** git commit and what follows, up to the validation of a commit that is found. */
  method RunCommit(repo: Repository, parent: Commit, paths: seq<Path>, before: Progress, quiet: bool)
    returns (exit: bool, read: Option<Commit>, after: Progress, failure: Option<Failure>)
    requires repo.head == Some(parent)
    modifies repo
    ensures read.Some? ==> read == repo.head
    ensures var noted := Noted(before, parent, paths, exit, read);
            after == noted || (after == noted.(validated := before.validated + 1) && |after.hashes| == |before.hashes| + 1
                               && IsCommitOf(parent, after.hashes[|before.hashes|], paths))
    ensures failure.None? && (exit || (read.Some? && read.value != parent)) ==> after.validated == before.validated + 1
    ensures failure.None? && exit ==> read.Some?
    ensures failure.Some? ==> !failure.value.restored && !failure.value.kind.RestorationUnknown?
    ensures quiet && old(repo.index) != parent.tree && (forall stamp :: ChangedPaths(Child(parent, old(repo.index), stamp)) == Set(paths)) ==>
              exit && failure.None? && repo.worktree == old(repo.worktree) && repo.head.value.tree == old(repo.index)
  {
    exit := repo.GitCommit(quiet);
    read := repo.ReadHead(quiet);
    after := Noted(before, parent, paths, exit, read);
    failure := None;
    if exit && read.None? {
      failure := Fail(HashUnknown);
    } else if read.Some? && (exit || read.value != parent) {
      failure := ValidateCreatedCommit(repo, parent, read.value, paths, quiet);
      if failure.None? {
        after := after.(validated := before.validated + 1);
      }
    }
  }

  /** Where HEAD stands after one round: at the commit that was recorded, or where it was. */
  ghost predicate HeadKnown(before: Progress, after: Progress, was: Option<Commit>, head: Option<Commit>)
  {
    && before.hashes <= after.hashes && |after.hashes| <= |before.hashes| + 1
    && (after.hashes != before.hashes ==> was.Some?)
    && (!after.unread ==> head == if |after.hashes| == |before.hashes| then was else Some(after.hashes[|before.hashes|]))
  }

  /** Whatever happens in a round, at most one commit and its paths are added, and validated only if it is right. */
  ghost predicate RoundKeeps(before: Progress, after: Progress, was: Option<Commit>, paths: seq<Path>)
  {
    && (before.created ==> after.created)
    && (after.committed == before.committed || after.committed == before.committed + paths)
    && (!after.created ==> after == before.(unread := after.unread))
    && (after.hashes != before.hashes ==> after.created && after.committed == before.committed + paths)
    && (after.validated == before.validated
        || (after.validated == before.validated + 1 && |after.hashes| == |before.hashes| + 1
            && was.Some? && IsCommitOf(was.value, after.hashes[|before.hashes|], paths)))
  }

  /** One commit of the plan: stage, commit, validate, restore the index outside. */
  method CommitOne(repo: Repository, original: Tree, paths: seq<Path>, before: Progress, quiet: bool)
    returns (failure: Option<Failure>, after: Progress)
    requires !before.unread
    modifies repo
    ensures HeadKnown(before, after, old(repo.head), repo.head) && RoundKeeps(before, after, old(repo.head), paths)
    ensures failure.None? ==>
      && old(repo.head).Some? && repo.head.Some? && IsCommitOf(old(repo.head).value, repo.head.value, paths)
      && after == Progress(before.hashes + [repo.head.value], true, before.committed + paths, false, before.validated + 1)
      && IndexConserved(original, repo.head, repo.index, after)
    ensures failure.Some? ==> !failure.value.restored && !failure.value.kind.RestorationUnknown?
    ensures quiet && QuietCommit(old(repo.head), old(repo.worktree), Set(paths)) ==>
      failure.None? && repo.worktree == old(repo.worktree)
      && repo.head.value.tree == Staged(old(repo.head).value.tree, old(repo.worktree), Set(paths))
  {
    after := before;
    var ok := repo.Attempt(quiet);
    if !ok {
      return Fail(Revalidation), after;
    }
    if quiet && QuietCommit(repo.head, repo.worktree, Set(paths)) {
      QuietStaging(repo.head.value.tree, repo.worktree, paths);
    }
    ok := repo.StageAssignment(original, paths, quiet);
    if !ok {
      return Fail(Raw), after;
    }
    var parent := repo.ReadHead(quiet);
    if parent.None? {
      return Fail(Raw), after;
    }
    var read;
    ok, read, after, failure := RunCommit(repo, parent.value, paths, before, quiet);
    if failure.Some? {
      return;
    }
    if !ok {
      var running := repo.Attempt(quiet);
      return Some(Failure(if running then CommitFailed else Interrupted, if read == parent then None else read, {}, false)), after;
    }
    ok := repo.RestoreOutOfScope(original, after.committed, quiet);
    if !ok {
      return Fail(Raw), after;
    }
    ok := repo.Attempt(quiet);
    if !ok {
      return Some(Failure(OutputFailed, read, {}, false)), after;
    }
    failure := None;
  }

  /** HEAD exists and the worktree really changes every one of the paths, of which there is one. */
  ghost predicate QuietCommit(head: Option<Commit>, worktree: Tree, paths: set<Path>)
  {
    head.Some? && paths != {} && forall p :: p in paths ==> Lookup(head.value.tree, p) != Lookup(worktree, p)
  }

  /** Without interference, staging real changes yields a commit of exactly those paths. */
  lemma QuietStaging(headTree: Tree, worktree: Tree, paths: seq<Path>)
    requires Set(paths) != {} && forall p :: p in Set(paths) ==> Lookup(headTree, p) != Lookup(worktree, p)
    ensures forall p :: p in paths ==> p in worktree || p in headTree
    ensures var t := Staged(headTree, worktree, Set(paths));
            t != headTree && forall parent: Commit, stamp :: parent.tree == headTree ==> ChangedPaths(Child(parent, t, stamp)) == Set(paths)
  {
    var t := Staged(headTree, worktree, Set(paths));
    forall p ensures Lookup(t, p) == if p in Set(paths) then Lookup(worktree, p) else Lookup(headTree, p) {
      StagedAt(headTree, worktree, Set(paths), p);
    }
    forall p | p in paths ensures p in worktree || p in headTree {
      assert p in Set(paths);
    }
    var p :| p in Set(paths);
    assert Lookup(t, p) != Lookup(headTree, p);
  }

  // ---------------------------------------------------------------- the whole plan

  function AllIds(plan: seq<seq<FileId>>): set<FileId>
  {
    if plan == [] then {} else AllIds(plan[..|plan| - 1]) + IdsIn(plan[|plan| - 1])
  }

  /** Every assignment is non-empty and takes known files that no earlier assignment took. */
  ghost predicate Assigns(byId: map<FileId, Change>, plan: seq<seq<FileId>>)
  {
    plan == [] ||
    (var init, last := plan[..|plan| - 1], plan[|plan| - 1];
     Assigns(byId, init) && last != [] && FreshIds(byId, last, AllIds(init)))
  }

  ghost function Assignments(byId: map<FileId, Change>, plan: seq<seq<FileId>>): (paths: seq<seq<Path>>)
    requires Assigns(byId, plan)
    ensures |paths| == |plan|
  {
    if plan == [] then []
    else Assignments(byId, plan[..|plan| - 1]) + [AssignmentPaths(byId, plan[|plan| - 1])]
  }

  lemma AssignsStep(byId: map<FileId, Change>, plan: seq<seq<FileId>>, i: nat)
    requires i < |plan| && Assigns(byId, plan[..i]) && plan[i] != [] && FreshIds(byId, plan[i], AllIds(plan[..i]))
    ensures Assigns(byId, plan[..i + 1])
    ensures AllIds(plan[..i + 1]) == AllIds(plan[..i]) + IdsIn(plan[i])
    ensures Assignments(byId, plan[..i + 1]) == Assignments(byId, plan[..i]) + [AssignmentPaths(byId, plan[i])]
  {
    var more := plan[..i + 1];
    assert more[..|more| - 1] == plan[..i] && more[|more| - 1] == plan[i];
  }

  lemma {:induction false} AssignsPrefix(byId: map<FileId, Change>, plan: seq<seq<FileId>>, i: nat)
    requires Assigns(byId, plan) && i < |plan|
    ensures Assigns(byId, plan[..i]) && plan[i] != [] && FreshIds(byId, plan[i], AllIds(plan[..i]))
    ensures Assignments(byId, plan)[i] == AssignmentPaths(byId, plan[i])
    ensures Assignments(byId, plan)[..i] == Assignments(byId, plan[..i])
  {
    var n := |plan| - 1;
    if i < n {
      AssignsPrefix(byId, plan[..n], i);
      assert plan[..n][..i] == plan[..i] && plan[..n][i] == plan[i];
    } else {
      assert Assignments(byId, plan)[..n] == Assignments(byId, plan[..n]);
    }
  }

  /** The plan really changes files, and no two of its commits touch the same path. */
  ghost predicate Executable(byId: map<FileId, Change>, headTree: Tree, worktree: Tree, plan: seq<seq<FileId>>)
  {
    && plan != [] && Assigns(byId, plan) && AllIds(plan) == byId.Keys
    && AllReal(headTree, worktree, Assignments(byId, plan)) && NoneEmpty(Assignments(byId, plan)) && Apart(Assignments(byId, plan))
  }

  ghost predicate AllReal(headTree: Tree, worktree: Tree, assignments: seq<seq<Path>>)
  {
    forall k, p :: 0 <= k < |assignments| && p in assignments[k] ==> Lookup(headTree, p) != Lookup(worktree, p)
  }

  ghost predicate NoneEmpty(assignments: seq<seq<Path>>) { forall k :: 0 <= k < |assignments| ==> assignments[k] != [] }

  ghost predicate Apart(assignments: seq<seq<Path>>)
  {
    forall j, k :: 0 <= j < k < |assignments| ==> Set(assignments[j]) !! Set(assignments[k])
  }

  lemma {:induction false} FlattenMember(assignments: seq<seq<Path>>, p: Path)
    ensures p in Flatten(assignments) <==> exists k :: 0 <= k < |assignments| && p in assignments[k]
  {
    if assignments != [] {
      var n := |assignments| - 1;
      FlattenMember(assignments[..n], p);
      assert forall k :: 0 <= k < n ==> assignments[..n][k] == assignments[k];
    }
  }

  /** After the earlier commits, the next assignment's paths are still as in the original HEAD. */
  lemma NextIsReal(byId: map<FileId, Change>, headTree: Tree, worktree: Tree, plan: seq<seq<FileId>>, i: nat)
    requires Executable(byId, headTree, worktree, plan) && i < |plan|
    ensures Assigns(byId, plan[..i]) && FreshIds(byId, plan[i], AllIds(plan[..i])) && plan[i] != []
    ensures var paths := AssignmentPaths(byId, plan[i]);
            var tree := Staged(headTree, worktree, Set(Flatten(Assignments(byId, plan[..i]))));
            Set(paths) != {} && forall p :: p in Set(paths) ==> Lookup(tree, p) != Lookup(worktree, p)
  {
    AssignsPrefix(byId, plan, i);
    var all := Assignments(byId, plan);
    var done := Assignments(byId, plan[..i]);
    var paths := all[i];
    assert paths[0] in Set(paths);
    forall p | p in Set(paths) ensures Lookup(Staged(headTree, worktree, Set(Flatten(done))), p) != Lookup(worktree, p) {
      forall k | 0 <= k < |done| ensures p !in done[k] {
        assert done[k] == all[k] && Set(all[k]) !! Set(all[i]);
        assert p in Set(all[i]) && p !in Set(all[k]);
      }
      FlattenMember(done, p);
      StagedAt(headTree, worktree, Set(Flatten(done)), p);
    }
  }

  lemma StagedTwice(headTree: Tree, worktree: Tree, a: seq<Path>, b: seq<Path>)
    ensures Staged(Staged(headTree, worktree, Set(a)), worktree, Set(b)) == Staged(headTree, worktree, Set(a + b))
  {
    assert Set(a + b) == Set(a) + Set(b);
    StagedOver(headTree, worktree, Set(a), Set(b));
  }

  lemma StagedOver(headTree: Tree, worktree: Tree, a: set<Path>, b: set<Path>)
    ensures Staged(Staged(headTree, worktree, a), worktree, b) == Staged(headTree, worktree, a + b)
  {
    var twice, once := Staged(Staged(headTree, worktree, a), worktree, b), Staged(headTree, worktree, a + b);
    forall p ensures Lookup(twice, p) == Lookup(once, p) {
      StagedAt(headTree, worktree, a, p);
      StagedAt(Staged(headTree, worktree, a), worktree, b, p);
      StagedAt(headTree, worktree, a + b, p);
    }
    SameTree(twice, once);
  }

  lemma SameTree(s: Tree, t: Tree)
    requires forall p :: Lookup(s, p) == Lookup(t, p)
    ensures s == t
  {
    forall p ensures p in s <==> p in t { assert Lookup(s, p) == Lookup(t, p); }
    forall p | p in s ensures s[p] == t[p] { assert Lookup(s, p) == Lookup(t, p); }
  }

  /** Where the loop stands after i commits. */
  ghost predicate Advanced(start: Option<Commit>, original: Tree, byId: map<FileId, Change>, plan: seq<seq<FileId>>, i: nat,
                           head: Option<Commit>, index: Tree, p: Progress)
  {
    && i <= |plan| && Assigns(byId, plan[..i])
    && p.committed == Flatten(Assignments(byId, plan[..i])) && |p.hashes| == i == p.validated && p.created == (0 < i) && !p.unread
    && IndexConserved(original, head, index, p)
    && (i == 0 ==> head == start)
    && (0 < i ==> start.Some?)
    && (start.Some? ==> Chain(start.value, p.hashes, Assignments(byId, plan[..i])) && head == Some(Tip(start.value, p.hashes)))
  }

  lemma AdvancedStep(start: Option<Commit>, original: Tree, byId: map<FileId, Change>, plan: seq<seq<FileId>>, i: nat,
                     head: Option<Commit>, index: Tree, p: Progress, head': Option<Commit>, index': Tree, p': Progress)
    requires Advanced(start, original, byId, plan, i, head, index, p)
    requires i < |plan| && plan[i] != [] && FreshIds(byId, plan[i], AllIds(plan[..i]))
    requires head.Some? && head'.Some? && IsCommitOf(head.value, head'.value, AssignmentPaths(byId, plan[i]))
    requires p' == Progress(p.hashes + [head'.value], true, p.committed + AssignmentPaths(byId, plan[i]), false, p.validated + 1)
    requires IndexConserved(original, head', index', p')
    ensures Advanced(start, original, byId, plan, i + 1, head', index', p')
  {
    AssignsStep(byId, plan, i);
    ChainGrows(start.value, p.hashes, Assignments(byId, plan[..i]), head'.value, AssignmentPaths(byId, plan[i]));
  }

  /** The paths of all planned changes. */
  function PlannedPaths(changes: seq<Change>): set<Path>
  {
    (set c | c in changes && c.oldPath.Some? :: c.oldPath.value) + set c | c in changes && c.newPath.Some? :: c.newPath.value
  }

  /** The change concerns the path: it was there before, or it is there now. */
  predicate Touches(c: Change, p: Path) { c.oldPath == Some(p) || c.newPath == Some(p) }

  /** One of the changes with these IDs concerns the path. */
  ghost predicate TouchedBy(changes: seq<Change>, ids: seq<FileId>, p: Path) { exists c :: c in changes && c.id in ids && Touches(c, p) }

  lemma ChangeTouches(c: Change, p: Path)
    ensures p in ChangePaths(c) <==> Touches(c, p)
  {
  }

  lemma {:induction false} AssignmentTouches(byId: map<FileId, Change>, changes: seq<Change>, ids: seq<FileId>, p: Path)
    requires Indexes(byId, changes) && forall id :: id in ids ==> id in byId
    ensures p in AssignmentPaths(byId, ids) <==> TouchedBy(changes, ids, p)
  {
    if ids != [] {
      var n := |ids| - 1;
      AssignmentTouches(byId, changes, ids[..n], p);
      ChangeTouches(byId[ids[n]], p);
      assert ids[n] in IdSet(changes);
      var d :| d in changes && d.id == ids[n];
      assert byId[ids[n]] == d && forall id :: id in ids <==> id in ids[..n] || id == ids[n];
      if c :| c in changes && c.id in ids && Touches(c, p) {
        assert byId[c.id] == c;
      }
    }
  }

  /** Some of the first m assignments concerns the path. */
  ghost predicate TouchedUpTo(changes: seq<Change>, plan: seq<seq<FileId>>, m: nat, p: Path)
    requires m <= |plan|
  {
    exists k :: 0 <= k < m && TouchedBy(changes, plan[k], p)
  }

  lemma TouchedUpToStep(changes: seq<Change>, plan: seq<seq<FileId>>, m: nat, p: Path)
    requires m < |plan|
    ensures TouchedUpTo(changes, plan, m + 1, p) <==> TouchedUpTo(changes, plan, m, p) || TouchedBy(changes, plan[m], p)
  {
  }

  lemma FlattenStep(byId: map<FileId, Change>, plan: seq<seq<FileId>>, m: nat)
    requires m < |plan| && Assigns(byId, plan[..m + 1])
    ensures Assigns(byId, plan[..m]) && plan[m] != [] && FreshIds(byId, plan[m], AllIds(plan[..m]))
    ensures Flatten(Assignments(byId, plan[..m + 1])) == Flatten(Assignments(byId, plan[..m])) + AssignmentPaths(byId, plan[m])
  {
    var more := plan[..m + 1];
    assert more[..m] == plan[..m] && more[m] == plan[m];
    var all := Assignments(byId, more);
    assert all == Assignments(byId, plan[..m]) + [AssignmentPaths(byId, plan[m])];
    assert all[..m] == Assignments(byId, plan[..m]);
  }

  lemma {:induction false} FlattenTouches(byId: map<FileId, Change>, changes: seq<Change>, plan: seq<seq<FileId>>, m: nat, p: Path)
    requires m <= |plan| && Indexes(byId, changes) && Assigns(byId, plan[..m])
    ensures p in Flatten(Assignments(byId, plan[..m])) <==> TouchedUpTo(changes, plan, m, p)
  {
    if m > 0 {
      FlattenStep(byId, plan, m - 1);
      FlattenTouches(byId, changes, plan, m - 1, p);
      AssignmentTouches(byId, changes, plan[m - 1], p);
      TouchedUpToStep(changes, plan, m - 1, p);
    }
  }

  lemma {:induction false} AssignmentPlanned(byId: map<FileId, Change>, changes: seq<Change>, ids: seq<FileId>)
    requires Indexes(byId, changes) && forall id :: id in ids ==> id in byId
    ensures Set(AssignmentPaths(byId, ids)) <= PlannedPaths(changes)
  {
    if ids != [] {
      var n := |ids| - 1;
      AssignmentPlanned(byId, changes, ids[..n]);
      assert ids[n] in IdSet(changes);
      var c :| c in changes && c.id == ids[n];
      assert byId[ids[n]] == c;
    }
  }

  lemma {:induction false} CommittedPlanned(byId: map<FileId, Change>, changes: seq<Change>, plan: seq<seq<FileId>>)
    requires Indexes(byId, changes) && Assigns(byId, plan)
    ensures Set(Flatten(Assignments(byId, plan))) <= PlannedPaths(changes)
  {
    if plan != [] {
      var n := |plan| - 1;
      CommittedPlanned(byId, changes, plan[..n]);
      AssignmentPlanned(byId, changes, plan[n]);
      var all := Assignments(byId, plan);
      assert all[..n] == Assignments(byId, plan[..n]);
      assert Set(Flatten(all[..n]) + all[n]) == Set(Flatten(all[..n])) + Set(all[n]);
    }
  }

  /** Along a chain, only the assigned paths change. */
  lemma {:induction false} ChainTouchesOnly(start: Commit, hashes: seq<Commit>, assignments: seq<seq<Path>>, p: Path)
    requires Chain(start, hashes, assignments) && p !in Flatten(assignments)
    ensures Lookup(Tip(start, hashes).tree, p) == Lookup(start.tree, p)
  {
    if hashes != [] {
      var n := |hashes| - 1;
      forall k | 0 <= k < n ensures Linked(start, hashes[..n], k, assignments[..n][k]) {
        assert Linked(start, hashes, k, assignments[k]);
      }
      ChainTouchesOnly(start, hashes[..n], assignments[..n], p);
      assert Linked(start, hashes, n, assignments[n]);
      assert p !in Set(assignments[n]);
      assert hashes[n].parent == Tip(start, hashes[..n]);
    }
  }

  /** HEAD holds the initial tree with the committed paths replaced by their worktree content. */
  ghost predicate Undisturbed(start: Option<Commit>, worktree: Tree, head: Option<Commit>, committed: seq<Path>)
  {
    start.Some? && head.Some? && head.value.tree == Staged(start.value.tree, worktree, Set(committed))
  }

  /** The paths taken over are planned ones, and none without a commit. */
  ghost predicate Accounted(changes: seq<Change>, p: Progress)
  {
    && (!p.created ==> p.committed == [] && p.hashes == [] && p.validated == 0)
    && (DistinctIds(changes) ==> Set(p.committed) <= PlannedPaths(changes))
  }

  /** All recorded commits but perhaps the last one are validated, and they carry out the plan on top of the initial HEAD. */
  ghost predicate Followed(start: Option<Commit>, byId: map<FileId, Change>, plan: seq<seq<FileId>>, p: Progress)
  {
    && p.validated <= |p.hashes| <= p.validated + 1 && p.validated <= |plan| && Assigns(byId, plan[..p.validated])
    && (p.hashes != [] ==> start.Some?)
    && (start.Some? ==> Chain(start.value, p.hashes[..p.validated], Assignments(byId, plan[..p.validated])))
    && TookFirst(byId, plan, p)
  }

  ghost predicate TookFirst(byId: map<FileId, Change>, plan: seq<seq<FileId>>, p: Progress)
  {
    exists m :: p.validated <= m <= p.validated + 1 && TookOver(byId, plan, m, p.committed)
  }

  /** The paths are those of the first m assignments. */
  ghost predicate TookOver(byId: map<FileId, Change>, plan: seq<seq<FileId>>, m: nat, committed: seq<Path>)
  {
    m <= |plan| && Assigns(byId, plan[..m]) && committed == Flatten(Assignments(byId, plan[..m]))
  }

  lemma TakesOver(byId: map<FileId, Change>, plan: seq<seq<FileId>>, i: nat, committed: seq<Path>)
    requires i < |plan| && TookOver(byId, plan, i, committed) && plan[i] != [] && FreshIds(byId, plan[i], AllIds(plan[..i]))
    ensures TookOver(byId, plan, i + 1, committed + AssignmentPaths(byId, plan[i]))
  {
    AssignsStep(byId, plan, i);
    var all := Assignments(byId, plan[..i + 1]);
    assert all[..i] == Assignments(byId, plan[..i]);
  }

  /** Whatever a round does, the commits recorded still follow the plan, and the last one is HEAD. */
  lemma RoundFollowed(start: Option<Commit>, original: Tree, byId: map<FileId, Change>, plan: seq<seq<FileId>>, i: nat, paths: seq<Path>,
                      was: Option<Commit>, index: Tree, p: Progress, head: Option<Commit>, after: Progress)
    requires i < |plan| && plan[i] != [] && FreshIds(byId, plan[i], AllIds(plan[..i])) && paths == AssignmentPaths(byId, plan[i])
    requires Advanced(start, original, byId, plan, i, was, index, p)
    requires HeadKnown(p, after, was, head) && RoundKeeps(p, after, was, paths)
    ensures Followed(start, byId, plan, after)
    ensures !after.unread ==> head == Latest(start, after.hashes)
  {
    TookNext(byId, plan, i, paths, p, after);
    StillFollowed(start, byId, plan, i, was, p, after);
  }

  lemma StillFollowed(start: Option<Commit>, byId: map<FileId, Change>, plan: seq<seq<FileId>>, i: nat,
                      was: Option<Commit>, p: Progress, after: Progress)
    requires i < |plan| && Assigns(byId, plan[..i]) && |p.hashes| == i == p.validated && was == Latest(start, p.hashes)
    requires start.Some? ==> Chain(start.value, p.hashes, Assignments(byId, plan[..i]))
    requires 0 < i ==> start.Some?
    requires plan[i] != [] && FreshIds(byId, plan[i], AllIds(plan[..i]))
    requires p.hashes <= after.hashes && |after.hashes| <= i + 1 && RoundKeeps(p, after, was, AssignmentPaths(byId, plan[i]))
    requires |after.hashes| == i + 1 ==> was.Some?
    requires TookFirst(byId, plan, after)
    ensures Followed(start, byId, plan, after)
  {
    assert after.hashes[..i] == p.hashes;
    if after.validated == i + 1 {
      OneMoreFollowed(start.value, byId, plan, i, p.hashes, after.hashes);
    }
  }

  lemma TookNext(byId: map<FileId, Change>, plan: seq<seq<FileId>>, i: nat, paths: seq<Path>, p: Progress, after: Progress)
    requires i < |plan| && plan[i] != [] && FreshIds(byId, plan[i], AllIds(plan[..i])) && paths == AssignmentPaths(byId, plan[i])
    requires TookOver(byId, plan, i, p.committed) && p.validated == i && i <= after.validated <= i + 1
    requires after.committed == p.committed || after.committed == p.committed + paths
    requires after.validated == i + 1 ==> after.committed == p.committed + paths
    ensures TookFirst(byId, plan, after)
  {
    TakesOver(byId, plan, i, p.committed);
  }

  lemma OneMoreFollowed(start: Commit, byId: map<FileId, Change>, plan: seq<seq<FileId>>, i: nat, hashes: seq<Commit>, more: seq<Commit>)
    requires i < |plan| && Assigns(byId, plan[..i]) && plan[i] != [] && FreshIds(byId, plan[i], AllIds(plan[..i]))
    requires |hashes| == i && |more| == i + 1 && more[..i] == hashes
    requires Chain(start, hashes, Assignments(byId, plan[..i])) && IsCommitOf(Tip(start, hashes), more[i], AssignmentPaths(byId, plan[i]))
    ensures Assigns(byId, plan[..i + 1]) && Chain(start, more[..i + 1], Assignments(byId, plan[..i + 1]))
  {
    AssignsStep(byId, plan, i);
    ChainGrows(start, hashes, Assignments(byId, plan[..i]), more[i], AssignmentPaths(byId, plan[i]));
    assert more[..i + 1] == hashes + [more[i]];
  }

  /** One assignment of the plan. */
  method CommitNext(repo: Repository, ghost start: Option<Commit>, original: Tree, changes: seq<Change>, byId: map<FileId, Change>,
                    plan: seq<seq<FileId>>, i: nat, before: set<FileId>, p: Progress, quiet: bool)
    returns (failure: Option<Failure>, taken: set<FileId>, after: Progress)
    requires i < |plan| && DistinctIds(changes) && Indexes(byId, changes) && before == AllIds(plan[..i])
    requires Advanced(start, original, byId, plan, i, repo.head, repo.index, p)
    modifies repo
    ensures Accounted(changes, after) && Followed(start, byId, plan, after)
    ensures !after.unread ==> repo.head == Latest(start, after.hashes)
    ensures failure.Some? ==> !failure.value.restored && !failure.value.kind.RestorationUnknown?
    ensures failure.None? ==> Advanced(start, original, byId, plan, i + 1, repo.head, repo.index, after) && taken == AllIds(plan[..i + 1])
    ensures failure.None? ==> taken == before + IdsIn(plan[i]) && IdsIn(plan[i]) <= byId.Keys
    ensures quiet && Ready(byId, plan[i], before, old(repo.head), old(repo.worktree))
            && Undisturbed(start, old(repo.worktree), old(repo.head), p.committed) ==>
              failure.None? && repo.worktree == old(repo.worktree) && Undisturbed(start, repo.worktree, repo.head, after.committed)
  {
    after := p;
    StagedSoFar(byId, changes, plan, i, p);
    AlreadyFollowed(start, original, byId, plan, i, repo.head, repo.index, p);
    var paths;
    failure, taken, paths := ResolveNext(repo, changes, byId, plan[i], before, p.committed, quiet);
    if failure.Some? {
      return;
    }
    ghost var head, kept, worktree := repo.head, repo.index, repo.worktree;
    failure, after := CommitOne(repo, original, paths, p, quiet);
    RoundFollowed(start, original, byId, plan, i, paths, head, kept, p, repo.head, after);
    if failure.Some? {
      return;
    }
    AssignsStep(byId, plan, i);
    AdvancedStep(start, original, byId, plan, i, head, kept, p, repo.head, repo.index, after);
    StillUndisturbed(start, worktree, head, p.committed, paths, repo.head);
  }

  /** The checks of one assignment before anything is staged. */
  method ResolveNext(repo: Repository, ghost changes: seq<Change>, byId: map<FileId, Change>, ids: seq<FileId>, before: set<FileId>,
                     ghost committed: seq<Path>, quiet: bool)
    returns (failure: Option<Failure>, taken: set<FileId>, paths: seq<Path>)
    requires Indexes(byId, changes) && (DistinctIds(changes) ==> Set(committed) <= PlannedPaths(changes))
    ensures failure.Some? ==> !failure.value.restored && !failure.value.kind.RestorationUnknown?
    ensures failure.None? ==>
      && ids != [] && FreshIds(byId, ids, before) && taken == before + IdsIn(ids) && paths == AssignmentPaths(byId, ids)
      && (DistinctIds(changes) ==> Set(committed + paths) <= PlannedPaths(changes))
    ensures quiet && ids != [] && FreshIds(byId, ids, before) ==> failure.None?
  {
    taken, paths := before, [];
    var ok := repo.Attempt(quiet);
    if !ok {
      return Fail(Interrupted), taken, paths;
    }
    if |ids| == 0 {
      return Fail(EmptyAssignment), taken, paths;
    }
    ok, taken, paths := ResolveAssignment(byId, ids, taken);
    if !ok {
      return Fail(RepeatedAssignment), taken, paths;
    }
    if DistinctIds(changes) {
      StillPlanned(byId, changes, ids, committed);
    }
    failure := None;
  }

  lemma StillUndisturbed(start: Option<Commit>, worktree: Tree, head: Option<Commit>, committed: seq<Path>, paths: seq<Path>, head': Option<Commit>)
    requires head.Some? && head'.Some?
    ensures Undisturbed(start, worktree, head, committed) && head'.value.tree == Staged(head.value.tree, worktree, Set(paths)) ==>
              Undisturbed(start, worktree, head', committed + paths)
  {
    if start.Some? {
      StagedTwice(start.value.tree, worktree, committed, paths);
    }
  }

  lemma AlreadyFollowed(start: Option<Commit>, original: Tree, byId: map<FileId, Change>, plan: seq<seq<FileId>>, i: nat,
                        head: Option<Commit>, index: Tree, p: Progress)
    requires Advanced(start, original, byId, plan, i, head, index, p)
    ensures Followed(start, byId, plan, p) && head == Latest(start, p.hashes)
  {
    assert p.hashes[..i] == p.hashes;
    assert TookOver(byId, plan, i, p.committed);
  }

  lemma StillPlanned(byId: map<FileId, Change>, changes: seq<Change>, ids: seq<FileId>, committed: seq<Path>)
    requires Indexes(byId, changes) && (forall id :: id in ids ==> id in byId) && Set(committed) <= PlannedPaths(changes)
    ensures Set(committed + AssignmentPaths(byId, ids)) <= PlannedPaths(changes)
  {
    AssignmentPlanned(byId, changes, ids);
    var paths := AssignmentPaths(byId, ids);
    assert Set(committed + paths) == Set(committed) + Set(paths);
  }

  /** The assignment takes fresh files and really changes all their paths. */
  ghost predicate Ready(byId: map<FileId, Change>, ids: seq<FileId>, before: set<FileId>, head: Option<Commit>, worktree: Tree)
  {
    ids != [] && FreshIds(byId, ids, before) && QuietCommit(head, worktree, Set(AssignmentPaths(byId, ids)))
  }

  lemma NextIsReady(start: Option<Commit>, byId: map<FileId, Change>, worktree: Tree, plan: seq<seq<FileId>>, i: nat,
                    head: Option<Commit>, committed: seq<Path>)
    requires i < |plan| && Assigns(byId, plan[..i]) && committed == Flatten(Assignments(byId, plan[..i]))
    ensures Smooth(start, byId, worktree, plan) && Undisturbed(start, worktree, head, committed) ==>
              Ready(byId, plan[i], AllIds(plan[..i]), head, worktree)
  {
    if Smooth(start, byId, worktree, plan) && Undisturbed(start, worktree, head, committed) {
      NextIsReal(byId, start.value.tree, worktree, plan, i);
    }
  }

  lemma StagedSoFar(byId: map<FileId, Change>, changes: seq<Change>, plan: seq<seq<FileId>>, i: nat, p: Progress)
    requires Indexes(byId, changes) && i <= |plan| && Assigns(byId, plan[..i])
    requires p.committed == Flatten(Assignments(byId, plan[..i])) && |p.hashes| == i && p.created == (0 < i) && (p.validated > 0 ==> p.created)
    ensures Accounted(changes, p)
  {
    CommittedPlanned(byId, changes, plan[..i]);
  }

  /**
   What is known of the commits after any return: HEAD is the last one recorded, unless it could not be read
   after the last git commit, and all but perhaps the last one are validated and carry out the plan.
   */
  ghost predicate Recorded(start: Option<Commit>, head: Option<Commit>, changes: seq<Change>, plan: seq<seq<FileId>>, p: Progress)
  {
    && (!p.unread ==> head == Latest(start, p.hashes))
    && (p.created ==> exists byId {:trigger Indexes(byId, changes)} :: Indexes(byId, changes) && Followed(start, byId, plan, p))
  }

  /** Everything Execute does before its deferred rollback. */
  method ExecutePlan(repo: Repository, changes: seq<Change>, plan: seq<seq<FileId>>, quiet: bool)
    returns (failure: Option<Failure>, p: Progress, byId: map<FileId, Change>)
    modifies repo
    ensures Accounted(changes, p) && Recorded(old(repo.head), repo.head, changes, plan, p)
    ensures failure.Some? ==> !failure.value.restored && !failure.value.kind.RestorationUnknown?
    ensures failure.None? ==>
      DistinctIds(changes) && Indexes(byId, changes) && AllIds(plan) == byId.Keys
      && Advanced(old(repo.head), old(repo.index), byId, plan, |plan|, repo.head, repo.index, p)
    ensures quiet && Feasible(old(repo.head), old(repo.worktree), changes, plan) ==>
      failure.None? && repo.worktree == old(repo.worktree) && Undisturbed(old(repo.head), repo.worktree, repo.head, p.committed)
  {
    p, byId := NOTHING, map[];
    var original := repo.index;
    var ok := repo.Attempt(quiet);
    if !ok {
      return Fail(Interrupted), p, byId;
    }
    ok, byId := IndexChanges(changes);
    if !ok {
      return Fail(InvalidChanges), p, byId;
    }
    var taken;
    failure, taken, p := CommitAssignments(repo, original, changes, byId, plan, quiet);
    if failure.None? && |taken| != |byId| {
      failure := Fail(NotAllAssigned);
    }
    if failure.None? {
      SubsetOfSameSize(taken, byId.Keys);
    }
  }

  /** The loop over the plan. */
  method CommitAssignments(repo: Repository, original: Tree, changes: seq<Change>, byId: map<FileId, Change>, plan: seq<seq<FileId>>, quiet: bool)
    returns (failure: Option<Failure>, taken: set<FileId>, p: Progress)
    requires original == repo.index && DistinctIds(changes) && Indexes(byId, changes)
    modifies repo
    ensures Accounted(changes, p) && Recorded(old(repo.head), repo.head, changes, plan, p)
    ensures failure.Some? ==> !failure.value.restored && !failure.value.kind.RestorationUnknown?
    ensures failure.None? ==>
      Advanced(old(repo.head), original, byId, plan, |plan|, repo.head, repo.index, p) && taken == AllIds(plan) && taken <= byId.Keys
    ensures quiet && Smooth(old(repo.head), byId, old(repo.worktree), plan) ==>
      failure.None? && AllIds(plan) == byId.Keys
      && repo.worktree == old(repo.worktree) && Undisturbed(old(repo.head), repo.worktree, repo.head, p.committed)
  {
    failure, taken, p := None, {}, NOTHING;
    if repo.head.Some? {
      StagedNothing(repo.head.value.tree, repo.worktree);
    }
    for i := 0 to |plan|
      invariant failure.None? && UnderWay(old(repo.head), original, changes, byId, plan, i, repo.head, repo.index, taken, p)
      invariant quiet && Smooth(old(repo.head), byId, old(repo.worktree), plan) ==>
        repo.worktree == old(repo.worktree) && Undisturbed(old(repo.head), repo.worktree, repo.head, p.committed)
    {
      failure, taken, p := CommitRound(repo, old(repo.head), original, changes, byId, plan, i, taken, p, quiet);
      if failure.Some? {
        return;
      }
    }
    assert plan[..|plan|] == plan;
  }

  /** The loop after i commits: how far it is, what is taken, and what is known of the commits. */
  ghost predicate UnderWay(start: Option<Commit>, original: Tree, changes: seq<Change>, byId: map<FileId, Change>, plan: seq<seq<FileId>>, i: nat,
                           head: Option<Commit>, index: Tree, taken: set<FileId>, p: Progress)
  {
    && Advanced(start, original, byId, plan, i, head, index, p) && taken == AllIds(plan[..i]) && taken <= byId.Keys
    && Accounted(changes, p) && Recorded(start, head, changes, plan, p)
  }

  /** One round of the loop. */
  method CommitRound(repo: Repository, ghost start: Option<Commit>, original: Tree, changes: seq<Change>, byId: map<FileId, Change>,
                     plan: seq<seq<FileId>>, i: nat, before: set<FileId>, p: Progress, quiet: bool)
    returns (failure: Option<Failure>, taken: set<FileId>, after: Progress)
    requires i < |plan| && DistinctIds(changes) && Indexes(byId, changes)
    requires UnderWay(start, original, changes, byId, plan, i, repo.head, repo.index, before, p)
    modifies repo
    ensures Accounted(changes, after) && Recorded(start, repo.head, changes, plan, after)
    ensures failure.Some? ==> !failure.value.restored && !failure.value.kind.RestorationUnknown?
    ensures failure.None? ==> UnderWay(start, original, changes, byId, plan, i + 1, repo.head, repo.index, taken, after)
    ensures quiet && Smooth(start, byId, old(repo.worktree), plan) && Undisturbed(start, old(repo.worktree), old(repo.head), p.committed) ==>
              failure.None? && repo.worktree == old(repo.worktree) && Undisturbed(start, repo.worktree, repo.head, after.committed)
  {
    NextIsReady(start, byId, repo.worktree, plan, i, repo.head, p.committed);
    failure, taken, after := CommitNext(repo, start, original, changes, byId, plan, i, before, p, quiet);
    RecordedBy(start, repo.head, changes, byId, plan, after);
  }

  lemma RecordedBy(start: Option<Commit>, head: Option<Commit>, changes: seq<Change>, byId: map<FileId, Change>, plan: seq<seq<FileId>>, p: Progress)
    requires Indexes(byId, changes) && Followed(start, byId, plan, p) && (!p.unread ==> head == Latest(start, p.hashes))
    ensures Recorded(start, head, changes, plan, p)
  {
  }

  /** HEAD exists and the plan can be carried out on it. */
  ghost predicate Smooth(start: Option<Commit>, byId: map<FileId, Change>, worktree: Tree, plan: seq<seq<FileId>>)
  {
    start.Some? && Executable(byId, start.value.tree, worktree, plan)
  }

  /** The deferred rollback: nothing committed means the original index, otherwise only what lies outside. */
  method Rollback(repo: Repository, original: Tree, p: Progress, failure: Failure, quiet: bool) returns (final: Failure)
    requires !p.created ==> p.committed == []
    requires !failure.restored && !failure.kind.RestorationUnknown?
    modifies repo`index
    ensures !final.kind.RestorationUnknown? ==> IndexConserved(original, repo.head, repo.index, p)
    ensures final.kind.RestorationUnknown? || final.kind == failure.kind
    ensures final.restored <==> !final.kind.RestorationUnknown? && !final.kind.Raw?
  {
    var ok;
    if !p.created {
      ok := repo.WriteIndex(original, quiet);
    } else {
      ok := repo.RestoreOutOfScope(original, p.committed, quiet);
    }
    if !ok {
      return Failure(RestorationUnknown, None, {}, false);
    }
    final := if failure.kind.Raw? then failure else failure.(restored := true);
  }

  /** What a successful run has done: one commit per assignment, in order, on top of the initial HEAD. */
  ghost predicate Executed(start: Option<Commit>, head: Option<Commit>, hashes: seq<Commit>, changes: seq<Change>, plan: seq<seq<FileId>>)
  {
    && DistinctIds(changes)
    && exists byId {:trigger Indexes(byId, changes)} ::
         Indexes(byId, changes) && Assigns(byId, plan) && AllIds(plan) == byId.Keys
         && start.Some? && Chain(start.value, hashes, Assignments(byId, plan)) && head == Some(Tip(start.value, hashes))
  }

  /** The commit before number k. */
  function Before(start: Commit, hashes: seq<Commit>, k: nat): Commit
    requires k <= |hashes|
  {
    if k == 0 then start else hashes[k - 1]
  }

  /** Commit number k changes exactly the old and new paths of the changes assigned to it. */
  ghost predicate CommitsExactly(start: Commit, hashes: seq<Commit>, changes: seq<Change>, ids: seq<FileId>, k: nat)
    requires k < |hashes|
  {
    && hashes[k].Child? && hashes[k].parent == Before(start, hashes, k)
    && forall p :: Lookup(Before(start, hashes, k).tree, p) != Lookup(hashes[k].tree, p) <==> TouchedBy(changes, ids, p)
  }

  /** Every change is assigned in exactly one place, and nothing else is. */
  ghost predicate AssignedOnce(changes: seq<Change>, plan: seq<seq<FileId>>)
  {
    && (forall k :: 0 <= k < |plan| ==> plan[k] != [])
    && (forall k, id :: 0 <= k < |plan| && id in plan[k] ==> exists c :: c in changes && c.id == id)
    && (forall k, i, j :: 0 <= k < |plan| && 0 <= i < j < |plan[k]| ==> plan[k][i] != plan[k][j])
    && (forall k, l, id :: 0 <= k < l < |plan| && id in plan[k] ==> id !in plan[l])
    && forall c :: c in changes ==> exists k :: 0 <= k < |plan| && c.id in plan[k]
  }

  /** What success means for the changes: one commit for each assignment, and an index that differs from HEAD where it did before. */
  ghost predicate CarriedOut(start: Option<Commit>, original: Tree, head: Option<Commit>, index: Tree, hashes: seq<Commit>,
                             changes: seq<Change>, plan: seq<seq<FileId>>)
  {
    && start.Some? && |hashes| == |plan| > 0 && head == Some(hashes[|hashes| - 1]) && AssignedOnce(changes, plan)
    && (forall k :: 0 <= k < |plan| ==> CommitsExactly(start.value, hashes, changes, plan[k], k))
    && forall p :: Lookup(index, p) == if (exists c :: c in changes && Touches(c, p)) then Lookup(head.value.tree, p) else Lookup(original, p)
  }

  lemma {:induction false} IdsListed(plan: seq<seq<FileId>>, id: FileId)
    ensures id in AllIds(plan) <==> exists k :: 0 <= k < |plan| && id in plan[k]
  {
    if plan != [] {
      var n := |plan| - 1;
      IdsListed(plan[..n], id);
      assert forall k :: 0 <= k < n ==> plan[..n][k] == plan[k];
    }
  }

  lemma NotBefore(byId: map<FileId, Change>, plan: seq<seq<FileId>>, k: nat, l: nat, id: FileId)
    requires Assigns(byId, plan) && k < l < |plan| && id in plan[k]
    ensures id !in plan[l]
  {
    AssignsPrefix(byId, plan, l);
    IdsListed(plan[..l], id);
    assert plan[..l][k] == plan[k];
  }

  lemma EachAssignedOnce(byId: map<FileId, Change>, changes: seq<Change>, plan: seq<seq<FileId>>)
    requires Indexes(byId, changes) && Assigns(byId, plan) && AllIds(plan) == byId.Keys
    ensures AssignedOnce(changes, plan)
  {
    forall k | 0 <= k < |plan| ensures plan[k] != [] && forall i, j :: 0 <= i < j < |plan[k]| ==> plan[k][i] != plan[k][j] {
      AssignsPrefix(byId, plan, k);
    }
    forall k, l, id | 0 <= k < l < |plan| && id in plan[k] ensures id !in plan[l] {
      NotBefore(byId, plan, k, l, id);
    }
    forall k, id | 0 <= k < |plan| && id in plan[k] ensures exists c :: c in changes && c.id == id {
      IdsListed(plan, id);
      assert id in IdSet(changes);
    }
    forall c | c in changes ensures exists k :: 0 <= k < |plan| && c.id in plan[k] {
      assert c.id in IdSet(changes);
      IdsListed(plan, c.id);
    }
  }

  lemma ChainCommits(start: Commit, hashes: seq<Commit>, byId: map<FileId, Change>, changes: seq<Change>, plan: seq<seq<FileId>>, k: nat)
    requires Indexes(byId, changes) && Assigns(byId, plan) && Chain(start, hashes, Assignments(byId, plan)) && k < |plan|
    ensures CommitsExactly(start, hashes, changes, plan[k], k)
  {
    AssignsPrefix(byId, plan, k);
    assert Linked(start, hashes, k, Assignments(byId, plan)[k]);
    forall p ensures Lookup(Before(start, hashes, k).tree, p) != Lookup(hashes[k].tree, p) <==> TouchedBy(changes, plan[k], p) {
      AssignmentTouches(byId, changes, plan[k], p);
      assert p in ChangedPaths(hashes[k]) <==> p in Set(AssignmentPaths(byId, plan[k]));
      ChangedAt(hashes[k], p);
    }
  }

  lemma ChangedAt(c: Commit, p: Path)
    requires c.Child?
    ensures p in ChangedPaths(c) <==> Lookup(c.parent.tree, p) != Lookup(c.tree, p)
  {
  }

  lemma SomeTouches(changes: seq<Change>, plan: seq<seq<FileId>>, p: Path)
    requires AssignedOnce(changes, plan)
    ensures TouchedUpTo(changes, plan, |plan|, p) <==> exists c :: c in changes && Touches(c, p)
  {
    if c :| c in changes && Touches(c, p) {
      var k :| 0 <= k < |plan| && c.id in plan[k];
      assert TouchedBy(changes, plan[k], p);
    }
  }

  /** Success, from the chain of commits to the fields of the changes. */
  lemma SuccessCarriesOut(start: Option<Commit>, original: Tree, head: Option<Commit>, index: Tree, p: Progress, byId: map<FileId, Change>,
                          changes: seq<Change>, plan: seq<seq<FileId>>)
    requires DistinctIds(changes) && Indexes(byId, changes) && AllIds(plan) == byId.Keys && plan != []
    requires Advanced(start, original, byId, plan, |plan|, head, index, p)
    ensures CarriedOut(start, original, head, index, p.hashes, changes, plan)
    ensures AllTaken(changes, p.committed)
  {
    assert plan[..|plan|] == plan;
    EachAssignedOnce(byId, changes, plan);
    forall k | 0 <= k < |plan| ensures CommitsExactly(start.value, p.hashes, changes, plan[k], k) {
      ChainCommits(start.value, p.hashes, byId, changes, plan, k);
    }
    AllTouched(byId, changes, plan, p.committed);
    IndexAt(original, head, index, p, changes);
  }

  lemma AllTouched(byId: map<FileId, Change>, changes: seq<Change>, plan: seq<seq<FileId>>, committed: seq<Path>)
    requires Indexes(byId, changes) && AssignedOnce(changes, plan) && TookOver(byId, plan, |plan|, committed)
    ensures AllTaken(changes, committed)
  {
    forall path ensures path in committed <==> exists c :: c in changes && Touches(c, path) {
      FlattenTouches(byId, changes, plan, |plan|, path);
      SomeTouches(changes, plan, path);
    }
  }

  /** The paths are the old and new paths of all changes. */
  ghost predicate AllTaken(changes: seq<Change>, committed: seq<Path>)
  {
    forall path :: path in committed <==> exists c :: c in changes && Touches(c, path)
  }

  lemma IndexAt(original: Tree, head: Option<Commit>, index: Tree, p: Progress, changes: seq<Change>)
    requires head.Some? && p.created && IndexConserved(original, head, index, p) && AllTaken(changes, p.committed)
    ensures forall path :: Lookup(index, path) ==
              if (exists c :: c in changes && Touches(c, path)) then Lookup(head.value.tree, path) else Lookup(original, path)
  {
    forall path ensures Lookup(index, path) == if path in p.committed then Lookup(head.value.tree, path) else Lookup(original, path) {
      RetainedAt(original, head.value.tree, Set(p.committed), path);
    }
  }

  /** What was taken over when the transaction ended: the paths of the first assignments, up to one that was not validated. */
  ghost predicate TakenInOrder(changes: seq<Change>, plan: seq<seq<FileId>>, p: Progress)
  {
    exists m :: p.validated <= m <= p.validated + 1 && TakenUpTo(changes, plan, m, p.committed)
  }

  ghost predicate TakenUpTo(changes: seq<Change>, plan: seq<seq<FileId>>, m: nat, committed: seq<Path>)
  {
    m <= |plan| && forall path :: path in committed <==> TouchedUpTo(changes, plan, m, path)
  }

  lemma TookOverInOrder(byId: map<FileId, Change>, changes: seq<Change>, plan: seq<seq<FileId>>, m: nat, committed: seq<Path>)
    requires Indexes(byId, changes) && TookOver(byId, plan, m, committed)
    ensures TakenUpTo(changes, plan, m, committed)
  {
    forall path ensures path in committed <==> TouchedUpTo(changes, plan, m, path) {
      FlattenTouches(byId, changes, plan, m, path);
    }
  }

  lemma FollowedInOrder(start: Option<Commit>, byId: map<FileId, Change>, changes: seq<Change>, plan: seq<seq<FileId>>, p: Progress)
    requires Indexes(byId, changes) && Followed(start, byId, plan, p)
    ensures TakenInOrder(changes, plan, p)
  {
    var m :| p.validated <= m <= p.validated + 1 && TookOver(byId, plan, m, p.committed);
    TookOverInOrder(byId, changes, plan, m, p.committed);
  }

  lemma RecordedInOrder(start: Option<Commit>, head: Option<Commit>, changes: seq<Change>, plan: seq<seq<FileId>>, p: Progress)
    requires Recorded(start, head, changes, plan, p) && Accounted(changes, p)
    ensures TakenInOrder(changes, plan, p)
  {
    if p.created {
      var byId :| Indexes(byId, changes) && Followed(start, byId, plan, p);
      FollowedInOrder(start, byId, changes, plan, p);
    } else {
      assert TakenUpTo(changes, plan, 0, p.committed);
    }
  }

  /** The plan can be carried out when nothing interferes. */
  ghost predicate Feasible(start: Option<Commit>, worktree: Tree, changes: seq<Change>, plan: seq<seq<FileId>>)
  {
    && start.Some? && DistinctIds(changes) && changes != [] && plan != []
    && forall byId {:trigger Indexes(byId, changes)} :: Indexes(byId, changes) ==> Executable(byId, start.value.tree, worktree, plan)
  }

  ghost predicate AssignedBefore(plan: seq<seq<FileId>>, m: nat, id: FileId)
    requires m <= |plan|
  {
    exists k :: 0 <= k < m && id in plan[k]
  }

  lemma {:induction false} OnceAssigns(byId: map<FileId, Change>, changes: seq<Change>, plan: seq<seq<FileId>>, m: nat)
    requires m <= |plan| && Indexes(byId, changes) && AssignedOnce(changes, plan)
    ensures Assigns(byId, plan[..m])
    ensures forall id :: id in AllIds(plan[..m]) <==> AssignedBefore(plan, m, id)
  {
    if m > 0 {
      OnceAssigns(byId, changes, plan, m - 1);
      var more := plan[..m];
      assert more[..m - 1] == plan[..m - 1] && more[m - 1] == plan[m - 1];
      forall id | id in plan[m - 1] ensures id in byId && id !in AllIds(plan[..m - 1]) {
        var c :| c in changes && c.id == id;
        assert id in IdSet(changes);
      }
    }
  }

  /** The plan makes sense for the changes: real ones, each assigned once, and no path in two commits. */
  ghost predicate Sensible(start: Commit, worktree: Tree, changes: seq<Change>, plan: seq<seq<FileId>>)
  {
    && DistinctIds(changes) && changes != [] && plan != [] && AssignedOnce(changes, plan)
    && AllChanged(start.tree, worktree, changes)
    && (forall k :: 0 <= k < |plan| ==> TouchesSome(changes, plan[k]))
    && forall k, l :: 0 <= k < l < |plan| ==> TouchApart(changes, plan[k], plan[l])
  }

  /** The worktree differs from HEAD at every path of a change. */
  ghost predicate AllChanged(start: Tree, worktree: Tree, changes: seq<Change>)
  {
    forall c, p :: c in changes && Touches(c, p) ==> Lookup(start, p) != Lookup(worktree, p)
  }

  ghost predicate TouchesSome(changes: seq<Change>, ids: seq<FileId>) { exists p :: TouchedBy(changes, ids, p) }

  ghost predicate TouchApart(changes: seq<Change>, a: seq<FileId>, b: seq<FileId>)
  {
    forall p :: TouchedBy(changes, a, p) ==> !TouchedBy(changes, b, p)
  }

  lemma AssignmentsTouch(byId: map<FileId, Change>, changes: seq<Change>, plan: seq<seq<FileId>>, k: nat, p: Path)
    requires Indexes(byId, changes) && Assigns(byId, plan) && k < |plan|
    ensures p in Assignments(byId, plan)[k] <==> TouchedBy(changes, plan[k], p)
  {
    AssignsPrefix(byId, plan, k);
    AssignmentTouches(byId, changes, plan[k], p);
  }

  lemma OnceAssignsAll(byId: map<FileId, Change>, changes: seq<Change>, plan: seq<seq<FileId>>)
    requires Indexes(byId, changes) && AssignedOnce(changes, plan)
    ensures Assigns(byId, plan) && AllIds(plan) == byId.Keys
  {
    OnceAssigns(byId, changes, plan, |plan|);
    assert plan[..|plan|] == plan;
    forall id ensures id in AllIds(plan) <==> id in byId {
      KnownIsAssigned(byId, changes, plan, id);
    }
  }

  lemma KnownIsAssigned(byId: map<FileId, Change>, changes: seq<Change>, plan: seq<seq<FileId>>, id: FileId)
    requires Indexes(byId, changes) && AssignedOnce(changes, plan)
    ensures id in byId <==> AssignedBefore(plan, |plan|, id)
  {
    assert id in byId <==> id in IdSet(changes);
  }

  lemma SomethingTouched(byId: map<FileId, Change>, changes: seq<Change>, plan: seq<seq<FileId>>, k: nat)
    requires Indexes(byId, changes) && Assigns(byId, plan) && k < |plan| && TouchesSome(changes, plan[k])
    ensures Assignments(byId, plan)[k] != []
  {
    var p :| TouchedBy(changes, plan[k], p);
    AssignmentsTouch(byId, changes, plan, k, p);
  }

  lemma NothingShared(byId: map<FileId, Change>, changes: seq<Change>, plan: seq<seq<FileId>>, j: nat, k: nat)
    requires Indexes(byId, changes) && Assigns(byId, plan) && j < k < |plan| && TouchApart(changes, plan[j], plan[k])
    ensures Set(Assignments(byId, plan)[j]) !! Set(Assignments(byId, plan)[k])
  {
    forall p ensures p !in Set(Assignments(byId, plan)[j]) || p !in Set(Assignments(byId, plan)[k]) {
      AssignmentsTouch(byId, changes, plan, j, p);
      AssignmentsTouch(byId, changes, plan, k, p);
    }
  }

  lemma ReallyChanged(byId: map<FileId, Change>, changes: seq<Change>, plan: seq<seq<FileId>>, start: Tree, worktree: Tree)
    requires Indexes(byId, changes) && Assigns(byId, plan) && AllChanged(start, worktree, changes)
    ensures AllReal(start, worktree, Assignments(byId, plan))
  {
    forall k, p | 0 <= k < |plan| && p in Assignments(byId, plan)[k] ensures Lookup(start, p) != Lookup(worktree, p) {
      AssignmentsTouch(byId, changes, plan, k, p);
    }
  }

  lemma SensibleIsExecutable(byId: map<FileId, Change>, start: Commit, worktree: Tree, changes: seq<Change>, plan: seq<seq<FileId>>)
    requires Indexes(byId, changes) && Sensible(start, worktree, changes, plan)
    ensures Executable(byId, start.tree, worktree, plan)
  {
    OnceAssignsAll(byId, changes, plan);
    ReallyChanged(byId, changes, plan, start.tree, worktree);
    forall k | 0 <= k < |plan| ensures Assignments(byId, plan)[k] != [] {
      SomethingTouched(byId, changes, plan, k);
    }
    forall j, k | 0 <= j < k < |plan| ensures Set(Assignments(byId, plan)[j]) !! Set(Assignments(byId, plan)[k]) {
      NothingShared(byId, changes, plan, j, k);
    }
  }

  /** A sensible plan is feasible. */
  lemma SensibleIsFeasible(start: Commit, worktree: Tree, changes: seq<Change>, plan: seq<seq<FileId>>)
    requires Sensible(start, worktree, changes, plan)
    ensures Feasible(Some(start), worktree, changes, plan)
  {
    forall byId | Indexes(byId, changes) ensures Executable(byId, start.tree, worktree, plan) {
      SensibleIsExecutable(byId, start, worktree, changes, plan);
    }
  }

  /**
   The transaction. Whatever hooks and failures do, every return that does not say that the restoration
   is unknown leaves the index conserved for the commits noticed, and unless HEAD could not be read after
   git commit those are all: without one HEAD is where it was.
   */
  method Execute(repo: Repository, changes: seq<Change>, plan: seq<seq<FileId>>, quiet: bool)
    returns (failure: Option<Failure>, hashes: seq<Commit>, ghost p: Progress)
    modifies repo
    ensures hashes == p.hashes
    ensures Accounted(changes, p) && Recorded(old(repo.head), repo.head, changes, plan, p)
    ensures !p.created && !p.unread ==> repo.head == old(repo.head)
    ensures failure.None? || !failure.value.kind.RestorationUnknown? ==> IndexConserved(old(repo.index), repo.head, repo.index, p)
    ensures failure.Some? && failure.value.restored ==> !failure.value.kind.RestorationUnknown? && !failure.value.kind.Raw?
    ensures failure.None? ==>
      && |hashes| == |plan| == p.validated && p.created && !p.unread && Executed(old(repo.head), repo.head, hashes, changes, plan)
      && CarriedOut(old(repo.head), old(repo.index), repo.head, repo.index, hashes, changes, plan)
      && forall path :: path !in PlannedPaths(changes) ==>
           Lookup(repo.head.value.tree, path) == Lookup(old(repo.head).value.tree, path)
           && Lookup(repo.index, path) == Lookup(old(repo.index), path)
    ensures TakenInOrder(changes, plan, p)
    ensures quiet && Feasible(old(repo.head), old(repo.worktree), changes, plan) ==>
      failure.None? && repo.worktree == old(repo.worktree)
      && forall path :: Lookup(repo.head.value.tree, path) ==
           if (exists c :: c in changes && Touches(c, path)) then Lookup(repo.worktree, path) else Lookup(old(repo.head).value.tree, path)
  {
    p := NOTHING;
    var done: Progress := NOTHING;
    NothingTaken(changes, plan);
    if |changes| == 0 || |plan| == 0 {
      return Fail(EmptyRequest), [], p;
    }
    var ok := repo.Attempt(quiet);
    if !ok {
      return Fail(Raw), [], p;
    }
    var original := repo.index;
    var byId;
    failure, done, byId := ExecutePlan(repo, changes, plan, quiet);
    hashes, p := done.hashes, done;
    RecordedInOrder(old(repo.head), repo.head, changes, plan, p);
    if failure.Some? {
      var final := Rollback(repo, original, done, failure.value, quiet);
      failure := Some(final);
      return;
    }
    assert plan[..|plan|] == plan;
    assert Indexes(byId, changes);
    SuccessCarriesOut(old(repo.head), original, repo.head, repo.index, p, byId, changes, plan);
    forall path | Undisturbed(old(repo.head), repo.worktree, repo.head, p.committed)
      ensures Lookup(repo.head.value.tree, path) ==
              if path in p.committed then Lookup(repo.worktree, path) else Lookup(old(repo.head).value.tree, path)
    {
      StagedAt(old(repo.head).value.tree, repo.worktree, Set(p.committed), path);
    }
    forall path | path !in PlannedPaths(changes)
      ensures Lookup(repo.head.value.tree, path) == Lookup(old(repo.head).value.tree, path)
      ensures Lookup(repo.index, path) == Lookup(old(repo.index), path)
    {
      assert path !in Set(p.committed);
      ChainTouchesOnly(old(repo.head).value, hashes, Assignments(byId, plan), path);
      RetainedAt(original, repo.head.value.tree, Set(p.committed), path);
    }
  }

  lemma NothingTaken(changes: seq<Change>, plan: seq<seq<FileId>>)
    ensures TakenInOrder(changes, plan, NOTHING)
  {
    assert TakenUpTo(changes, plan, 0, NOTHING.committed);
  }

  /**
   The remaining case. git commit exits with an error after it has made the commit, and HEAD cannot be read
   then: nothing is noted, and the rollback restores an index that was as HEAD. The commit, right as it is,
   stays, and its paths are left staged with their old content.
   */
  lemma UnnoticedCommit(parent: Commit, worktree: Tree, paths: seq<Path>, stamp: nat, before: Progress)
    requires QuietCommit(Some(parent), worktree, Set(paths)) && !before.created
    ensures var commit := Child(parent, Staged(parent.tree, worktree, Set(paths)), stamp);
            var after := Noted(before, parent, paths, false, None);
            && IsCommitOf(parent, commit, paths) && !after.created && after.unread
            && IndexConserved(parent.tree, Some(commit), parent.tree, after)
            && !IndexConserved(parent.tree, Some(commit), parent.tree, Noted(before, parent, paths, false, Some(commit)))
            && forall p :: p in Set(paths) ==> Lookup(parent.tree, p) != Lookup(commit.tree, p)
  {
    var commit := Child(parent, Staged(parent.tree, worktree, Set(paths)), stamp);
    QuietStaging(parent.tree, worktree, paths);
    var p :| p in Set(paths);
    forall q | q in Set(paths) ensures Lookup(parent.tree, q) != Lookup(commit.tree, q) {
      StagedAt(parent.tree, worktree, Set(paths), q);
    }
    var noticed := Noted(before, parent, paths, false, Some(commit));
    assert commit != parent;
    RetainedAt(parent.tree, commit.tree, Set(noticed.committed), p);
  }

  lemma SubsetOfSameSize<T>(a: set<T>, b: set<T>)
    requires a <= b && |a| == |b|
    ensures a == b
  {
    assert |b - a| == |b| - |a|;
  }
}
