/**
 Extracting relations between changed files (internal/relation/extract.go:104-191, 477-508), and that a
 graph built of what was extracted always passes as relation context (internal/cli/planning.go:116-132).
 Paths arrive cleaned, with their directory and name; the texts that a file mentions arrive read.
 */
module Extraction {
  import opened Wrappers
  import Strings
  import Sorting
  import Sequences
  import opened RelationContext

  /** An import, and the paths it may mean, in order; an unsupported one means none. */
  datatype Import = Import(supported: bool, paths: seq<string>)

  /** A changed file; its path is empty when it has no valid one. */
  datatype File = File(id: string, renamed: bool, path: string, directory: string, name: string, tested: seq<string>,
                       imports: seq<Import>, declared: seq<string>, referenced: seq<string>)

  function Ids(files: seq<File>): seq<string> { seq(|files|, i requires 0 <= i < |files| => files[i].id) }

  lemma IdOf(files: seq<File>, f: File)
    requires f in files
    ensures f.id in Ids(files)
  {
    var i :| 0 <= i < |files| && files[i] == f;
    assert Ids(files)[i] == f.id;
  }

  // ---------------------------------------------------------------- the file a path means

  predicate Taken(files: seq<File>, path: string) { exists f :: f in files && f.path == path }

  /** The file of a path: nobody's when no file or several files have it. */
  function Owner(files: seq<File>, path: string): string
  {
    if files == [] || |path| == 0 then ""
    else
      var n := |files| - 1;
      if files[n].path != path then Owner(files[..n], path) else if Taken(files[..n], path) then "" else files[n].id
  }

  /** A path means a file exactly when no other file has it too. */
  lemma {:induction false} OwnerIsAlone(files: seq<File>, path: string, i: nat)
    requires i < |files| && |path| > 0 && files[i].path == path
    ensures Owner(files, path) == if forall j :: 0 <= j < |files| && files[j].path == path ==> j == i then files[i].id else ""
  {
    var n := |files| - 1;
    if files[n].path != path {
      OwnerIsAlone(files[..n], path, i);
    } else if i < n {
      assert files[..n][i] in files[..n];
    } else if f :| f in files[..n] && f.path == path {
      var j :| 0 <= j < n && files[j] == f;
    }
  }

  lemma {:induction false} OwnerIsFile(files: seq<File>, path: string)
    ensures |Owner(files, path)| > 0 ==> Owner(files, path) in Ids(files)
  {
    if files != [] && |path| > 0 {
      var n := |files| - 1;
      OwnerIsFile(files[..n], path);
      assert Ids(files) == Ids(files[..n]) + [files[n].id];
    }
  }

  lemma {:induction false} NoOwner(files: seq<File>, path: string)
    requires !Taken(files, path)
    ensures Owner(files, path) == ""
  {
    if files != [] && |path| > 0 {
      var n := |files| - 1;
      assert files[n] in files && forall f :: f in files[..n] ==> f in files;
      NoOwner(files[..n], path);
    }
  }

  /** No two files have the same ID. */
  ghost predicate Apart(files: seq<File>) { Sorting.Apart((f: File) => f.id, files) }

  /** The only file with the path, if there is one; the order of the files plays no part. */
  lemma OwnerByMembers(files: seq<File>, path: string, f: File)
    requires Apart(files) && |path| > 0 && f in files && f.path == path
    ensures Owner(files, path) == if forall g :: g in files && g.path == path ==> g == f then f.id else ""
  {
    var i :| 0 <= i < |files| && files[i] == f;
    OwnerIsAlone(files, path, i);
    if g :| g in files && g.path == path && g != f {
      var j :| 0 <= j < |files| && files[j] == g;
    }
    if j :| 0 <= j < |files| && files[j].path == path && j != i {
      assert files[j].id != files[i].id && files[j] in files;
    }
  }

  lemma OwnerOfPermuted(files: seq<File>, others: seq<File>, path: string)
    requires Apart(files) && Apart(others) && forall f :: f in files <==> f in others
    ensures Owner(files, path) == Owner(others, path)
  {
    if Taken(files, path) && |path| > 0 {
      var f :| f in files && f.path == path;
      OwnerByMembers(files, path, f);
      OwnerByMembers(others, path, f);
    } else if |path| > 0 {
      NoOwner(files, path);
      NoOwner(others, path);
    }
  }

  function Lookup(byPath: map<string, string>, path: string): string { if path in byPath then byPath[path] else "" }

  ghost predicate Resolves(files: seq<File>, byPath: map<string, string>)
  {
    && (forall p :: p in byPath <==> |p| > 0 && Taken(files, p))
    && forall p {:trigger Owner(files, p)} :: Lookup(byPath, p) == Owner(files, p)
  }

  lemma ResolvesStep(files: seq<File>, byPath: map<string, string>, f: File)
    requires Resolves(files, byPath)
    ensures Resolves(files + [f], if |f.path| == 0 then byPath else byPath[f.path := if f.path in byPath then "" else f.id])
  {
    var more := files + [f];
    var after := if |f.path| == 0 then byPath else byPath[f.path := if f.path in byPath then "" else f.id];
    assert more[..|files|] == files && more[|files|] == f;
    forall p ensures p in after <==> |p| > 0 && Taken(more, p) {
      assert Taken(more, p) <==> Taken(files, p) || f.path == p by {
        assert f in more && forall g :: g in files ==> g in more;
      }
    }
    forall p ensures Lookup(after, p) == Owner(more, p) {
      assert Lookup(byPath, p) == Owner(files, p);
    }
  }

  /** Refuses empty and repeated IDs, and resolves paths. */
  method IndexFiles(files: seq<File>) returns (refusal: Option<Refusal>, byPath: map<string, string>)
    ensures refusal.None? <==> ValidIds(Ids(files))
    ensures refusal.None? ==> Resolves(files, byPath)
  {
    refusal := CheckIds(Ids(files));
    byPath := map[];
    if refusal.Some? {
      return;
    }
    for i := 0 to |files|
      invariant Resolves(files[..i], byPath)
    {
      Sequences.TakeSnoc(files, i);
      ResolvesStep(files[..i], byPath, files[i]);
      var f := files[i];
      if |f.path| > 0 {
        byPath := byPath[f.path := if f.path in byPath then "" else f.id];
      }
    }
    assert files[..|files|] == files;
  }

  // ---------------------------------------------------------------- the relations of a file

  function Renamed(f: File): Relation { Relation(f.id, f.id, GitRename, "git_reported_rename", "git_paths") }

  function Tests(f: File, target: string): Relation { Relation(f.id, target, OtherKind("source_test"), "matching_test_path", "test_source_paths") }

  function Imports(f: File, target: string): Relation { Relation(f.id, target, OtherKind("direct_import"), "observed_import_path", "import_path") }

  function Mentions(f: File, target: string): Relation
  {
    Relation(f.id, target, OtherKind("changed_identifier"), "identifier_name_matches_changed_declaration", "identifier_name")
  }

  function Locks(f: File, target: string): Relation
  {
    Relation(f.id, target, OtherKind("manifest_lock"), "known_manifest_lock_pair", "manifest_lock_pair")
  }

  /** The files that the paths mean, each once. */
  function Found(files: seq<File>, paths: seq<string>): seq<string>
  {
    if paths == [] then []
    else
      var found, id := Found(files, paths[..|paths| - 1]), Owner(files, paths[|paths| - 1]);
      if |id| == 0 || id in found then found else found + [id]
  }

  /** The files that declare a name, each once. */
  function Declarers(files: seq<File>, name: string): seq<string>
  {
    if files == [] then []
    else
      var f, ids := files[|files| - 1], Declarers(files[..|files| - 1], name);
      if name in f.declared && f.id !in ids then ids + [f.id] else ids
  }

  function LocksOf(manifest: string): seq<string>
  {
    if manifest == "package.json" then ["package-lock.json", "npm-shrinkwrap.json", "pnpm-lock.yaml", "yarn.lock"]
    else if manifest == "go.mod" then ["go.sum"]
    else if manifest == "Cargo.toml" then ["Cargo.lock"]
    else if manifest == "pyproject.toml" then ["poetry.lock", "uv.lock"]
    else []
  }

  /** What the passes collect: relations, and observations of what did not become one. */
  datatype Gathered = Gathered(relations: seq<Relation>, observations: seq<Observation>)

  const NOTHING := Gathered([], [])

  function Related(r: Relation): Gathered { Gathered([r], []) }

  function Noted(f: File, candidates: seq<string>): Gathered { Gathered([], [Observation(f.id, candidates)]) }

  function Both(a: Gathered, b: Gathered): Gathered { Gathered(a.relations + b.relations, a.observations + b.observations) }

  /** What all the items give, in their order. */
  function Collect<T>(gather: T -> Gathered, items: seq<T>): Gathered
  {
    if items == [] then NOTHING else Both(Collect(gather, items[..|items| - 1]), gather(items[|items| - 1]))
  }

  lemma CollectStep<T>(gather: T -> Gathered, items: seq<T>, k: nat)
    requires k < |items|
    ensures Collect(gather, items[..k + 1]) == Both(Collect(gather, items[..k]), gather(items[k]))
  {
    assert items[..k + 1][..k] == items[..k];
  }

  /** The source that a test path names must be another changed file. */
  function OneTest(files: seq<File>, f: File, path: string): Gathered
  {
    var target := Owner(files, path);
    if |target| > 0 && target != f.id then Related(Tests(f, target)) else Noted(f, [])
  }

  /** An import must mean exactly one changed file; one that means the file itself says nothing. */
  function OneImport(files: seq<File>, f: File, observed: Import): Gathered
  {
    var found := Found(files, observed.paths);
    if !observed.supported then Noted(f, [])
    else if |found| != 1 then Noted(f, Sorting.Sort(Strings.Less, found))
    else if found[0] != f.id then Related(Imports(f, found[0]))
    else NOTHING
  }

  /** A name must be declared in exactly one changed file; several are noted, none is not. */
  function OneMention(files: seq<File>, f: File, name: string): Gathered
  {
    var targets := Declarers(files, name);
    if |targets| == 1 && targets[0] != f.id then Related(Mentions(f, targets[0]))
    else if |targets| > 1 then Noted(f, targets)
    else NOTHING
  }

  function OneLock(f: File, g: File): Gathered
  {
    if |f.path| > 0 && |g.path| > 0 && f.directory == g.directory && g.name in LocksOf(f.name) then Related(Locks(f, g.id)) else NOTHING
  }

  function TestBy(files: seq<File>, f: File): string -> Gathered { (path: string) => OneTest(files, f, path) }

  function ImportBy(files: seq<File>, f: File): Import -> Gathered { (observed: Import) => OneImport(files, f, observed) }

  function MentionBy(files: seq<File>, f: File): string -> Gathered { (name: string) => OneMention(files, f, name) }

  function LockBy(f: File): File -> Gathered { (g: File) => OneLock(f, g) }

  /** What the path of f says: its rename, the sources it tests and what it imports. */
  function PathGathered(files: seq<File>, f: File): Gathered
  {
    Both(if f.renamed then Related(Renamed(f)) else NOTHING,
         if |f.path| > 0 then Both(Collect(TestBy(files, f), f.tested), Collect(ImportBy(files, f), f.imports)) else NOTHING)
  }

  function PathBy(files: seq<File>): File -> Gathered { (f: File) => PathGathered(files, f) }

  function MentionsBy(files: seq<File>): File -> Gathered { (f: File) => Collect(MentionBy(files, f), f.referenced) }

  function LocksBy(files: seq<File>): File -> Gathered { (f: File) => Collect(LockBy(f), files) }

  /** What all files give, in the passes of the extractor. */
  function AllGathered(files: seq<File>): Gathered
  {
    Both(Both(Collect(PathBy(files), files), Collect(MentionsBy(files), files)), Collect(LocksBy(files), files))
  }

  // ---------------------------------------------------------------- soundness

  lemma {:induction false} FoundAreFiles(files: seq<File>, paths: seq<string>)
    ensures forall id :: id in Found(files, paths) ==> id in Ids(files)
  {
    if paths != [] {
      FoundAreFiles(files, paths[..|paths| - 1]);
      OwnerIsFile(files, paths[|paths| - 1]);
    }
  }

  lemma {:induction false} DeclarersAreFiles(files: seq<File>, name: string)
    ensures forall id :: id in Declarers(files, name) ==> id in Ids(files)
  {
    if files != [] {
      var n := |files| - 1;
      DeclarersAreFiles(files[..n], name);
      assert Ids(files) == Ids(files[..n]) + [files[n].id];
    }
  }

  /** Known files, and for every relation a reason and evidence. */
  ghost predicate WellFormed(ids: seq<string>, g: Gathered)
  {
    && (forall i :: 0 <= i < |g.relations| ==>
          RelationKnown(ids, g.relations[i]) && |g.relations[i].reason| > 0 && |g.relations[i].evidenceType| > 0)
    && forall i :: 0 <= i < |g.observations| ==> ObservationKnown(ids, g.observations[i])
  }

  lemma BothWellFormed(ids: seq<string>, a: Gathered, b: Gathered)
    requires WellFormed(ids, a) && WellFormed(ids, b)
    ensures WellFormed(ids, Both(a, b))
  {
  }

  lemma {:induction false} CollectWellFormed<T(!new)>(ids: seq<string>, gather: T -> Gathered, items: seq<T>)
    requires forall x :: x in items ==> WellFormed(ids, gather(x))
    ensures WellFormed(ids, Collect(gather, items))
  {
    if items != [] {
      var n := |items| - 1;
      CollectWellFormed(ids, gather, items[..n]);
      BothWellFormed(ids, Collect(gather, items[..n]), gather(items[n]));
    }
  }

  lemma TestWellFormed(files: seq<File>, f: File, path: string)
    requires f in files
    ensures WellFormed(Ids(files), OneTest(files, f, path))
  {
    IdOf(files, f);
    OwnerIsFile(files, path);
  }

  lemma ImportWellFormed(files: seq<File>, f: File, observed: Import)
    requires f in files
    ensures WellFormed(Ids(files), OneImport(files, f, observed))
  {
    IdOf(files, f);
    FoundAreFiles(files, observed.paths);
    Sorting.SortMembers(Strings.Less, Found(files, observed.paths));
  }

  lemma MentionWellFormed(files: seq<File>, f: File, name: string)
    requires f in files
    ensures WellFormed(Ids(files), OneMention(files, f, name))
  {
    IdOf(files, f);
    DeclarersAreFiles(files, name);
  }

  lemma PathWellFormed(files: seq<File>, f: File)
    requires f in files
    ensures WellFormed(Ids(files), PathGathered(files, f))
  {
    IdOf(files, f);
    forall path ensures WellFormed(Ids(files), TestBy(files, f)(path)) {
      TestWellFormed(files, f, path);
    }
    forall observed ensures WellFormed(Ids(files), ImportBy(files, f)(observed)) {
      ImportWellFormed(files, f, observed);
    }
    CollectWellFormed(Ids(files), TestBy(files, f), f.tested);
    CollectWellFormed(Ids(files), ImportBy(files, f), f.imports);
    BothWellFormed(Ids(files), Collect(TestBy(files, f), f.tested), Collect(ImportBy(files, f), f.imports));
  }

  lemma MentionsWellFormed(files: seq<File>, f: File)
    requires f in files
    ensures WellFormed(Ids(files), Collect(MentionBy(files, f), f.referenced))
  {
    forall name ensures WellFormed(Ids(files), MentionBy(files, f)(name)) {
      MentionWellFormed(files, f, name);
    }
    CollectWellFormed(Ids(files), MentionBy(files, f), f.referenced);
  }

  lemma LocksWellFormed(files: seq<File>, f: File)
    requires f in files
    ensures WellFormed(Ids(files), Collect(LockBy(f), files))
  {
    IdOf(files, f);
    forall g | g in files ensures WellFormed(Ids(files), LockBy(f)(g)) {
      IdOf(files, g);
    }
    CollectWellFormed(Ids(files), LockBy(f), files);
  }

  lemma AllWellFormed(files: seq<File>)
    ensures WellFormed(Ids(files), AllGathered(files))
  {
    forall f | f in files
      ensures WellFormed(Ids(files), PathBy(files)(f)) && WellFormed(Ids(files), MentionsBy(files)(f)) && WellFormed(Ids(files), LocksBy(files)(f))
    {
      PathWellFormed(files, f);
      MentionsWellFormed(files, f);
      LocksWellFormed(files, f);
    }
    CollectWellFormed(Ids(files), PathBy(files), files);
    CollectWellFormed(Ids(files), MentionsBy(files), files);
    CollectWellFormed(Ids(files), LocksBy(files), files);
    BothWellFormed(Ids(files), Collect(PathBy(files), files), Collect(MentionsBy(files), files));
    BothWellFormed(Ids(files), Both(Collect(PathBy(files), files), Collect(MentionsBy(files), files)), Collect(LocksBy(files), files));
  }

  // ---------------------------------------------------------------- directories

  /** The files with a path in a directory. */
  function Residents(files: seq<File>, directory: string): seq<string>
  {
    if files == [] then []
    else
      var f := files[|files| - 1];
      Residents(files[..|files| - 1], directory) + if |f.path| > 0 && f.directory == directory then [f.id] else []
  }

  lemma {:induction false} ResidentsAreFiles(files: seq<File>, directory: string)
    ensures forall id :: id in Residents(files, directory) ==> id in Ids(files)
  {
    if files != [] {
      var n := |files| - 1;
      ResidentsAreFiles(files[..n], directory);
      assert Ids(files) == Ids(files[..n]) + [files[n].id];
    }
  }

  predicate Hints(files: seq<File>, directory: string, h: Hint)
  {
    var members := Residents(files, directory);
    |members| > 1 && h == Hint(PathProximity, members)
  }

  // ---------------------------------------------------------------- the loops

  method GatherTest(files: seq<File>, byPath: map<string, string>, f: File, path: string) returns (one: Gathered)
    requires Resolves(files, byPath)
    ensures one == OneTest(files, f, path)
  {
    var target := Lookup(byPath, path);
    assert target == Owner(files, path);
    one := if |target| > 0 && target != f.id then Related(Tests(f, target)) else Noted(f, []);
  }

  method GatherTests(files: seq<File>, byPath: map<string, string>, f: File) returns (all: Gathered)
    requires Resolves(files, byPath)
    ensures all == Collect(TestBy(files, f), f.tested)
  {
    all := NOTHING;
    for k := 0 to |f.tested|
      invariant all == Collect(TestBy(files, f), f.tested[..k])
    {
      CollectStep(TestBy(files, f), f.tested, k);
      var one := GatherTest(files, byPath, f, f.tested[k]);
      all := Both(all, one);
    }
    assert f.tested[..|f.tested|] == f.tested;
  }

  method ResolveImport(files: seq<File>, byPath: map<string, string>, paths: seq<string>) returns (found: seq<string>)
    requires Resolves(files, byPath)
    ensures found == Found(files, paths)
  {
    found := [];
    for k := 0 to |paths|
      invariant found == Found(files, paths[..k])
    {
      assert paths[..k + 1][..k] == paths[..k];
      var id := Lookup(byPath, paths[k]);
      assert id == Owner(files, paths[k]);
      if |id| > 0 && id !in found {
        found := found + [id];
      }
    }
    assert paths[..|paths|] == paths;
  }

  method GatherImport(files: seq<File>, byPath: map<string, string>, f: File, observed: Import) returns (one: Gathered)
    requires Resolves(files, byPath)
    ensures one == OneImport(files, f, observed)
  {
    if !observed.supported {
      return Noted(f, []);
    }
    var found := ResolveImport(files, byPath, observed.paths);
    if |found| == 1 {
      return if found[0] != f.id then Related(Imports(f, found[0])) else NOTHING;
    }
    one := Noted(f, Sorting.Sort(Strings.Less, found));
  }

  method GatherImports(files: seq<File>, byPath: map<string, string>, f: File) returns (all: Gathered)
    requires Resolves(files, byPath)
    ensures all == Collect(ImportBy(files, f), f.imports)
  {
    all := NOTHING;
    for k := 0 to |f.imports|
      invariant all == Collect(ImportBy(files, f), f.imports[..k])
    {
      CollectStep(ImportBy(files, f), f.imports, k);
      var one := GatherImport(files, byPath, f, f.imports[k]);
      all := Both(all, one);
    }
    assert f.imports[..|f.imports|] == f.imports;
  }

  method GatherPath(files: seq<File>, byPath: map<string, string>, f: File) returns (all: Gathered)
    requires Resolves(files, byPath)
    ensures all == PathGathered(files, f)
  {
    all := if f.renamed then Related(Renamed(f)) else NOTHING;
    if |f.path| == 0 {
      return Both(all, NOTHING);
    }
    var tests := GatherTests(files, byPath, f);
    var imports := GatherImports(files, byPath, f);
    all := Both(all, Both(tests, imports));
  }

  function Held(declarations: map<string, seq<string>>, name: string): seq<string> { if name in declarations then declarations[name] else [] }

  ghost predicate Declares(files: seq<File>, declarations: map<string, seq<string>>)
  {
    forall name {:trigger Declarers(files, name)} :: Held(declarations, name) == Declarers(files, name)
  }

  method GatherMention(files: seq<File>, declarations: map<string, seq<string>>, f: File, name: string) returns (one: Gathered)
    requires Declares(files, declarations)
    ensures one == OneMention(files, f, name)
  {
    var targets := Held(declarations, name);
    assert targets == Declarers(files, name);
    if |targets| == 1 && targets[0] != f.id {
      return Related(Mentions(f, targets[0]));
    }
    one := if |targets| > 1 then Noted(f, targets) else NOTHING;
  }

  method GatherMentions(files: seq<File>, declarations: map<string, seq<string>>, f: File) returns (all: Gathered)
    requires Declares(files, declarations)
    ensures all == Collect(MentionBy(files, f), f.referenced)
  {
    all := NOTHING;
    for k := 0 to |f.referenced|
      invariant all == Collect(MentionBy(files, f), f.referenced[..k])
    {
      CollectStep(MentionBy(files, f), f.referenced, k);
      var one := GatherMention(files, declarations, f, f.referenced[k]);
      all := Both(all, one);
    }
    assert f.referenced[..|f.referenced|] == f.referenced;
  }

  method GatherLocks(files: seq<File>, f: File) returns (all: Gathered)
    ensures all == Collect(LockBy(f), files)
  {
    all := NOTHING;
    for k := 0 to |files|
      invariant all == Collect(LockBy(f), files[..k])
    {
      CollectStep(LockBy(f), files, k);
      var g := files[k];
      var locks := |f.path| > 0 && |g.path| > 0 && f.directory == g.directory && g.name in LocksOf(f.name);
      all := Both(all, if locks then Related(Locks(f, g.id)) else NOTHING);
    }
    assert files[..|files|] == files;
  }

  /** Declared by the first k names of f. */
  function With(ids: seq<string>, f: File, k: nat, name: string): seq<string>
    requires k <= |f.declared|
  {
    if name in f.declared[..k] && f.id !in ids then ids + [f.id] else ids
  }

  method DeclareAll(f: File, before: map<string, seq<string>>) returns (declarations: map<string, seq<string>>)
    ensures forall name {:trigger Held(declarations, name)} :: Held(declarations, name) == With(Held(before, name), f, |f.declared|, name)
  {
    declarations := before;
    for k := 0 to |f.declared|
      invariant forall name {:trigger Held(declarations, name)} :: Held(declarations, name) == With(Held(before, name), f, k, name)
    {
      var name, ids := f.declared[k], Held(declarations, f.declared[k]);
      Sequences.TakeSnoc(f.declared, k);
      ghost var was := declarations;
      declarations := declarations[name := if f.id in ids then ids else ids + [f.id]];
      forall other ensures Held(declarations, other) == With(Held(before, other), f, k + 1, other) {
        assert Held(was, other) == With(Held(before, other), f, k, other);
      }
    }
  }

  method IndexDeclarations(files: seq<File>) returns (declarations: map<string, seq<string>>)
    ensures Declares(files, declarations)
  {
    declarations := map[];
    for i := 0 to |files|
      invariant forall name {:trigger Declarers(files[..i], name)} :: Held(declarations, name) == Declarers(files[..i], name)
    {
      ghost var was := declarations;
      declarations := DeclareAll(files[i], declarations);
      forall name ensures Held(declarations, name) == Declarers(files[..i + 1], name) {
        assert files[..i + 1][..i] == files[..i] && files[i].declared[..|files[i].declared|] == files[i].declared;
        assert Held(was, name) == Declarers(files[..i], name);
      }
    }
    assert files[..|files|] == files;
  }

  /** The directories with files, and the files in each. */
  method IndexDirectories(files: seq<File>) returns (members: map<string, seq<string>>)
    ensures forall d {:trigger Residents(files, d)} :: Held(members, d) == Residents(files, d)
  {
    members := map[];
    for i := 0 to |files|
      invariant forall d {:trigger Residents(files[..i], d)} :: Held(members, d) == Residents(files[..i], d)
    {
      ghost var was := members;
      var f := files[i];
      if |f.path| > 0 {
        members := members[f.directory := Held(members, f.directory) + [f.id]];
      }
      forall d ensures Held(members, d) == Residents(files[..i + 1], d) {
        assert files[..i + 1][..i] == files[..i];
        assert Held(was, d) == Residents(files[..i], d);
      }
    }
    assert files[..|files|] == files;
  }

  /** One hint for each directory with several files, whatever the order of the directories. */
  method DirectoryHints(files: seq<File>) returns (hints: seq<Hint>)
    ensures forall h :: h in hints <==> exists d :: Hints(files, d, h)
  {
    var members := IndexDirectories(files);
    var directories := Sorting.Range(members.Keys);
    hints := [];
    for i := 0 to |directories|
      invariant forall h :: h in hints <==> exists j :: 0 <= j < i && Hints(files, directories[j], h)
    {
      assert directories[i] in members;
      assert Held(members, directories[i]) == Residents(files, directories[i]);
      if |members[directories[i]]| > 1 {
        hints := hints + [Hint(PathProximity, members[directories[i]])];
      }
    }
    forall h, d | Hints(files, d, h) ensures exists j :: 0 <= j < |directories| && Hints(files, directories[j], h) {
      assert Held(members, d) == Residents(files, d);
      assert d in directories;
    }
  }

  // ---------------------------------------------------------------- extraction, and the context made of it

  /** By ID, which are distinct. */
  function ById(): (File, File) -> bool { (f: File, g: File) => Strings.Less(f.id, g.id) }

  /** What the files give in the order of their IDs, and a hint for every directory with several of them. */
  ghost predicate IsExtracted(files: seq<File>, x: Extracted)
  {
    var ordered := Sorting.Sort(ById(), files);
    && x.relations == AllGathered(ordered).relations && x.observations == AllGathered(ordered).observations
    && forall h :: h in x.hints <==> exists d :: Hints(ordered, d, h)
  }

  lemma OrderedIsPermuted(files: seq<File>)
    requires ValidIds(Ids(files))
    ensures var ordered := Sorting.Sort(ById(), files);
            && Apart(files) && Apart(ordered) && (forall f :: f in files <==> f in ordered)
            && forall p :: Owner(files, p) == Owner(ordered, p)
  {
    var ordered := Sorting.Sort(ById(), files);
    assert forall i :: 0 <= i < |files| ==> Ids(files)[i] == files[i].id;
    Sorting.SortMembers(ById(), files);
    Sorting.SortApart(ById(), (f: File) => f.id, files);
    forall p ensures Owner(files, p) == Owner(ordered, p) {
      OwnerOfPermuted(files, ordered, p);
    }
  }

  method PathPass(files: seq<File>, byPath: map<string, string>) returns (all: Gathered)
    requires Resolves(files, byPath)
    ensures all == Collect(PathBy(files), files)
  {
    all := NOTHING;
    for n := 0 to |files|
      invariant all == Collect(PathBy(files), files[..n])
    {
      CollectStep(PathBy(files), files, n);
      var more := GatherPath(files, byPath, files[n]);
      all := Both(all, more);
    }
    assert files[..|files|] == files;
  }

  method MentionPass(files: seq<File>) returns (all: Gathered)
    ensures all == Collect(MentionsBy(files), files)
  {
    var declarations := IndexDeclarations(files);
    all := NOTHING;
    for n := 0 to |files|
      invariant all == Collect(MentionsBy(files), files[..n])
    {
      CollectStep(MentionsBy(files), files, n);
      var more := GatherMentions(files, declarations, files[n]);
      all := Both(all, more);
    }
    assert files[..|files|] == files;
  }

  method LockPass(files: seq<File>) returns (all: Gathered)
    ensures all == Collect(LocksBy(files), files)
  {
    all := NOTHING;
    for n := 0 to |files|
      invariant all == Collect(LocksBy(files), files[..n])
    {
      CollectStep(LocksBy(files), files, n);
      var more := GatherLocks(files, files[n]);
      all := Both(all, more);
    }
    assert files[..|files|] == files;
  }

  method Extract(files: seq<File>) returns (result: Result<Extracted>)
    ensures result.Ok? <==> ValidIds(Ids(files))
    ensures result.Ok? ==> IsExtracted(files, result.value)
  {
    var refusal, byPath := IndexFiles(files);
    if refusal.Some? {
      return Refuse(refusal.value);
    }
    var ordered := Sorting.Sort(ById(), files);
    OrderedIsPermuted(files);
    StillResolves(files, ordered, byPath);
    var paths := PathPass(ordered, byPath);
    var mentions := MentionPass(ordered);
    var locks := LockPass(ordered);
    var all := Both(Both(paths, mentions), locks);
    var hints := DirectoryHints(ordered);
    result := Ok(Extracted(all.relations, all.observations, hints));
  }

  lemma StillResolves(files: seq<File>, others: seq<File>, byPath: map<string, string>)
    requires Resolves(files, byPath) && (forall f :: f in files <==> f in others) && forall p :: Owner(files, p) == Owner(others, p)
    ensures Resolves(others, byPath)
  {
    forall p ensures Taken(files, p) <==> Taken(others, p) {
      if f :| f in files && f.path == p {
        assert f in others;
      }
      if f :| f in others && f.path == p {
        assert f in files;
      }
    }
  }

  /** What is extracted names files of the change set only, with reasons, evidence and hints as the validator wants them. */
  lemma ExtractedIsSound(files: seq<File>, x: Extracted)
    requires ValidIds(Ids(files)) && IsExtracted(files, x)
    ensures AllKnown(Ids(files), x) && WellExtracted(x)
  {
    var ordered := Sorting.Sort(ById(), files);
    OrderedIsPermuted(files);
    SameIds(files, ordered);
    AllWellFormed(ordered);
    AllAreKnown(Ids(files), Ids(ordered), AllGathered(ordered));
    forall h | h in x.hints ensures HintKnown(Ids(files), h) && h.kind.PathProximity? && |h.files| >= 2 {
      var d :| Hints(ordered, d, h);
      HintIsSound(ordered, d, h);
    }
  }

  lemma AllAreKnown(ids: seq<string>, others: seq<string>, g: Gathered)
    requires WellFormed(others, g) && forall id :: id in ids <==> id in others
    ensures forall r :: r in g.relations ==> RelationKnown(ids, r) && |r.reason| > 0 && |r.evidenceType| > 0
    ensures forall o :: o in g.observations ==> ObservationKnown(ids, o)
  {
    forall r | r in g.relations ensures RelationKnown(ids, r) && |r.reason| > 0 && |r.evidenceType| > 0 {
      var i :| 0 <= i < |g.relations| && g.relations[i] == r;
    }
    forall o | o in g.observations ensures ObservationKnown(ids, o) {
      var i :| 0 <= i < |g.observations| && g.observations[i] == o;
    }
  }

  lemma HintIsSound(files: seq<File>, directory: string, h: Hint)
    requires Hints(files, directory, h)
    ensures HintKnown(Ids(files), h) && h.kind.PathProximity? && |h.files| >= 2
  {
    ResidentsAreFiles(files, directory);
  }

  lemma SameIds(files: seq<File>, others: seq<File>)
    requires forall f :: f in files <==> f in others
    ensures forall id :: id in Ids(files) <==> id in Ids(others)
  {
    forall id | id in Ids(files) ensures id in Ids(others) {
      var i :| 0 <= i < |files| && Ids(files)[i] == id;
      IdOf(others, files[i]);
    }
    forall id | id in Ids(others) ensures id in Ids(files) {
      var i :| 0 <= i < |others| && Ids(others)[i] == id;
      IdOf(files, others[i]);
    }
  }

  /** The relation context of a document, or why it has none. */
  datatype Attachment = Attached(graph: Graph) | Unavailable | Ineffective

  /** Nothing can be said about the files: no relation connects two, nothing was observed, and no two share a directory. */
  ghost predicate Silent(files: seq<File>)
  {
    var ordered := Sorting.Sort(ById(), files);
    && Connecting(AllGathered(ordered).relations) == [] && AllGathered(ordered).observations == []
    && forall d :: |Residents(ordered, d)| <= 1
  }

  lemma SilentExtract(files: seq<File>, x: Extracted)
    requires IsExtracted(files, x)
    ensures Silent(files) <==> Connecting(x.relations) == [] && x.observations == [] && x.hints == []
  {
    var ordered := Sorting.Sort(ById(), files);
    if x.hints == [] {
      forall d ensures |Residents(ordered, d)| <= 1 {
        var h := Hint(PathProximity, Residents(ordered, d));
        assert h !in x.hints && (Hints(ordered, d, h) <==> |Residents(ordered, d)| > 1);
      }
    }
    if x.hints != [] {
      assert x.hints[0] in x.hints;
      var d :| Hints(ordered, d, x.hints[0]);
      assert |Residents(ordered, d)| > 1;
    }
  }

  /**
   Files with valid IDs get a relation context that passes validation exactly when there is something to say
   about them.
   */
  method AttachRelationContext(files: seq<File>, order: (Relation, Relation) -> bool) returns (result: Attachment)
    ensures result.Unavailable? <==> !ValidIds(Ids(files))
    ensures result.Ineffective? <==> ValidIds(Ids(files)) && Silent(files)
    ensures result.Attached? ==> ContextValid(Ids(files), result.graph)
                                 && exists x :: IsExtracted(files, x) && IsGraph(Ids(files), x, order, result.graph)
  {
    var extracted := Extract(files);
    if extracted.Refuse? {
      return Unavailable;
    }
    ExtractedIsSound(files, extracted.value);
    var built := BuildGraph(Ids(files), extracted.value, order);
    if built.Refuse? {
      return Unavailable;
    }
    var graph := built.value;
    GraphIsAccepted(Ids(files), extracted.value, order, graph);
    SilentExtract(files, extracted.value);
    Sorting.SortMembers(order, Connecting(extracted.value.relations));
    if |graph.edges| == 0 && |graph.hints| == 0 && |extracted.value.observations| == 0 {
      return Ineffective;
    }
    result := Attached(graph);
  }
}
