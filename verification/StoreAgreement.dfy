/** The tree-backed and the flat store compared: which writes both take, and when their listings are
    the same. */
module StoreAgreement {
  import opened Results
  import opened Sequences
  import opened ListingOrder
  import opened PathNames
  import opened FileTree
  import opened LocalStore
  import opened MemoryStore

  /** The two stores hold the same files, the flat one under the printed paths. */
  ghost predicate SameFiles(t: Tree, files: Files) {
    && (forall p :: IsFile(t, p) ==> Abs(p) in files && files[Abs(p)] == t[p].bytes)
    && (forall k :: k in files ==> exists p :: IsFile(t, p) && Abs(p) == k)
  }

  /** A path as a caller writes it: the printed place, with or without one trailing slash. */
  predicate Canonical(path: string, cs: Path) {
    AllPlain(cs) && (path == Abs(cs) || path == Abs(cs) + "/")
  }

  lemma CanonicalParts(path: string, cs: Path)
    requires Canonical(path, cs)
    ensures Resolve(path) == Ok(cs) && TrimEnd(path) == Abs(cs) && PrefixFor(path) == Abs(cs) + "/"
  {
    EndsPlain(cs);
    var p := Abs(cs);
    if path != p { TrimOneSlash(p, path); }
    ResolveTrimmed(path);
    ResolveTrimmed(p);
    ResolveAbs(cs);
  }

  lemma TrimOneSlash(p: string, path: string)
    requires path == p + "/" && TrimEnd(p) == p
    ensures TrimEnd(path) == p
  {
  }

  lemma ResolveTrimmed(path: string)
    ensures Resolve(path) == Keep(Segments(TrimEnd(path)))
  {
    SegmentsOfTrimEnd(path);
    SegmentsOfTrimmed(path);
  }

  lemma EndsPlain(cs: Path)
    requires AllPlain(cs)
    ensures TrimEnd(Abs(cs)) == Abs(cs) && (Abs(cs) == "" || Abs(cs)[|Abs(cs)| - 1] != '/')
  {
  }

  /** Below a canonical listing path a node is listed under its printed path. */
  lemma CanonicalEntry(t: Tree, path: string, cs: Path, p: Path)
    requires Canonical(path, cs) && p in t && IsPrefix(cs, p)
    ensures EntryAt(t, path, cs, p).path == Abs(p)
  {
    CanonicalParts(path, cs);
    AbsSplit(p, cs, p[|cs|..]);
  }

  /** The recursive listings are the same set of entries. */
  lemma DeepAgrees(t: Tree, files: Files, path: string, cs: Path)
    requires WellFormed(t) && SameFiles(t, files) && Canonical(path, cs)
    ensures DeepEntries(t, path, cs) == Scanned(files, PrefixFor(path), true)
  {
    var prefix := PrefixFor(path);
    CanonicalParts(path, cs);
    forall e ensures e in DeepEntries(t, path, cs) <==> e in Scanned(files, prefix, true) {
      if e in DeepEntries(t, path, cs) {
        var p :| p in t && Under(cs, p) && t[p].File? && e == EntryAt(t, path, cs, p);
        CanonicalEntry(t, path, cs, p);
        InsideIffUnder(cs, p);
        assert Contribution(files, prefix, true, Abs(p)) == e;
      }
      if e in Scanned(files, prefix, true) {
        var k :| k in files && Inside(prefix, k) && e == Contribution(files, prefix, true, k);
        var p :| IsFile(t, p) && Abs(p) == k;
        InsideIffUnder(cs, p);
        CanonicalEntry(t, path, cs, p);
        assert e == EntryAt(t, path, cs, p);
      }
    }
  }

  lemma InsideIffUnder(cs: Path, p: Path)
    requires AllPlain(cs) && AllPlain(p)
    ensures Inside(Abs(cs) + "/", Abs(p)) <==> Under(cs, p)
  {
    PrefixOfAbs(cs, p);
    EndsPlain(p);
    EndsPlain(cs);
  }

  /** The hierarchical entry a file below cs gives rise to: the child of cs on the way to it. */
  lemma ContributionOf(t: Tree, files: Files, cs: Path, p: Path)
    requires WellFormed(t) && SameFiles(t, files) && AllPlain(cs) && IsFile(t, p) && Under(cs, p)
    ensures var prefix, child := Abs(cs) + "/", p[..|cs| + 1];
      && Inside(prefix, Abs(p)) && child in t && Parent(child) == cs
      && Contribution(files, prefix, false, Abs(p)) == Entry(Abs(child), t[child].Directory?, Size(t[child]))
  {
    var prefix, child, deeper := Abs(cs) + "/", p[..|cs| + 1], p[|cs| + 1..];
    var name := p[|cs|];
    InsideIffUnder(cs, p);
    assert Plain(name) && child[..|child| - 1] == cs;
    assert Abs(child) == Below(Abs(cs), name);
    AbsSplit(p, child, deeper);
    AppendAssoc(prefix, name, Abs(deeper));
    assert Abs(p) == prefix + (name + Abs(deeper));
    assert Rest(prefix, Abs(p)) == name + Abs(deeper);
    if deeper == [] {
      assert child == p;
      FirstSlashIs(name + Abs(deeper), |name|);
    } else {
      AncestorsAreDirs(t, p, |cs| + 1);
      AbsStartsWithSlash(deeper);
      assert (name + Abs(deeper))[..|name|] == name;
      FirstSlashIs(name + Abs(deeper), |name|);
    }
  }

  /** A child directory of cs without any file below it. */
  ghost predicate HasBarrenChild(t: Tree, cs: Path) {
    exists d :: IsDir(t, d) && d != [] && Parent(d) == cs && Barren(t, d)
  }

  ghost predicate Barren(t: Tree, d: Path) {
    forall p :: IsFile(t, p) ==> !Under(d, p)
  }

  lemma ScannedAreChildren(t: Tree, files: Files, path: string, cs: Path)
    requires WellFormed(t) && SameFiles(t, files) && Canonical(path, cs)
    ensures Scanned(files, PrefixFor(path), false) <= ChildEntries(t, path, cs)
  {
    var prefix := PrefixFor(path);
    CanonicalParts(path, cs);
    forall e | e in Scanned(files, prefix, false) ensures e in ChildEntries(t, path, cs) {
      var k :| k in files && Inside(prefix, k) && e == Contribution(files, prefix, false, k);
      var p :| IsFile(t, p) && Abs(p) == k;
      InsideIffUnder(cs, p);
      ContributionOf(t, files, cs, p);
      var child := p[..|cs| + 1];
      ChildIsUnder(cs, child);
      CanonicalEntry(t, path, cs, child);
      assert e == EntryAt(t, path, cs, child);
    }
  }

  /** The hierarchical listings agree exactly when every child directory has a file somewhere below
      it: the tree shows empty folders, the flat store cannot. */
  lemma ChildrenAgreeIff(t: Tree, files: Files, path: string, cs: Path)
    requires WellFormed(t) && SameFiles(t, files) && Canonical(path, cs)
    ensures ChildEntries(t, path, cs) == Scanned(files, PrefixFor(path), false) <==> !HasBarrenChild(t, cs)
  {
    ScannedAreChildren(t, files, path, cs);
    if HasBarrenChild(t, cs) {
      var d :| IsDir(t, d) && d != [] && Parent(d) == cs && Barren(t, d);
      BarrenUnlisted(t, files, path, cs, d);
      assert EntryAt(t, path, cs, d) in ChildEntries(t, path, cs);
    } else {
      forall e | e in ChildEntries(t, path, cs) ensures e in Scanned(files, PrefixFor(path), false) {
        var c :| c in t && c != [] && Parent(c) == cs && e == EntryAt(t, path, cs, c);
        ChildScanned(t, files, path, cs, c);
      }
    }
  }

  /** A tree with an empty directory: it lists the directory, and the flat store over the same (no) files
      lists nothing. */
  lemma EmptyFolderParts(name: string)
    requires Plain(name)
    ensures var t: Tree, files: Files := map[[] := Directory, [name] := Directory], map[];
      && WellFormed(t) && SameFiles(t, files) && Canonical("/", [])
      && EntryAt(t, "/", [], [name]) in ChildEntries(t, "/", []) && Scanned(files, PrefixFor("/"), false) == {}
  {
    var t: Tree, files: Files := map[[] := Directory, [name] := Directory], map[];
    assert AllPlain([]) && AllPlain([name]) && Parent([name]) == [];
    assert forall p :: p in t ==> IsDir(t, p);
  }

  lemma FileAtOrBelow(t: Tree, c: Path) returns (p: Path)
    requires c in t && (IsDir(t, c) ==> !Barren(t, c))
    ensures IsFile(t, p) && (p == c || Under(c, p))
  {
    if IsFile(t, c) {
      p := c;
    } else {
      p :| IsFile(t, p) && Under(c, p);
    }
  }

  lemma ChildScanned(t: Tree, files: Files, path: string, cs: Path, c: Path)
    requires WellFormed(t) && SameFiles(t, files) && Canonical(path, cs)
    requires c in t && c != [] && Parent(c) == cs && (IsDir(t, c) ==> !Barren(t, c))
    ensures EntryAt(t, path, cs, c) in Scanned(files, PrefixFor(path), false)
  {
    CanonicalParts(path, cs);
    ChildIsUnder(cs, c);
    var p := FileAtOrBelow(t, c);
    ChildOnTheWay(cs, c, p);
    ContributionOf(t, files, cs, p);
    CanonicalEntry(t, path, cs, c);
    var k, e := Abs(p), EntryAt(t, path, cs, c);
    assert e == Contribution(files, PrefixFor(path), false, k);
  }

  lemma ChildOnTheWay(cs: Path, c: Path, p: Path)
    requires c != [] && Parent(c) == cs && (p == c || Under(c, p))
    ensures Under(cs, p) && p[..|cs| + 1] == c
  {
  }

  lemma BarrenUnlisted(t: Tree, files: Files, path: string, cs: Path, d: Path)
    requires WellFormed(t) && SameFiles(t, files) && Canonical(path, cs)
    requires IsDir(t, d) && d != [] && Parent(d) == cs && Barren(t, d)
    ensures EntryAt(t, path, cs, d) !in Scanned(files, PrefixFor(path), false)
  {
    var prefix, e := PrefixFor(path), EntryAt(t, path, cs, d);
    CanonicalParts(path, cs);
    ChildIsUnder(cs, d);
    CanonicalEntry(t, path, cs, d);
    if e in Scanned(files, prefix, false) {
      var k :| k in files && Inside(prefix, k) && e == Contribution(files, prefix, false, k);
      var p :| IsFile(t, p) && Abs(p) == k;
      InsideIffUnder(cs, p);
      ContributionOf(t, files, cs, p);
      AbsInjective(p[..|cs| + 1], d);
      assert Under(d, p);
      assert false;
    }
  }

  // ---------------------------------------------------------------- runs of writes and deletes

  datatype Op = Put(at: Path, contents: seq<Byte>) | Delete(at: Path) | Mkdir(at: Path) | Rmdir(at: Path)

  /** The local store's answer to one operation on a place named by its plain components. */
  function LocalStep(t: Tree, op: Op): StoreResult<Tree> {
    match op
    case Put(p, contents) => Write(t, p, contents)
    case Delete(p) => RemoveFile(t, p)
    case Mkdir(p) => MkdirAll(t, p)
    case Rmdir(p) => RemoveEmptyDir(t, p)
  }

  /** The flat store's effect of the same operation; directories are not files, and a write at the
      root's printed path, which is empty, is refused. */
  function FlatStep(files: Files, op: Op): Files {
    match op
    case Put(p, contents) => if p == [] then files else files[Abs(p) := contents]
    case Delete(p) => map k | k in files && k != Abs(p) :: files[k]
    case Mkdir(_) => files
    case Rmdir(_) => files
  }

  /** Whether an operation is a write at the root itself. */
  predicate WritesRoot(op: Op) {
    op.Put? && op.at == []
  }

  lemma OtherStepAgrees(t: Tree, files: Files, op: Op)
    requires WellFormed(t) && SameFiles(t, files) && !IsFile(t, []) && AllPlain(op.at)
    requires LocalStep(t, op).Ok? && !WritesRoot(op)
    ensures WellFormed(LocalStep(t, op).value) && SameFiles(LocalStep(t, op).value, FlatStep(files, op))
    ensures !IsFile(LocalStep(t, op).value, [])
  {
    match op {
      case Put(p, contents) =>
        OpenForWriteKeeps(t, p);
        RewriteKeeps(OpenForWrite(t, p).value, p, contents);
        PutAgrees(t, files, p, contents);
        NoRootFile(Write(t, p, contents).value, p);
      case Delete(p) => DeleteAgrees(t, files, p);
      case Mkdir(p) =>
        MkdirAllKeeps(t, p);
        SameFilesKept(t, MkdirAll(t, p).value, files);
      case Rmdir(p) => SameFilesKept(t, RemoveEmptyDir(t, p).value, files);
    }
  }

  lemma SameFilesKept(t: Tree, t1: Tree, files: Files)
    requires SameFiles(t, files)
    requires forall q :: IsFile(t1, q) <==> IsFile(t, q)
    requires forall q :: IsFile(t, q) && q in t1 ==> t1[q] == t[q]
    ensures SameFiles(t1, files)
  {
    forall k | k in files ensures exists q :: IsFile(t1, q) && Abs(q) == k {
      var q :| IsFile(t, q) && Abs(q) == k;
      assert IsFile(t1, q);
    }
  }

  lemma DeleteAgrees(t: Tree, files: Files, p: Path)
    requires WellFormed(t) && SameFiles(t, files) && AllPlain(p) && RemoveFile(t, p).Ok?
    ensures SameFiles(RemoveFile(t, p).value, FlatStep(files, Delete(p)))
  {
    var t1, files1 := RemoveFile(t, p).value, FlatStep(files, Delete(p));
    forall q | IsFile(t1, q) ensures Abs(q) in files1 && files1[Abs(q)] == t1[q].bytes {
      assert IsFile(t, q);
      if Abs(q) == Abs(p) { AbsInjective(q, p); }
    }
    forall k | k in files1 ensures exists q :: IsFile(t1, q) && Abs(q) == k {
      var q :| IsFile(t, q) && Abs(q) == k;
      assert IsFile(t1, q);
    }
  }

  lemma PutAgrees(t: Tree, files: Files, p: Path, contents: seq<Byte>)
    requires WellFormed(t) && SameFiles(t, files) && AllPlain(p) && Write(t, p, contents).Ok?
    ensures SameFiles(Write(t, p, contents).value, files[Abs(p) := contents])
  {
    OpenForWriteKeeps(t, p);
    OneFileMore(t, files, p, contents, OpenForWrite(t, p).value);
  }

  lemma OneFileMore(t: Tree, files: Files, p: Path, contents: seq<Byte>, created: Tree)
    requires WellFormed(t) && SameFiles(t, files) && AllPlain(p) && Opened(t, p, created)
    ensures SameFiles(created[p := File(contents)], files[Abs(p) := contents])
  {
    var t1, files1 := created[p := File(contents)], files[Abs(p) := contents];
    forall q | IsFile(t1, q) ensures Abs(q) in files1 && files1[Abs(q)] == t1[q].bytes {
      if q != p {
        assert IsFile(t, q) && created[q] == t[q];
        if Abs(q) == Abs(p) { AbsInjective(q, p); }
      }
    }
    forall k | k in files1 ensures exists q :: IsFile(t1, q) && Abs(q) == k {
      var q := FileOfKey(t, files, p, created, k);
      assert IsFile(t1, q);
    }
  }

  lemma FileOfKey(t: Tree, files: Files, p: Path, created: Tree, k: string) returns (q: Path)
    requires SameFiles(t, files) && Opened(t, p, created) && (k in files || k == Abs(p))
    ensures IsFile(created, q) && Abs(q) == k && (k == Abs(p) ==> q == p)
  {
    if k == Abs(p) {
      q := p;
    } else {
      q :| IsFile(t, q) && Abs(q) == k;
    }
  }

  lemma NoRootFile(t: Tree, p: Path)
    requires WellFormed(t) && p in t && p != []
    ensures !IsFile(t, [])
  {
    AncestorsAreDirs(t, p, 0);
  }

  /** The tree takes a write at its root only when there is nothing left, and then is one file. */
  lemma RootWrite(t: Tree, contents: seq<Byte>)
    requires WellFormed(t) && Write(t, [], contents).Ok?
    ensures Write(t, [], contents).value == map[[] := File(contents)] && forall p :: p in t ==> p == []
  {
    forall p | p in t && p != [] ensures false {
      AncestorsAreDirs(t, p, 0);
    }
    assert t - {[]} == map[];
  }

  /** An accepted operation keeps the stores on the same files exactly when it is no write at the root:
      an empty home can become a file itself, and the flat store, which holds no empty path, does not
      take it. */
  lemma StepAgreesIff(t: Tree, files: Files, op: Op)
    requires WellFormed(t) && SameFiles(t, files) && "" !in files && AllPlain(op.at) && LocalStep(t, op).Ok?
    ensures SameFiles(LocalStep(t, op).value, FlatStep(files, op)) <==> !WritesRoot(op)
  {
    if WritesRoot(op) {
      RootWrite(t, op.contents);
      assert IsFile(LocalStep(t, op).value, []);
    } else {
      OtherStepAgrees(t, files, op);
    }
  }

  /** `SameFiles` for all but a file in the root's place. */
  ghost predicate SameBelowRoot(t: Tree, files: Files) {
    if IsFile(t, []) then files == map[] else SameFiles(t, files)
  }

  lemma PathOfKey(t: Tree, files: Files, k: string) returns (p: Path)
    requires SameFiles(t, files) && k in files
    ensures IsFile(t, p) && Abs(p) == k
  {
    p :| IsFile(t, p) && Abs(p) == k;
  }

  lemma NothingLeft(t: Tree, files: Files)
    requires SameBelowRoot(t, files) && forall p :: p in t ==> p == []
    ensures files == map[]
  {
    if !IsFile(t, []) {
      forall k ensures k !in files {
        if k in files { var p := PathOfKey(t, files, k); }
      }
    }
  }

  lemma StepKeepsBelowRoot(t: Tree, files: Files, op: Op)
    requires WellFormed(t) && SameBelowRoot(t, files) && AllPlain(op.at) && LocalStep(t, op).Ok?
    ensures WellFormed(LocalStep(t, op).value) && SameBelowRoot(LocalStep(t, op).value, FlatStep(files, op))
  {
    if WritesRoot(op) {
      RootWrite(t, op.contents);
      NothingLeft(t, files);
    } else if IsFile(t, []) {
      RootFileStep(t, op);
    } else {
      OtherStepAgrees(t, files, op);
    }
  }

  /** While the root is a file, only deleting it does anything. */
  lemma RootFileStep(t: Tree, op: Op)
    requires WellFormed(t) && IsFile(t, []) && AllPlain(op.at) && LocalStep(t, op).Ok? && !WritesRoot(op)
    ensures op == Delete([]) && LocalStep(t, op).value == map[]
  {
    forall p | p in t ensures p == [] {
      if p != [] { AncestorsAreDirs(t, p, 0); }
    }
    if op.at != [] {
      RootBlocks(t, op.at);
      OpenForWriteKeeps(t, op.at);
    }
  }

  lemma RootBlocks(t: Tree, p: Path)
    requires IsFile(t, []) && p != []
    ensures Blocked(t, p)
  {
    assert p[..0] == [];
  }

  /** A run: an operation the local store refuses is not sent to the flat one either. */
  function LocalRun(t: Tree, ops: seq<Op>): Tree
    decreases |ops|
  {
    if ops == [] then t
    else LocalRun(if LocalStep(t, ops[0]).Ok? then LocalStep(t, ops[0]).value else t, ops[1..])
  }

  function FlatRun(t: Tree, files: Files, ops: seq<Op>): Files
    decreases |ops|
  {
    if ops == [] then files
    else
      var step := LocalStep(t, ops[0]);
      if step.Ok? then FlatRun(step.value, FlatStep(files, ops[0]), ops[1..])
      else FlatRun(t, files, ops[1..])
  }

  lemma {:induction false} RunKeepsBelowRoot(t: Tree, files: Files, ops: seq<Op>)
    requires WellFormed(t) && SameBelowRoot(t, files) && forall op <- ops :: AllPlain(op.at)
    ensures WellFormed(LocalRun(t, ops)) && SameBelowRoot(LocalRun(t, ops), FlatRun(t, files, ops))
    decreases |ops|
  {
    if ops != [] {
      var step := LocalStep(t, ops[0]);
      if step.Ok? {
        StepKeepsBelowRoot(t, files, ops[0]);
        RunKeepsBelowRoot(step.value, FlatStep(files, ops[0]), ops[1..]);
      } else {
        RunKeepsBelowRoot(t, files, ops[1..]);
      }
    }
  }

  /** After every run of writes, deletes and directory operations the two stores hold the same files
      exactly unless the root has become a file; and in every case their recursive listings of every
      canonical path are the same. */
  lemma RunsAgree(t: Tree, files: Files, ops: seq<Op>, path: string, cs: Path)
    requires WellFormed(t) && SameBelowRoot(t, files) && Canonical(path, cs)
    requires forall op <- ops :: AllPlain(op.at)
    ensures var t1, files1 := LocalRun(t, ops), FlatRun(t, files, ops);
      && (SameFiles(t1, files1) <==> !IsFile(t1, []))
      && DeepEntries(t1, path, cs) == Scanned(files1, PrefixFor(path), true)
  {
    RunKeepsBelowRoot(t, files, ops);
    var t1, files1 := LocalRun(t, ops), FlatRun(t, files, ops);
    if IsFile(t1, []) {
      NothingListed(t1, path, cs);
    } else {
      DeepAgrees(t1, files1, path, cs);
    }
  }

  lemma NothingListed(t: Tree, path: string, cs: Path)
    requires WellFormed(t) && IsFile(t, [])
    ensures DeepEntries(t, path, cs) == {}
  {
    forall p | p in t && Under(cs, p) ensures false {
      NoRootFile(t, p);
    }
  }

  /** The run that parts them: the empty home is deleted, and a file written in its place. */
  lemma RootWriteParts(contents: seq<Byte>)
    ensures var ops, empty := [Rmdir([]), Put([], contents)], map[[] := Directory];
      IsFile(LocalRun(empty, ops), []) && FlatRun(empty, map[], ops) == map[]
  {
    var put, empty: Tree := [Put([], contents)], map[[] := Directory];
    var ops := [Rmdir([])] + put;
    assert ops == [Rmdir([]), Put([], contents)] && ops[1..] == put && put[1..] == [];
    var none := Without(empty, []);
    assert none == map[];
    assert LocalStep(empty, ops[0]) == Ok(none);
    RootWrite(none, contents);
    assert LocalStep(none, put[0]).Ok?;
    assert LocalRun(none, put) == LocalStep(none, put[0]).value;
    assert FlatRun(none, map[], put) == map[];
  }

  /** The tree takes a write exactly when the flat store's keys stay prefix-free, leaving aside an
      (empty) directory in the file's place. */
  lemma WriteAcceptedIff(t: Tree, files: Files, p: Path, contents: seq<Byte>)
    requires WellFormed(t) && SameFiles(t, files) && AllPlain(p)
    ensures Write(t, p, contents).Ok? <==>
      !IsDir(t, p) && forall k :: k in files ==> !IsPrefix(k + "/", Abs(p))
  {
    OpenForWriteKeeps(t, p);
    if Blocked(t, p) {
      var k :| 0 <= k < |p| && IsFile(t, p[..k]);
      PrefixOfAbs(p[..k], p);
      assert Abs(p[..k]) in files;
    }
    if k :| k in files && IsPrefix(k + "/", Abs(p)) {
      var q :| IsFile(t, q) && Abs(q) == k;
      PrefixOfAbs(q, p);
      assert p[..|q|] == q;
      assert Blocked(t, p);
    }
  }

  /** No file's path continues another's: what the tree's shape guarantees of the shared keys. */
  lemma SharedKeysPrefixFree(t: Tree, files: Files, k: string, l: string)
    requires WellFormed(t) && SameFiles(t, files) && k in files && l in files
    ensures !IsPrefix(k + "/", l)
  {
    var p :| IsFile(t, p) && Abs(p) == k;
    var q :| IsFile(t, q) && Abs(q) == l;
    PrefixOfAbs(p, q);
    if IsPrefix(p, q) && p != q {
      AncestorsAreDirs(t, q, |p|);
    }
  }

  // ---------------------------------------------------------------- the flat store's own listings

  /** In the hierarchical view two entries share a path exactly when some file is also a folder of
      other files; only then does piecewise reading lose an entry. */
  lemma HierarchyDistinctIff(files: Files, prefix: string, full: seq<Entry>)
    requires ListsOnce(full, Scanned(files, prefix, false), false) && prefix != "" && prefix[|prefix| - 1] == '/'
    ensures DistinctPaths(full) <==>
      !exists k, l :: k in files && l in files && Inside(prefix, k) && '/' !in Rest(prefix, k) && IsPrefix(k + "/", l)
  {
    if k, l :| k in files && l in files && Inside(prefix, k) && '/' !in Rest(prefix, k) && IsPrefix(k + "/", l) {
      ClashingKeys(files, prefix, k, l);
      var a, b := Contribution(files, prefix, false, k), Contribution(files, prefix, false, l);
      assert a in Elements(full) && b in Elements(full);
      var i :| 0 <= i < |full| && full[i] == a;
      var j :| 0 <= j < |full| && full[j] == b;
      assert i != j;
    }
    if !DistinctPaths(full) {
      var i, j :| 0 <= i < j < |full| && full[i].path == full[j].path;
      assert Before(full[i], full[j], false);
      LessIrreflexive(full[i].path);
      assert full[i] in Elements(full) && full[j] in Elements(full);
      var k :| k in files && Inside(prefix, k) && Contribution(files, prefix, false, k) == full[i];
      var l :| l in files && Inside(prefix, l) && Contribution(files, prefix, false, l) == full[j];
      FolderOfKey(prefix, k, l);
    }
  }

  /** Such files, `k` and `k/x`: listed together the file and the folder of the same path follow each
      other, and resuming after the first skips the second. */
  lemma FileIsFolderLoses(files: Files, prefix: string, name: string, x: string)
    requires Unbroken(name)
    requires var k := prefix + name; files.Keys == {k, k + "/" + x}
    ensures var k := prefix + name; var full := [Entry(k, false, |files[k]|), Entry(k, true, 0)];
      && ListsOnce(full, Scanned(files, prefix, false), false)
      && Window(full, None, Some(1)) == full[..1] && Window(full, Some(k), Some(1)) == []
  {
    var k := prefix + name;
    var l := k + "/" + x;
    var file, folder := Entry(k, false, |files[k]|), Entry(k, true, 0);
    FileContributes(files, prefix, name);
    FolderContributes(files, prefix, name, x);
    assert Scanned(files, prefix, false) == {file, folder} by {
      assert k in files && l in files;
      assert forall e :: e in Scanned(files, prefix, false) <==> e == file || e == folder;
    }
    LessIrreflexive(k);
    assert [file, folder][1..] == [folder] && After([folder], Some(k)) == [];
  }

  lemma FileContributes(files: Files, prefix: string, name: string)
    requires prefix + name in files && Unbroken(name)
    ensures var k := prefix + name;
      Inside(prefix, k) && Contribution(files, prefix, false, k) == Entry(k, false, |files[k]|)
  {
    var k := prefix + name;
    assert k[..|prefix|] == prefix && k[|prefix|..] == name && name[..|name|] == name;
    FirstSlashIs(name, |name|);
  }

  lemma FolderContributes(files: Files, prefix: string, name: string, x: string)
    requires prefix + name + "/" + x in files && Unbroken(name)
    ensures var l := prefix + name + "/" + x;
      Inside(prefix, l) && Contribution(files, prefix, false, l) == Entry(prefix + name, true, 0)
  {
    var l, rest := prefix + name + "/" + x, name + "/" + x;
    assert l[..|prefix|] == prefix && l[|prefix|..] == rest && rest[..|name|] == name && rest[|name|] == '/';
    FirstSlashIs(rest, |name|);
  }

  lemma ClashingKeys(files: Files, prefix: string, k: string, l: string)
    requires k in files && l in files && Inside(prefix, k) && '/' !in Rest(prefix, k) && IsPrefix(k + "/", l)
    ensures Contribution(files, prefix, false, k) == Entry(k, false, |files[k]|)
    ensures Inside(prefix, l) && Contribution(files, prefix, false, l) == Entry(k, true, 0)
  {
    var a, b := Rest(prefix, k), l[|prefix|..];
    assert l[..|prefix|] == (k + "/")[..|prefix|] == prefix;
    assert a[..|a|] == a;
    FirstSlashIs(a, |a|);
    assert l[..|k|] == (k + "/")[..|k|] == k;
    assert b[..|a|] == l[..|k|][|prefix|..] == a;
    assert b[|a|] == l[|k|] == (k + "/")[|k|];
    FirstSlashIs(b, |a|);
    assert prefix + a == k;
  }

  lemma FolderOfKey(prefix: string, k: string, l: string)
    requires Inside(prefix, k) && Inside(prefix, l)
    requires FirstSlash(Rest(prefix, k)) == |Rest(prefix, k)|
    requires FirstSlash(Rest(prefix, l)) < |Rest(prefix, l)|
    requires k == prefix + Rest(prefix, l)[..FirstSlash(Rest(prefix, l))]
    ensures '/' !in Rest(prefix, k) && IsPrefix(k + "/", l)
  {
  }

  /** An ordered listing of the entries of a strictly ascending one is that listing. */
  lemma OrderedIsAscending(a: seq<Entry>, b: seq<Entry>)
    requires Ascending(a) && Ordered(b, false) && Elements(a) == Elements(b)
    ensures a == b
  {
    OrderedUnique(a, b, false);
  }

  lemma WindowsAgree(r: seq<Entry>, s: seq<Entry>, full: seq<Entry>, all: set<Entry>, after: Option<string>,
                     cap: Option<nat>)
    requires Answers(r, all, after, cap)
    requires ListsOnce(full, all, false) && s == Window(full, after, cap)
    ensures r == s
  {
    var f :| Lists(f, all) && r == Window(f, after, cap);
    OrderedIsAscending(f, full);
  }

  /** Asked the same question about the same files, the two stores give the same answer: always for
      the recursive listing, and for the hierarchical one when no listed folder is barren. */
  method ListBoth(local: LocalFileStore, flat: MemoryFileStore, path: string, cs: Path, opts: ListOpts)
    returns (a: StoreResult<seq<Entry>>, b: seq<Entry>)
    requires local.Valid() && SameFiles(local.tree, flat.files) && Canonical(path, cs)
    ensures a.Ok? <==> local.Listable(cs)
    ensures a.Ok? && (opts.recursive || !HasBarrenChild(local.tree, cs)) ==> a.value == b
  {
    CanonicalParts(path, cs);
    a := local.ListFilesOpts(path, opts);
    b := flat.ListFilesOpts(path, opts);
    DeepAgrees(local.tree, flat.files, path, cs);
    ChildrenAgreeIff(local.tree, flat.files, path, cs);
    if a.Ok? && (opts.recursive || !HasBarrenChild(local.tree, cs)) {
      ghost var all := local.Listed(path, cs, opts.recursive);
      assert all == Scanned(flat.files, PrefixFor(path), opts.recursive);
      ghost var full :| ListsOnce(full, all, false) && b == Window(full, opts.startAfter, opts.maxResults);
      WindowsAgree(a.value, b, full, all, opts.startAfter, opts.maxResults);
    }
  }
}
