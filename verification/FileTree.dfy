/** The directory tree below the local store's root, the operating-system calls the store makes on
    it, and what a listing of it means. */
module FileTree {
  import opened Results
  import opened Sequences
  import opened ListingOrder
  import opened PathNames

  type Path = seq<string>

  datatype Node = File(bytes: seq<Byte>) | Directory

  /** Nodes by their component path below the root; the root itself is []. */
  type Tree = map<Path, Node>

  function Parent(p: Path): Path
    requires p != []
  {
    p[..|p| - 1]
  }

  predicate IsDir(t: Tree, p: Path) {
    p in t && t[p].Directory?
  }

  predicate IsFile(t: Tree, p: Path) {
    p in t && t[p].File?
  }

  /** Names are plain and every node but the root lies in a directory. The root may be missing: an
      empty home volume can be deleted and comes back with the next write. */
  ghost predicate WellFormed(t: Tree) {
    && (forall p <- t :: AllPlain(p))
    && (forall p {:trigger Parent(p)} :: p in t && p != [] ==> IsDir(t, Parent(p)))
  }

  lemma {:induction false} AncestorsAreDirs(t: Tree, p: Path, k: nat)
    requires WellFormed(t) && p in t && k < |p|
    ensures IsDir(t, p[..k])
    decreases |p| - k
  {
    if k < |p| - 1 {
      AncestorsAreDirs(t, Parent(p), k);
      assert Parent(p)[..k] == p[..k];
    } else {
      assert Parent(p) == p[..k];
    }
  }

  // ---------------------------------------------------------------- operating-system calls

  /** A proper ancestor of p that is a file. */
  ghost predicate Blocked(t: Tree, p: Path) {
    exists k :: 0 <= k < |p| && IsFile(t, p[..k])
  }

  /** Why a lookup of an absent node fails: ENOTDIR below a file, ENOENT otherwise. */
  function Absent(t: Tree, p: Path): StoreError {
    if exists k :: 0 <= k < |p| && IsFile(t, p[..k]) then Internal else NotFound
  }

  /** `create_dir_all`. */
  function MkdirAll(t: Tree, p: Path): StoreResult<Tree> {
    if IsFile(t, p) then Err(AlreadyExists)
    else if exists k :: 0 <= k < |p| && IsFile(t, p[..k]) then Err(Internal)
    else Ok(t + map k | 0 <= k <= |p| :: p[..k] := Directory)
  }

  /** `File::create` after the parents exist. */
  function Create(t: Tree, p: Path): StoreResult<Tree> {
    if IsDir(t, p) then Err(Internal) else Ok(t[p := File([])])
  }

  /** The parent chain and the emptied target of a write. */
  function OpenForWrite(t: Tree, p: Path): StoreResult<Tree> {
    if p == [] then Create(t, p)
    else
      match MkdirAll(t, Parent(p))
      case Err(e) => Err(e)
      case Ok(t1) => Create(t1, p)
  }

  function Without(t: Tree, p: Path): (t1: Tree)
    ensures WellFormed(t) && !HasChild(t, p) ==> WellFormed(t1)
  {
    map q | q in t && q != p :: t[q]
  }

  function RemoveFile(t: Tree, p: Path): (r: StoreResult<Tree>)
    ensures r.Ok? && WellFormed(t) ==> WellFormed(r.value)
  {
    if p !in t then Err(Absent(t, p))
    else if t[p].Directory? then Err(Internal)
    else Ok(Without(t, p))
  }

  predicate HasChild(t: Tree, p: Path) {
    exists q :: q in t && q != [] && Parent(q) == p
  }

  /** `delete_directory`: only an empty directory goes. */
  function RemoveEmptyDir(t: Tree, p: Path): (r: StoreResult<Tree>)
    ensures r.Ok? && WellFormed(t) ==> WellFormed(r.value)
  {
    if p !in t then Err(Absent(t, p))
    else if t[p].File? then Err(Internal)
    else if HasChild(t, p) then Err(FailedPrecondition)
    else Ok(Without(t, p))
  }

  lemma MkdirAllKeeps(t: Tree, p: Path)
    requires WellFormed(t) && AllPlain(p) && MkdirAll(t, p).Ok?
    ensures var t1 := MkdirAll(t, p).value; WellFormed(t1) && IsDir(t1, p)
    ensures var t1 := MkdirAll(t, p).value; forall q :: IsFile(t1, q) <==> IsFile(t, q)
    ensures var t1 := MkdirAll(t, p).value; forall q :: q in t ==> q in t1 && t1[q] == t[q]
    ensures var t1 := MkdirAll(t, p).value; forall q :: q in t1 && q !in t ==> t1[q] == Directory && IsPrefix(q, p)
  {
    var t1 := MkdirAll(t, p).value;
    assert p[..|p|] == p;
    forall q | q in t ensures q in t1 && t1[q] == t[q] {
      if exists k :: 0 <= k <= |p| && p[..k] == q {
        var k :| 0 <= k <= |p| && p[..k] == q;
        assert !IsFile(t, p[..k]);
      }
    }
    forall q | q in t1 && q !in t ensures t1[q] == Directory && IsPrefix(q, p) {
      var k :| 0 <= k <= |p| && p[..k] == q;
    }
    forall q | q in t1 ensures AllPlain(q) && (q != [] ==> IsDir(t1, Parent(q))) {
      if q !in t {
        var k :| 0 <= k <= |p| && p[..k] == q;
        if k > 0 {
          assert Parent(q) == p[..k - 1];
          assert p[..k - 1] in t1;
          if p[..k - 1] in t { assert !IsFile(t, p[..k - 1]); }
        }
      }
    }
  }

  /** An opened write changes nothing but the (now empty) target and missing ancestors, and it is
      refused exactly when the target is a directory or lies below a file. */
  lemma OpenForWriteKeeps(t: Tree, p: Path)
    requires WellFormed(t) && AllPlain(p)
    ensures OpenForWrite(t, p).Ok? <==> !IsDir(t, p) && !Blocked(t, p)
    ensures OpenForWrite(t, p).Ok? ==> Opened(t, p, OpenForWrite(t, p).value)
  {
    if p == [] {
      if OpenForWrite(t, p).Ok? { CreateKeeps(t, p); }
    } else {
      var d := Parent(p);
      ParentBlocked(t, p);
      if MkdirAll(t, d).Ok? {
        var t1 := MkdirAll(t, d).value;
        MkdirAllKeeps(t, d);
        assert !IsPrefix(p, d);
        assert IsDir(t1, p) <==> IsDir(t, p);
        if Create(t1, p).Ok? { CreateKeeps(t1, p); }
      }
    }
  }

  ghost predicate Opened(t: Tree, p: Path, t1: Tree) {
    && WellFormed(t1) && IsFile(t1, p) && t1[p].bytes == []
    && (forall q :: q != p ==> (IsFile(t1, q) <==> IsFile(t, q)))
    && (forall q :: q in t && q != p ==> q in t1 && t1[q] == t[q])
  }

  lemma ParentBlocked(t: Tree, p: Path)
    requires p != []
    ensures MkdirAll(t, Parent(p)).Ok? <==> !Blocked(t, p)
  {
    var d := Parent(p);
    assert forall k :: 0 <= k < |d| ==> d[..k] == p[..k];
    assert d == p[..|d|];
  }

  lemma CreateKeeps(t: Tree, p: Path)
    requires WellFormed(t) && AllPlain(p) && Create(t, p).Ok? && (p != [] ==> IsDir(t, Parent(p)))
    ensures WellFormed(Create(t, p).value)
  {
  }

  // ---------------------------------------------------------------- what a listing means

  /** The logical path of the node `cs + rel` when the listing was asked for under `path`. */
  function Logical(path: string, rel: Path): string {
    TrimEnd(path) + Abs(rel)
  }

  function Size(n: Node): nat {
    if n.File? then |n.bytes| else 0
  }

  /** p lies strictly below cs. */
  predicate Under(cs: Path, p: Path) {
    IsPrefix(cs, p) && p != cs
  }

  function EntryAt(t: Tree, path: string, cs: Path, p: Path): Entry
    requires p in t && |cs| <= |p|
  {
    Entry(Logical(path, p[|cs|..]), t[p].Directory?, Size(t[p]))
  }

  /** The recursive listing: every file below the directory, and no directory. */
  ghost function DeepEntries(t: Tree, path: string, cs: Path): set<Entry> {
    set p | p in t && Under(cs, p) && t[p].File? :: EntryAt(t, path, cs, p)
  }

  /** The hierarchical listing: the immediate children, files and directories. */
  ghost function ChildEntries(t: Tree, path: string, cs: Path): set<Entry> {
    set p | p in t && p != [] && Parent(p) == cs :: EntryAt(t, path, cs, p)
  }

  lemma ChildIsUnder(cs: Path, p: Path)
    requires p != [] && Parent(p) == cs
    ensures Under(cs, p) && p == cs + [p[|cs|]] && p[|cs|..] == [p[|cs|]]
  {
  }

  /** Different nodes below one directory have different logical paths. */
  lemma LogicalInjective(path: string, cs: Path, p: Path, q: Path)
    requires AllPlain(p) && AllPlain(q) && IsPrefix(cs, p) && IsPrefix(cs, q)
    requires Logical(path, p[|cs|..]) == Logical(path, q[|cs|..])
    ensures p == q
  {
    var a, b := p[|cs|..], q[|cs|..];
    var base := TrimEnd(path);
    assert Abs(a) == (base + Abs(a))[|base|..];
    assert Abs(b) == (base + Abs(b))[|base|..];
    AbsInjective(a, b);
    assert p == cs + a && q == cs + b;
  }

  lemma AbsSnoc(rel: Path, n: string)
    ensures Abs(rel + [n]) == Below(Abs(rel), n)
  {
  }

  lemma ChildPath(path: string, rel: Path, q: string, n: string)
    requires TrimEnd(q) == Logical(path, rel) && Plain(n)
    ensures ChildLogical(q, n) == Logical(path, rel + [n])
    ensures TrimEnd(ChildLogical(q, n)) == ChildLogical(q, n)
  {
    var base := TrimEnd(path);
    AbsSnoc(rel, n);
    AppendAssoc(base, Abs(rel), "/");
    AppendAssoc(base, Abs(rel) + "/", n);
    NothingToTrim(Below(TrimEnd(q), n));
  }

  lemma NothingToTrim(s: string)
    requires s != "" && s[|s| - 1] != '/'
    ensures TrimEnd(s) == s
  {
  }
}
