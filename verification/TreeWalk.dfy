/** The bookkeeping of the stack-driven walk: which directories have been read, which wait on the
    stack, and which files have been collected. */
module TreeWalk {
  import opened Results
  import opened Sequences
  import opened ListingOrder
  import opened PathNames
  import opened FileTree

  ghost predicate NoRepeats<T>(s: seq<T>) {
    forall i, j :: 0 <= i < j < |s| ==> s[i] != s[j]
  }

  ghost function ChildrenOf(t: Tree, d: Path): set<Path> {
    set p | p in t && p != [] && Parent(p) == d
  }

  ghost function DirsAmong(t: Tree, ps: seq<Path>): (r: seq<Path>) {
    if ps == [] then []
    else DirsAmong(t, ps[..|ps| - 1]) + if IsDir(t, ps[|ps| - 1]) then [ps[|ps| - 1]] else []
  }

  ghost function FilesAmong(t: Tree, ps: seq<Path>): (r: seq<Path>) {
    if ps == [] then []
    else FilesAmong(t, ps[..|ps| - 1]) + if IsFile(t, ps[|ps| - 1]) then [ps[|ps| - 1]] else []
  }

  lemma {:induction false} AmongElements(t: Tree, ps: seq<Path>)
    requires NoRepeats(ps)
    ensures NoRepeats(DirsAmong(t, ps)) && NoRepeats(FilesAmong(t, ps))
    ensures forall p :: p in DirsAmong(t, ps) <==> p in ps && IsDir(t, p)
    ensures forall p :: p in FilesAmong(t, ps) <==> p in ps && IsFile(t, p)
  {
    if ps != [] {
      var init, last := ps[..|ps| - 1], ps[|ps| - 1];
      AmongElements(t, init);
      SplitLast(ps, init, last);
      assert last !in init;
    }
  }

  /** read: directories whose children were read; stack: directories waiting; found: files. Every
      directory reached is in one of the two, no directory is reached twice, and the files found are
      exactly the children of directories read. */
  ghost predicate Walking(t: Tree, cs: Path, read: set<Path>, stack: seq<Path>, found: seq<Path>) {
    && NoRepeats(stack) && NoRepeats(found)
    && (forall d :: d in stack ==> d !in read)
    && (cs in read || cs in stack)
    && (forall d :: d in read || d in stack ==>
      IsPrefix(cs, d) && (d == cs || (d != [] && IsDir(t, d) && Parent(d) in read)))
    && (forall q :: q in t && q != [] && IsDir(t, q) && Parent(q) in read ==> q in read || q in stack)
    && (forall f :: f in found <==> IsFile(t, f) && f != [] && Parent(f) in read)
  }

  lemma WalkStarts(t: Tree, cs: Path)
    ensures Walking(t, cs, {}, [cs], [])
  {
  }

  /** Reading the directory on top of the stack keeps the bookkeeping. */
  lemma WalkStep(t: Tree, cs: Path, read: set<Path>, stack: seq<Path>, found: seq<Path>, d: Path, kids: seq<Path>)
    requires Walking(t, cs, read, stack + [d], found)
    requires NoRepeats(kids) && Elements(kids) == ChildrenOf(t, d)
    ensures Walking(t, cs, read + {d}, stack + DirsAmong(t, kids), found + FilesAmong(t, kids))
  {
    AmongElements(t, kids);
    assert d in stack + [d] && d !in read;
    forall p | p in kids ensures p in t && p != [] && Parent(p) == d && p != d && p !in read && p !in stack {
      assert p in Elements(kids);
      assert |Parent(p)| < |p|;
      PrefixNotLonger(cs, d);
      assert p in stack ==> p in stack + [d];
    }
    LastIsNew(stack, d);
    var read1, stack1 := read + {d}, stack + DirsAmong(t, kids);
    forall q | q in t && q != [] && IsDir(t, q) && Parent(q) in read1
      ensures q in read1 || q in stack1
    {
      if Parent(q) == d {
        assert q in Elements(kids);
      } else {
        assert q in read || q in stack + [d];
      }
    }
    forall f ensures f in found + FilesAmong(t, kids) <==> IsFile(t, f) && f != [] && Parent(f) in read1 {
      if IsFile(t, f) && f != [] && Parent(f) == d { assert f in Elements(kids); }
    }
    forall e | e in read1 || e in stack1
      ensures IsPrefix(cs, e) && (e == cs || (e != [] && IsDir(t, e) && Parent(e) in read1))
    {
      if e in DirsAmong(t, kids) {
        PrefixOfChild(cs, d, e);
      } else {
        assert e in read || e in stack + [d];
      }
    }
    NoRepeatsAppend(stack, DirsAmong(t, kids));
    forall f | f in FilesAmong(t, kids) ensures f !in found { assert Parent(f) == d; }
    NoRepeatsAppend(found, FilesAmong(t, kids));
  }

  lemma PrefixNotLonger(cs: Path, d: Path)
    ensures IsPrefix(cs, d) ==> |cs| <= |d|
  {
  }

  lemma PrefixOfChild(cs: Path, d: Path, e: Path)
    requires IsPrefix(cs, d) && e != [] && Parent(e) == d
    ensures IsPrefix(cs, e)
  {
  }

  lemma NoRepeatsAppend<T>(a: seq<T>, b: seq<T>)
    requires NoRepeats(a) && NoRepeats(b) && forall x :: x in b ==> x !in a
    ensures NoRepeats(a + b)
  {
    forall i, j | 0 <= i < j < |a + b| ensures (a + b)[i] != (a + b)[j] {
      if i < |a| <= j { assert b[j - |a|] in b; }
    }
  }

  lemma LastIsNew<T>(a: seq<T>, x: T)
    requires NoRepeats(a + [x])
    ensures NoRepeats(a) && x !in a
  {
    forall i | 0 <= i < |a| ensures a[i] != x {
      assert (a + [x])[i] != (a + [x])[|a|];
    }
    forall i, j | 0 <= i < j < |a| ensures a[i] != a[j] {
      assert (a + [x])[i] != (a + [x])[j];
    }
  }

  /** Once the stack is empty, every file below the start has been found. */
  lemma WalkEnds(t: Tree, cs: Path, read: set<Path>, found: seq<Path>)
    requires WellFormed(t) && Walking(t, cs, read, [], found)
    ensures forall f :: f in found <==> IsFile(t, f) && Under(cs, f)
  {
    forall f ensures f in found <==> IsFile(t, f) && Under(cs, f) {
      if f in found { FoundIsUnder(t, cs, read, found, f); }
      if IsFile(t, f) && Under(cs, f) { UnderIsFound(t, cs, read, found, f); }
    }
  }

  lemma FoundIsUnder(t: Tree, cs: Path, read: set<Path>, found: seq<Path>, f: Path)
    requires Walking(t, cs, read, [], found) && f in found
    ensures IsFile(t, f) && Under(cs, f)
  {
  }

  lemma UnderIsFound(t: Tree, cs: Path, read: set<Path>, found: seq<Path>, f: Path)
    requires WellFormed(t) && Walking(t, cs, read, [], found) && IsFile(t, f) && Under(cs, f)
    ensures f in found
  {
    AncestorRead(t, cs, read, found, f, |f| - 1);
  }

  lemma {:induction false} AncestorRead(t: Tree, cs: Path, read: set<Path>, found: seq<Path>, f: Path, k: nat)
    requires WellFormed(t) && Walking(t, cs, read, [], found)
    requires f in t && IsPrefix(cs, f) && |cs| <= k < |f|
    ensures f[..k] in read
    decreases k
  {
    if k == |cs| {
      assert cs in read;
    } else {
      var e := f[..k];
      AncestorRead(t, cs, read, found, f, k - 1);
      AncestorsAreDirs(t, f, k);
      assert Parent(e) == f[..k - 1];
      assert IsDir(t, e) && e != [] && Parent(e) in read;
    }
  }

  // ---------------------------------------------------------------- entries of nodes

  /** Entry i of `es` is the entry of node ps[i]. */
  ghost predicate Describes(t: Tree, path: string, cs: Path, ps: seq<Path>, es: seq<Entry>) {
    |ps| == |es| &&
    forall i :: 0 <= i < |ps| ==>
      ps[i] in t && Under(cs, ps[i]) && es[i] == EntryAt(t, path, cs, ps[i])
  }

  lemma DescribedPathsDistinct(t: Tree, path: string, cs: Path, ps: seq<Path>, es: seq<Entry>)
    requires WellFormed(t) && Describes(t, path, cs, ps, es) && NoRepeats(ps)
    ensures DistinctPaths(es)
  {
    forall i, j | 0 <= i < j < |es| ensures es[i].path != es[j].path {
      if es[i].path == es[j].path { LogicalInjective(path, cs, ps[i], ps[j]); }
    }
  }

  lemma ChildEntryPath(path: string, dir: Path, p: Path)
    requires p != [] && Parent(p) == dir
    ensures Under(dir, p) && ChildLogical(path, p[|p| - 1]) == Logical(path, p[|dir|..])
  {
    var name := p[|p| - 1];
    ChildIsUnder(dir, p);
    AbsSnoc([], name);
    assert [] + [name] == [name];
    var base := TrimEnd(path);
    assert Below(base, name) == base + Below("", name);
  }

  /** A logical path on the walk's stack stands for a directory below the start. */
  ghost predicate StandsFor(t: Tree, path: string, cs: Path, q: string, d: Path)
  {
    && IsPrefix(cs, d) && (d == cs || IsDir(t, d))
    && Resolve(q) == Ok(d) && TrimEnd(q) == Logical(path, d[|cs|..])
  }

  ghost function Standing(t: Tree, path: string, cs: Path): (string, Path) -> bool {
    (q, d) => StandsFor(t, path, cs, q, d)
  }

  ghost predicate Tracks(t: Tree, path: string, cs: Path, stack: seq<string>, dirs: seq<Path>)
  {
    Pairwise(Standing(t, path, cs), stack, dirs)
  }

  /** The nodes behind a child listing, as entries of the listing that was asked for. */
  lemma NodesOf(t: Tree, path: string, cs: Path, q: string, d: Path, es: seq<Entry>) returns (kids: seq<Path>)
    requires WellFormed(t) && StandsFor(t, path, cs, q, d) && Lists(es, ChildEntries(t, q, d))
    ensures NoRepeats(kids) && Elements(kids) == ChildrenOf(t, d)
    ensures Describes(t, path, cs, kids, es) && DirsStand(t, Standing(t, path, cs), kids, es)
  {
    kids := PickNodes(t, q, d, es);
    BehindAll(t, q, d, kids, es);
    forall i | 0 <= i < |kids|
      ensures Under(cs, kids[i]) && es[i] == EntryAt(t, path, cs, kids[i])
      ensures IsDir(t, kids[i]) ==> StandsFor(t, path, cs, es[i].path, kids[i])
    {
      Rebase(t, path, cs, q, d, kids[i], es[i]);
    }
  }

  ghost predicate DirsStand(t: Tree, stands: (string, Path) -> bool, kids: seq<Path>, es: seq<Entry>) {
    |kids| == |es| && forall i :: 0 <= i < |kids| && IsDir(t, kids[i]) ==> stands(es[i].path, kids[i])
  }

  /** The entries say of each node whether it is a directory. */
  ghost predicate KindsAgree(t: Tree, kids: seq<Path>, es: seq<Entry>) {
    |kids| == |es| && forall i :: 0 <= i < |kids| ==> kids[i] in t && es[i].isDirectory == t[kids[i]].Directory?
  }

  lemma PickNodes(t: Tree, q: string, d: Path, es: seq<Entry>) returns (kids: seq<Path>)
    requires Elements(es) == ChildEntries(t, q, d)
    ensures Behind(t, q, d, kids, es)
  {
    kids := [];
    while |kids| < |es|
      invariant |kids| <= |es|
      invariant Behind(t, q, d, kids, es[..|kids|])
    {
      var e := es[|kids|];
      assert e in Elements(es);
      var p :| p in t && p != [] && Parent(p) == d && e == EntryAt(t, q, d, p);
      kids := kids + [p];
    }
    assert es[..|kids|] == es;
  }

  ghost predicate Behind(t: Tree, q: string, d: Path, kids: seq<Path>, es: seq<Entry>) {
    |kids| == |es| &&
    forall i :: 0 <= i < |kids| ==> kids[i] in ChildrenOf(t, d) && es[i] == EntryAt(t, q, d, kids[i])
  }

  lemma BehindAll(t: Tree, q: string, d: Path, kids: seq<Path>, es: seq<Entry>)
    requires WellFormed(t) && Behind(t, q, d, kids, es) && Lists(es, ChildEntries(t, q, d))
    ensures NoRepeats(kids) && Elements(kids) == ChildrenOf(t, d)
  {
    forall i, j | 0 <= i < j < |kids| ensures kids[i] != kids[j] {
      LessAsymmetric(es[i].path, es[j].path);
    }
    forall p | p in ChildrenOf(t, d) ensures p in kids {
      var e := EntryAt(t, q, d, p);
      assert e in ChildEntries(t, q, d);
      assert e in es;
      var i :| 0 <= i < |es| && es[i] == e;
      ChildIsUnder(d, p);
      ChildIsUnder(d, kids[i]);
      LogicalInjective(q, d, p, kids[i]);
    }
  }

  /** Listing a subdirectory under its own logical path names its children as the walk does. */
  lemma Rebase(t: Tree, path: string, cs: Path, q: string, d: Path, p: Path, e: Entry)
    requires WellFormed(t) && StandsFor(t, path, cs, q, d)
    requires p in ChildrenOf(t, d) && e == EntryAt(t, q, d, p)
    ensures Under(cs, p) && e == EntryAt(t, path, cs, p)
    ensures IsDir(t, p) ==> StandsFor(t, path, cs, e.path, p)
  {
    var name, rel := p[|p| - 1], d[|cs|..];
    assert Plain(name);
    SplitLast(p, d, name);
    ChildEntryPath(q, d, p);
    ChildPath(path, rel, q, name);
    RelOfChild(cs, d, p, name);
    PrefixOfChild(cs, d, p);
    ResolveChild(q, name);
  }

  lemma RelOfChild(cs: Path, d: Path, p: Path, name: string)
    requires IsPrefix(cs, d) && p == d + [name]
    ensures p[|cs|..] == d[|cs|..] + [name]
  {
  }

  lemma ChildrenDescribed(t: Tree, path: string, dir: Path, children: seq<Path>, entries: seq<Entry>)
    requires WellFormed(t) && NoRepeats(children) && Describes(t, path, dir, children, entries)
    requires Elements(children) == ChildrenOf(t, dir)
    ensures Lists(Sort(entries), ChildEntries(t, path, dir))
  {
    DescribedPathsDistinct(t, path, dir, children, entries);
    SortAscends(entries);
    forall e ensures e in Elements(entries) <==> e in ChildEntries(t, path, dir) {
      if e in ChildEntries(t, path, dir) {
        var p :| p in t && p != [] && Parent(p) == dir && e == EntryAt(t, path, dir, p);
        assert p in Elements(children);
        var i :| 0 <= i < |children| && children[i] == p;
        assert entries[i] == e;
      }
      if e in entries {
        var i :| 0 <= i < |entries| && entries[i] == e;
        assert children[i] in Elements(children);
      }
    }
  }

  // ---------------------------------------------------------------- one round of the walk

  /** The walk's bookkeeping: directories read, directories behind the stack, files behind the output. */
  datatype Progress = Progress(read: set<Path>, dirs: seq<Path>, found: seq<Path>)

  ghost predicate Walked(t: Tree, path: string, cs: Path, w: Progress, stack: seq<string>, out: seq<Entry>) {
    && Tracks(t, path, cs, stack, w.dirs)
    && Describes(t, path, cs, w.found, out)
    && Walking(t, cs, w.read, w.dirs, w.found)
  }

  /** What one directory's entries add to the stack and to the output. */
  function DirPaths(es: seq<Entry>): seq<string> {
    if es == [] then []
    else
      var last := es[|es| - 1];
      DirPaths(es[..|es| - 1]) + if last.isDirectory then [last.path] else []
  }

  function FileEntries(es: seq<Entry>): seq<Entry> {
    if es == [] then []
    else
      var last := es[|es| - 1];
      FileEntries(es[..|es| - 1]) + if last.isDirectory then [] else [last]
  }

  lemma OneMoreSifted(es: seq<Entry>, i: nat)
    requires i < |es|
    ensures DirPaths(es[..i + 1]) == DirPaths(es[..i]) + if es[i].isDirectory then [es[i].path] else []
    ensures FileEntries(es[..i + 1]) == FileEntries(es[..i]) + if es[i].isDirectory then [] else [es[i]]
  {
    assert es[..i + 1][..i] == es[..i];
  }

  /** The paths put on the stack stand for the directories among the nodes, whatever standing means. */
  lemma {:induction false} DirsSifted(t: Tree, stands: (string, Path) -> bool, kids: seq<Path>, es: seq<Entry>)
    requires KindsAgree(t, kids, es) && DirsStand(t, stands, kids, es)
    ensures Pairwise(stands, DirPaths(es), DirsAmong(t, kids))
  {
    if es != [] {
      var n := |es| - 1;
      var init, last, kid := es[..n], es[n], kids[n];
      var before := kids[..n];
      DirsSifted(t, stands, before, init);
      if IsDir(t, kid) {
        PairwiseAppend(stands, DirPaths(init), DirsAmong(t, before), [last.path], [kid]);
      } else {
        AppendNone(DirsAmong(t, before));
        AppendNone(DirPaths(init));
      }
    }
  }

  lemma {:induction false} FilesSifted(t: Tree, path: string, cs: Path, kids: seq<Path>, es: seq<Entry>)
    requires Describes(t, path, cs, kids, es)
    ensures KindsAgree(t, kids, es) && Describes(t, path, cs, FilesAmong(t, kids), FileEntries(es))
  {
    if es != [] {
      var n := |es| - 1;
      var init, last, kid := es[..n], es[n], kids[n];
      var before := kids[..n];
      assert Describes(t, path, cs, before, init);
      FilesSifted(t, path, cs, before, init);
      if IsDir(t, kid) {
        AppendNone(FilesAmong(t, before));
        AppendNone(FileEntries(init));
      } else {
        Collected(t, path, cs, FilesAmong(t, before), FileEntries(init), [kid], [last]);
      }
    }
  }

  /** The directory on top of the stack. */
  lemma Top(t: Tree, path: string, cs: Path, w: Progress, stack: seq<string>, out: seq<Entry>)
    requires Walked(t, path, cs, w, stack, out) && stack != []
    ensures |w.dirs| == |stack|
    ensures var d := w.dirs[|w.dirs| - 1];
      Resolve(stack[|stack| - 1]) == Ok(d) && d !in w.read && (d == cs || IsDir(t, d))
  {
    PairwiseInit(Standing(t, path, cs), stack, w.dirs);
    assert w.dirs[|stack| - 1] in w.dirs;
  }

  /** One round: the top directory's children are read and sorted. */
  lemma Round(t: Tree, path: string, cs: Path, w: Progress, stack: seq<string>, out: seq<Entry>,
              es: seq<Entry>) returns (next: Progress)
    requires WellFormed(t) && Walked(t, path, cs, w, stack, out) && stack != [] && |w.dirs| == |stack|
    requires Lists(es, ChildEntries(t, stack[|stack| - 1], w.dirs[|w.dirs| - 1]))
    ensures Walked(t, path, cs, next, stack[..|stack| - 1] + DirPaths(es), out + FileEntries(es))
    ensures next.read == w.read + {w.dirs[|w.dirs| - 1]}
  {
    var rest, q := stack[..|stack| - 1], stack[|stack| - 1];
    var dirs, d := w.dirs[..|w.dirs| - 1], w.dirs[|w.dirs| - 1];
    SplitLast(w.dirs, dirs, d);
    PairwiseInit(Standing(t, path, cs), stack, w.dirs);
    var kids := NodesOf(t, path, cs, q, d, es);
    FilesSifted(t, path, cs, kids, es);
    DirsSifted(t, Standing(t, path, cs), kids, es);
    WalkStep(t, cs, w.read, dirs, w.found, d, kids);
    next := Progress(w.read + {d}, dirs + DirsAmong(t, kids), w.found + FilesAmong(t, kids));
    PairwiseAppend(Standing(t, path, cs), rest, dirs, DirPaths(es), DirsAmong(t, kids));
    Collected(t, path, cs, w.found, out, FilesAmong(t, kids), FileEntries(es));
  }

  lemma Collected(t: Tree, path: string, cs: Path, p: seq<Path>, a: seq<Entry>, q: seq<Path>, b: seq<Entry>)
    requires Describes(t, path, cs, p, a) && Describes(t, path, cs, q, b)
    ensures Describes(t, path, cs, p + q, a + b)
  {
  }

  lemma WalkOpens(t: Tree, path: string, cs: Path) returns (w: Progress)
    requires Resolve(path) == Ok(cs)
    ensures w.read == {} && Walked(t, path, cs, w, [path], [])
  {
    w := Progress({}, [cs], []);
    WalkStarts(t, cs);
    assert cs[|cs|..] == [] && Logical(path, []) == TrimEnd(path);
  }

  lemma WalkedAll(t: Tree, path: string, cs: Path, w: Progress, out: seq<Entry>)
    requires WellFormed(t) && Walked(t, path, cs, w, [], out)
    ensures DistinctPaths(out) && Elements(out) == DeepEntries(t, path, cs)
  {
    WalkEnds(t, cs, w.read, w.found);
    DescribedPathsDistinct(t, path, cs, w.found, out);
    forall e ensures e in out <==> e in DeepEntries(t, path, cs) {
      if e in DeepEntries(t, path, cs) {
        var p :| p in t && Under(cs, p) && t[p].File? && e == EntryAt(t, path, cs, p);
        assert p in w.found;
        var i :| 0 <= i < |w.found| && w.found[i] == p;
        assert out[i] == e;
      }
      if e in out {
        var i :| 0 <= i < |out| && out[i] == e;
        assert w.found[i] in w.found;
      }
    }
  }
}
