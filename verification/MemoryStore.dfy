/** The in-memory store: flat maps from full paths, listed by scanning for a prefix. */
module MemoryStore {
  import opened Results
  import opened Sequences
  import opened ListingOrder
  import opened PathNames
  import opened Paging
  import opened FileTree
  import opened LocalStore

  type Files = map<string, seq<Byte>>

  /** The prefix a listing of `path` scans for. */
  function PrefixFor(path: string): string {
    if path != "" && path[|path| - 1] == '/' then path else path + "/"
  }

  /** k lies strictly inside the prefix. */
  predicate Inside(prefix: string, k: string) {
    IsPrefix(prefix, k) && k != prefix
  }

  function Rest(prefix: string, k: string): string
    requires Inside(prefix, k)
  {
    k[|prefix|..]
  }

  /** The entry a key gives rise to: itself, or in the hierarchical view of a deeper key the
      immediate subfolder it lies in. */
  function Contribution(files: Files, prefix: string, recursive: bool, k: string): Entry
    requires k in files && Inside(prefix, k)
  {
    var rest := Rest(prefix, k);
    var i := FirstSlash(rest);
    if recursive || i == |rest| then Entry(k, false, |files[k]|)
    else Entry(prefix + rest[..i], true, 0)
  }

  ghost function Scanned(files: Files, prefix: string, recursive: bool): set<Entry> {
    set k | k in files && Inside(prefix, k) :: Contribution(files, prefix, recursive, k)
  }

  /** The order of answered entries: by path, and of a directory and a file with the same path the kind
      that was collected first: `first` says whether that is the directory. */
  ghost predicate Before(a: Entry, b: Entry, first: bool) {
    Less(a.path, b.path) || (a.path == b.path && a.isDirectory == first && b.isDirectory != first)
  }

  ghost predicate Ordered(es: seq<Entry>, first: bool) {
    forall i, j :: 0 <= i < j < |es| ==> Before(es[i], es[j], first)
  }

  /** `full` lists exactly the entries of `all`, each once, in order. */
  ghost predicate ListsOnce(full: seq<Entry>, all: set<Entry>, first: bool) {
    Ordered(full, first) && Elements(full) == all
  }

  /** Collected so that of two entries with one path the kind that goes first came first. */
  ghost predicate KindFirst(es: seq<Entry>, first: bool) {
    forall i, j :: 0 <= i < j < |es| && es[i].path == es[j].path ==>
      es[i].isDirectory == first && es[j].isDirectory != first
  }

  lemma {:induction false} InsertOrders(e: Entry, es: seq<Entry>, first: bool)
    requires Ordered(es, first) && forall x <- es :: x.path == e.path ==>
      x.isDirectory == first && e.isDirectory != first
    ensures Ordered(Insert(e, es), first) && Elements(Insert(e, es)) == Elements(es) + {e}
  {
    if es == [] || !Less(e.path, es[|es| - 1].path) {
      forall i | 0 <= i < |es| ensures Before(es[i], e, first) {
        LastIsBefore(e, es, first, i);
      }
      OneMoreOrdered(es, e, first);
    } else {
      var init, last := es[..|es| - 1], es[|es| - 1];
      SplitLast(es, init, last);
      InsertOrders(e, init, first);
      forall x | x in Insert(e, init) ensures Before(x, last, first) {
        assert x in Elements(init) + {e};
      }
      ElementsOfAppend(init, last);
      OneMoreOrdered(Insert(e, init), last, first);
    }
  }

  lemma LastIsBefore(e: Entry, es: seq<Entry>, first: bool, i: nat)
    requires Ordered(es, first) && i < |es| && !Less(e.path, es[|es| - 1].path)
    requires forall x <- es :: x.path == e.path ==> x.isDirectory == first && e.isDirectory != first
    ensures Before(es[i], e, first)
  {
    var last := es[|es| - 1];
    assert es[i] in es;
    LessTotal(e.path, last.path);
    if i < |es| - 1 {
      assert Before(es[i], last, first);
      if Less(es[i].path, last.path) { LessMixed(es[i].path, last.path, e.path); }
    }
  }

  lemma OneMoreOrdered(es: seq<Entry>, last: Entry, first: bool)
    requires Ordered(es, first) && forall x <- es :: Before(x, last, first)
    ensures Ordered(es + [last], first) && Elements(es + [last]) == Elements(es) + {last}
  {
    forall i, j | 0 <= i < j < |es + [last]| ensures Before((es + [last])[i], (es + [last])[j], first) {
      if j == |es| { assert es[i] in es; }
    }
  }

  lemma KindBefore(es: seq<Entry>, x: Entry, first: bool)
    requires KindFirst(es, first) && es != [] && x in Elements(Sort(es[..|es| - 1])) && x.path == es[|es| - 1].path
    ensures x.isDirectory == first && es[|es| - 1].isDirectory != first
  {
    SortElements(es[..|es| - 1]);
    assert x in Elements(es[..|es| - 1]);
    var i :| 0 <= i < |es| - 1 && es[i] == x;
  }

  lemma ElementsOfAppend<T>(init: seq<T>, last: T)
    ensures Elements(init + [last]) == Elements(init) + {last}
  {
  }

  lemma {:induction false} SortOrders(es: seq<Entry>, first: bool)
    requires KindFirst(es, first)
    ensures ListsOnce(Sort(es), Elements(es), first)
  {
    if es != [] {
      var n := |es| - 1;
      var init, last := es[..n], es[n];
      SplitLast(es, init, last);
      SortOrders(init, first);
      var sorted := Sort(init);
      forall x | x in sorted && x.path == last.path ensures x.isDirectory == first && last.isDirectory != first {
        KindBefore(es, x, first);
      }
      InsertOrders(last, sorted, first);
      ElementsOfAppend(init, last);
    }
  }

  lemma BeforeOnce(a: Entry, b: Entry, first: bool)
    requires Before(a, b, first)
    ensures !Before(b, a, first) && a != b
  {
    LessIrreflexive(a.path);
    if Less(a.path, b.path) { LessAsymmetric(a.path, b.path); }
  }

  lemma OrderedTail(a: seq<Entry>, first: bool)
    requires Ordered(a, first) && a != []
    ensures Elements(a[1..]) == Elements(a) - {a[0]}
  {
    assert a == [a[0]] + a[1..];
    forall e | e in a[1..] ensures e != a[0] {
      var i :| 0 <= i < |a| - 1 && a[1..][i] == e;
      BeforeOnce(a[0], a[i + 1], first);
    }
  }

  lemma OrderedHead(a: seq<Entry>, first: bool, e: Entry)
    requires Ordered(a, first) && e in a
    ensures e == a[0] || Before(a[0], e, first)
  {
    var i :| 0 <= i < |a| && a[i] == e;
  }

  /** A listing in order is fixed by the set of its entries. */
  lemma {:induction false} OrderedUnique(a: seq<Entry>, b: seq<Entry>, first: bool)
    requires Ordered(a, first) && Ordered(b, first) && Elements(a) == Elements(b)
    ensures a == b
  {
    HasElements(a);
    HasElements(b);
    if a != [] {
      OrderedHead(a, first, b[0]);
      OrderedHead(b, first, a[0]);
      if a[0] != b[0] { BeforeOnce(a[0], b[0], first); }
      OrderedTail(a, first);
      OrderedTail(b, first);
      OrderedUnique(a[1..], b[1..], first);
      assert a == [a[0]] + a[1..] && b == [b[0]] + b[1..];
    }
  }

  /** Whether `candidate` is a direct child of `prefix`, a trailing slash not counting. */
  predicate IsDirectChild(prefix: string, candidate: string) {
    Inside(prefix, candidate) && '/' !in TrimEnd(Rest(prefix, candidate))
  }

  ghost function DirectoryEntries(files: Files, directories: set<string>, prefix: string): set<Entry> {
    (set d | d in directories && IsDirectChild(prefix, d) :: Entry(d, true, 0)) +
    (set k | k in files && IsDirectChild(prefix, k) :: Entry(k, false, |files[k]|))
  }

  class MemoryFileStore {
    var files: Files
    var directories: set<string>

    constructor ()
      ensures files == map[] && directories == {}
    {
      files, directories := map[], {};
    }

    method PutFile(path: string, contents: seq<Byte>) returns (r: StoreResult<nat>)
      modifies this`files
      ensures if path == "" then r == Err(InvalidArgument) && files == old(files)
              else r == Ok(|contents|) && files == old(files)[path := contents]
    {
      if path == "" { return Err(InvalidArgument); }
      files := files[path := contents];
      r := Ok(|contents|);
    }

    /** Collects the stream first, so a broken upload leaves the store as it was. */
    method PutFileStream(path: string, chunks: seq<Chunk>) returns (r: StoreResult<nat>)
      modifies this`files
      ensures !Intact(chunks) ==> r == Err(Internal) && files == old(files)
      ensures Intact(chunks) && path == "" ==> r == Err(InvalidArgument) && files == old(files)
      ensures Intact(chunks) && path != "" ==>
        r == Ok(|Joined(chunks)|) && files == old(files)[path := Joined(chunks)]
    {
      var i := 0;
      var contents: seq<Byte> := [];
      while i < |chunks|
        invariant 0 <= i <= |chunks| && files == old(files)
        invariant forall j :: 0 <= j < i ==> chunks[j].Data?
        invariant Joined(chunks) == contents + Joined(chunks[i..])
      {
        JoinedStep(chunks, i, contents);
        if chunks[i].Broken? { return Err(Internal); }
        contents := contents + chunks[i].bytes;
        i := i + 1;
      }
      assert chunks[i..] == [] && contents + [] == contents;
      r := PutFile(path, contents);
    }

    /** A start past the end is an error here, unlike in the local store. */
    method ReadFile(path: string, offset: Option<int>, length: Option<int>) returns (r: StoreResult<seq<Byte>>)
      ensures r == if path !in files then Err(NotFound)
                   else if offset.Some? && offset.value > |files[path]| then Err(InvalidArgument)
                   else Ok(Range(files[path], offset, length))
    {
      if path !in files { return Err(NotFound); }
      var bytes := files[path];
      var start := if offset.Some? && offset.value > 0 then offset.value else 0;
      if start > |bytes| { return Err(InvalidArgument); }
      var end := |bytes|;
      if length.Some? && length.value >= 0 && start + length.value < end { end := start + length.value; }
      assert bytes[start..] == bytes[start..|bytes|];
      r := Ok(bytes[start..end]);
    }

    method DeleteFile(path: string) returns (r: StoreResult<()>)
      modifies this`files
      ensures if path in old(files) then r == Ok(()) && files == map k | k in old(files) && k != path :: old(files)[k]
              else r == Err(NotFound) && files == old(files)
    {
      if path !in files { return Err(NotFound); }
      files := map k | k in files && k != path :: files[k];
      r := Ok(());
    }

    method CreateDirectory(path: string) returns (r: StoreResult<()>)
      modifies this`directories
      ensures if path == "" then r == Err(InvalidArgument) && directories == old(directories)
              else r == Ok(()) && directories == old(directories) + {path}
    {
      if path == "" { return Err(InvalidArgument); }
      directories := directories + {path};
      r := Ok(());
    }

    /** Only a recorded directory with nothing under its prefix goes. */
    method DeleteDirectory(path: string) returns (r: StoreResult<()>)
      modifies this`directories
      ensures var prefix := PrefixFor(path);
        if (exists k :: k in files && IsPrefix(prefix, k)) ||
           (exists d :: d in old(directories) && d != path && IsPrefix(prefix, d))
        then r == Err(FailedPrecondition) && directories == old(directories)
        else if path in old(directories) then r == Ok(()) && directories == old(directories) - {path}
        else r == Err(NotFound) && directories == old(directories)
    {
      var prefix := PrefixFor(path);
      if (exists k :: k in files && IsPrefix(prefix, k)) ||
         (exists d :: d in directories && d != path && IsPrefix(prefix, d))
      {
        return Err(FailedPrecondition);
      }
      if path !in directories { return Err(NotFound); }
      directories := directories - {path};
      r := Ok(());
    }

    method ListFilesOpts(path: string, opts: ListOpts) returns (r: seq<Entry>)
      ensures exists full ::
        ListsOnce(full, Scanned(files, PrefixFor(path), opts.recursive), false) &&
        r == Window(full, opts.startAfter, opts.maxResults)
    {
      var prefix := PrefixFor(path);
      var left := files.Keys;
      var entries: seq<Entry> := [];
      var seenDirs: set<string> := {};
      while left != {}
        invariant left <= files.Keys
        invariant forall k, l :: k in files.Keys - left && l in left ==> Less(k, l)
        invariant KindFirst(entries, false) && Collects(files, prefix, opts.recursive, files.Keys - left, entries)
        invariant forall d :: d in seenDirs <==> Entry(prefix + d, true, 0) in entries
        decreases left
      {
        var k := LeastKey(left);
        ghost var done := files.Keys - left;
        left := left - {k};
        assert files.Keys - left == done + {k};
        if IsPrefix(prefix, k) && k != prefix {
          var rest := k[|prefix|..];
          var i := FirstSlash(rest);
          if opts.recursive || i == |rest| {
            FileIsNew(files, prefix, opts.recursive, done, entries, k);
            entries := entries + [Entry(k, false, |files[k]|)];
          } else if rest[..i] !in seenDirs {
            FolderIsNew(files, prefix, opts.recursive, done, entries, k);
            forall d | prefix + d == prefix + rest[..i] ensures d == rest[..i] {
              AppendCancel(prefix, d, rest[..i]);
            }
            seenDirs := seenDirs + {rest[..i]};
            entries := entries + [Entry(prefix + rest[..i], true, 0)];
          }
        }
      }
      assert files.Keys - left == files.Keys;
      assert Elements(entries) == Scanned(files, prefix, opts.recursive);
      SortOrders(entries, false);
      r := Window(Sort(entries), opts.startAfter, opts.maxResults);
    }

    /** Directories are collected before files, so of the two with one path the directory comes first. */
    method ListDirectory(path: string, page: Page) returns (r: seq<Entry>, next: Option<string>)
      ensures exists full ::
        ListsOnce(full, DirectoryEntries(files, directories, PrefixFor(path)), true) && (r, next) == PageOf(full, page)
    {
      var prefix := PrefixFor(path);
      var entries: seq<Entry> := [];
      var dirs := directories;
      while dirs != {}
        invariant dirs <= directories
        invariant Elements(entries) == DirectoryEntries(map[], directories - dirs, prefix)
        invariant KindFirst(entries, true)
        decreases dirs
      {
        var d := LeastKey(dirs);
        dirs := dirs - {d};
        if IsDirectChild(prefix, d) {
          NewDirectory(entries, d, map[], directories - dirs - {d}, prefix);
          entries := entries + [Entry(d, true, 0)];
        }
      }
      assert directories - dirs == directories;
      var left := files.Keys;
      while left != {}
        invariant left <= files.Keys
        invariant Elements(entries) == DirectoryEntries(Taken(files, left), directories, prefix)
        invariant KindFirst(entries, true)
        decreases left
      {
        var k := LeastKey(left);
        if IsDirectChild(prefix, k) {
          NewFile(entries, k, files, left, directories, prefix);
          entries := entries + [Entry(k, false, |files[k]|)];
        }
        left := left - {k};
      }
      assert Taken(files, left) == files;
      SortOrders(entries, true);
      r, next := Paginate(Sort(entries), page);
    }
  }

  /** The files whose keys have been taken already. */
  ghost function Taken(files: Files, left: set<string>): Files {
    map k | k in files && k !in left :: files[k]
  }

  lemma NewDirectory(entries: seq<Entry>, d: string, none: Files, before: set<string>, prefix: string)
    requires none == map[] && d !in before && KindFirst(entries, true)
    requires Elements(entries) == DirectoryEntries(none, before, prefix)
    ensures KindFirst(entries + [Entry(d, true, 0)], true)
  {
    forall x | x in entries ensures x.path != d {
      assert x in Elements(entries);
    }
  }

  lemma NewFile(entries: seq<Entry>, k: string, files: Files, left: set<string>, directories: set<string>,
                prefix: string)
    requires k in files && k in left && KindFirst(entries, true)
    requires Elements(entries) == DirectoryEntries(Taken(files, left), directories, prefix)
    ensures KindFirst(entries + [Entry(k, false, |files[k]|)], true)
  {
    forall x | x in entries && x.path == k ensures x.isDirectory {
      assert x in Elements(entries);
    }
  }

  /** The first key in map order. */
  method LeastKey(keys: set<string>) returns (least: string)
    requires keys != {}
    ensures least in keys && forall k :: k in keys && k != least ==> Less(least, k)
  {
    least :| least in keys;
    var left := keys - {least};
    while left != {}
      invariant left <= keys && least in keys && least !in left
      invariant forall k :: k in keys - left && k != least ==> Less(least, k)
      decreases left
    {
      var k :| k in left;
      left := left - {k};
      LessTotal(k, least);
      if Less(k, least) {
        forall l | l in keys - left && l != k ensures Less(k, l) {
          if l != least { LessTransitive(k, least, l); }
        }
        least := k;
      }
    }
  }

  lemma SlashlessPrefix(prefix: string, k: string, l: string)
    requires Inside(prefix, k) && Inside(prefix, l)
    requires FirstSlash(Rest(prefix, k)) < |Rest(prefix, k)|
    requires prefix + Rest(prefix, k)[..FirstSlash(Rest(prefix, k))] == l
    ensures IsPrefix(l, k) && l != k
  {
  }

  lemma {:induction false} PrefixIsLess(a: string, b: string)
    requires IsPrefix(a, b) && a != b
    ensures Less(a, b)
  {
    if a != [] {
      assert b[0] == b[..|a|][0];
      assert b[1..][..|a| - 1] == b[..|a|][1..];
      PrefixIsLess(a[1..], b[1..]);
    }
  }

  /** A file's entry shares its path with no entry of the smaller keys. */
  lemma FileIsNew(files: Files, prefix: string, recursive: bool, done: set<string>, entries: seq<Entry>, k: string)
    requires k in files && Inside(prefix, k) && Collects(files, prefix, recursive, done, entries)
    requires forall l :: l in done ==> Less(l, k)
    requires Contribution(files, prefix, recursive, k) == Entry(k, false, |files[k]|)
    ensures forall e :: e in entries ==> e.path != k
  {
    forall e | e in entries ensures e.path != k {
      var l :| l in done && Inside(prefix, l) && Contribution(files, prefix, recursive, l) == e;
      LessIrreflexive(k);
      if e.path == k && e.isDirectory {
        SlashlessPrefix(prefix, l, k);
        PrefixIsLess(k, l);
        LessAsymmetric(k, l);
      }
    }
  }

  /** A subfolder seen for the first time can share its path only with a file. */
  lemma FolderIsNew(files: Files, prefix: string, recursive: bool, done: set<string>, entries: seq<Entry>, k: string)
    requires k in files && Inside(prefix, k) && Collects(files, prefix, recursive, done, entries)
    requires Contribution(files, prefix, recursive, k).isDirectory
    requires Contribution(files, prefix, recursive, k) !in entries
    ensures forall e :: e in entries && e.path == Contribution(files, prefix, recursive, k).path ==> !e.isDirectory
  {
  }

  /** The entries of the keys in `keys`, each key inside the prefix giving its contribution. */
  ghost predicate Collects(files: Files, prefix: string, recursive: bool, keys: set<string>, entries: seq<Entry>) {
    && keys <= files.Keys
    && (forall k :: k in keys && Inside(prefix, k) ==> Contribution(files, prefix, recursive, k) in entries)
    && (forall e :: e in entries ==>
          exists k :: k in keys && Inside(prefix, k) && Contribution(files, prefix, recursive, k) == e)
  }
}
