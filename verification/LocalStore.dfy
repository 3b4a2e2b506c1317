/** The local "home" store: file operations on the directory tree, and its two listings. */
module LocalStore {
  import opened Results
  import opened Sequences
  import opened ListingOrder
  import opened PathNames
  import opened FileTree
  import opened TreeWalk
  import opened Paging

  /** One chunk of an upload stream, or the failed item that aborts it. */
  datatype Chunk = Data(bytes: seq<Byte>) | Broken

  function Joined(chunks: seq<Chunk>): (r: seq<Byte>) {
    if chunks == [] || chunks[0].Broken? then [] else chunks[0].bytes + Joined(chunks[1..])
  }

  ghost predicate Intact(chunks: seq<Chunk>) {
    forall i :: 0 <= i < |chunks| ==> chunks[i].Data?
  }

  /** What a ranged read of a file gives: negative offsets count as 0, a negative or missing length
      reads to the end. */
  function Range(bytes: seq<Byte>, offset: Option<int>, length: Option<int>): (r: seq<Byte>)
  {
    var start := if offset.Some? && offset.value > 0 then offset.value else 0;
    if start > |bytes| then []
    else if length.Some? && 0 <= length.value < |bytes| - start then bytes[start..start + length.value]
    else bytes[start..]
  }

  /** Whether a place can be listed: a directory, or nothing at all where a directory could be. */
  ghost predicate CanList(t: Tree, dir: Path) {
    !IsFile(t, dir) && (dir in t || Absent(t, dir) == NotFound)
  }

  /** The entries a listing of a place is taken from. */
  ghost function EntriesToList(t: Tree, path: string, dir: Path, recursive: bool): set<Entry> {
    if recursive then DeepEntries(t, path, dir) else ChildEntries(t, path, dir)
  }

  class LocalFileStore {
    var tree: Tree

    ghost predicate Valid()
      reads this
    {
      WellFormed(tree)
    }

    constructor ()
      ensures Valid() && tree == map[[] := Directory]
    {
      tree := map[[] := Directory];
    }

    /** Writes the chunks to the freshly created file at p, up to the first broken one. */
    method AppendChunks(p: Path, t: Tree, chunks: seq<Chunk>) returns (ok: bool, written: nat)
      requires tree == t && IsFile(t, p) && t[p].bytes == []
      modifies this
      ensures tree == t[p := File(Joined(chunks))]
      ensures ok == Intact(chunks) && (ok ==> written == |Joined(chunks)|)
    {
      var i := 0;
      var content: seq<Byte> := [];
      while i < |chunks|
        invariant 0 <= i <= |chunks|
        invariant tree == t[p := File(content)]
        invariant forall j :: 0 <= j < i ==> chunks[j].Data?
        invariant Joined(chunks) == content + Joined(chunks[i..])
      {
        JoinedStep(chunks, i, content);
        if chunks[i].Broken? { return false, |content|; }
        content := content + chunks[i].bytes;
        tree := t[p := File(content)];
        i := i + 1;
      }
      assert chunks[i..] == [] && content + [] == content;
      return true, |content|;
    }

    /** Streams an upload into the file at p. A broken chunk aborts the upload and leaves what had
        arrived before it. */
    method WriteChunks(p: Path, chunks: seq<Chunk>) returns (r: StoreResult<nat>)
      requires Valid() && AllPlain(p)
      modifies this
      ensures Valid()
      ensures OpenForWrite(old(tree), p).Err? ==>
        r == Err(OpenForWrite(old(tree), p).error) && tree == old(tree)
      ensures OpenForWrite(old(tree), p).Ok? ==>
        && tree == OpenForWrite(old(tree), p).value[p := File(Joined(chunks))]
        && r == if Intact(chunks) then Ok(|Joined(chunks)|) else Err(Internal)
    {
      OpenForWriteKeeps(tree, p);
      var created := OpenForWrite(tree, p);
      if created.Err? { return Err(created.error); }
      tree := created.value;
      var ok, written := AppendChunks(p, created.value, chunks);
      RewriteKeeps(created.value, p, Joined(chunks));
      r := if ok then Ok(written) else Err(Internal);
    }

    method PutFileStream(path: string, chunks: seq<Chunk>) returns (r: StoreResult<nat>)
      requires Valid()
      modifies this
      ensures Valid()
      ensures match Resolve(path)
              case Err(e) => r == Err(e) && tree == old(tree)
              case Ok(p) =>
                match OpenForWrite(old(tree), p)
                case Err(e) => r == Err(e) && tree == old(tree)
                case Ok(t) => tree == t[p := File(Joined(chunks))] &&
                              r == if Intact(chunks) then Ok(|Joined(chunks)|) else Err(Internal)
    {
      var target := Resolve(path);
      if target.Err? { return Err(target.error); }
      r := WriteChunks(target.value, chunks);
    }

    method PutFile(path: string, contents: seq<Byte>) returns (r: StoreResult<nat>)
      requires Valid()
      modifies this
      ensures Valid()
      ensures match Resolve(path)
              case Err(e) => r == Err(e) && tree == old(tree)
              case Ok(p) =>
                match Write(old(tree), p, contents)
                case Err(e) => r == Err(e) && tree == old(tree)
                case Ok(t) => r == Ok(|contents|) && tree == t
    {
      ghost var before, target := tree, Resolve(path);
      r := PutFileStream(path, [Data(contents)]);
      if target.Ok? { OneChunk(before, target.value, contents, [Data(contents)]); }
    }

    method ReadAt(p: Path, offset: Option<int>, length: Option<int>) returns (r: StoreResult<seq<Byte>>)
      ensures r == if p !in tree then Err(Absent(tree, p))
                   else if IsDir(tree, p) then if length == Some(0) then Ok([]) else Err(Internal)
                   else Ok(Range(tree[p].bytes, offset, length))
    {
      if p !in tree { return Err(Absent(tree, p)); }
      // a directory can be opened, but reading any byte of it is an error
      if tree[p].Directory? { return if length == Some(0) then Ok([]) else Err(Internal); }
      // seek: a position past the end is allowed and nothing is read from it
      var bytes := tree[p].bytes;
      var start := if offset.Some? && offset.value > 0 then offset.value else 0;
      var rest := if start <= |bytes| then bytes[start..] else [];
      RangeBySeek(bytes, start, offset, length, rest);
      r := Ok(if length.Some? && 0 <= length.value <= |rest| then rest[..length.value] else rest);
    }

    method ReadFile(path: string, offset: Option<int>, length: Option<int>) returns (r: StoreResult<seq<Byte>>)
      ensures match Resolve(path)
              case Err(e) => r == Err(e)
              case Ok(p) => r == if p !in tree then Err(Absent(tree, p))
                                 else if IsDir(tree, p) then if length == Some(0) then Ok([]) else Err(Internal)
                                 else Ok(Range(tree[p].bytes, offset, length))
    {
      var target := Resolve(path);
      if target.Err? { return Err(target.error); }
      r := ReadAt(target.value, offset, length);
    }

    method DeleteFile(path: string) returns (r: StoreResult<()>)
      requires Valid()
      modifies this
      ensures Valid()
      ensures match Resolve(path)
              case Err(e) => r == Err(e) && tree == old(tree)
              case Ok(p) =>
                match RemoveFile(old(tree), p)
                case Err(e) => r == Err(e) && tree == old(tree)
                case Ok(t) => r == Ok(()) && tree == t
    {
      var target := Resolve(path);
      if target.Err? { return Err(target.error); }
      var removed := RemoveFile(tree, target.value);
      if removed.Err? { return Err(removed.error); }
      tree := removed.value;
      r := Ok(());
    }

    method CreateDirectory(path: string) returns (r: StoreResult<()>)
      requires Valid()
      modifies this
      ensures Valid()
      ensures match Resolve(path)
              case Err(e) => r == Err(e) && tree == old(tree)
              case Ok(p) =>
                match MkdirAll(old(tree), p)
                case Err(e) => r == Err(e) && tree == old(tree)
                case Ok(t) => r == Ok(()) && tree == t
    {
      var target := Resolve(path);
      if target.Err? { return Err(target.error); }
      var made := MkdirAll(tree, target.value);
      if made.Err? { return Err(made.error); }
      MkdirAllKeeps(tree, target.value);
      tree := made.value;
      r := Ok(());
    }

    method DeleteDirectory(path: string) returns (r: StoreResult<()>)
      requires Valid()
      modifies this
      ensures Valid()
      ensures match Resolve(path)
              case Err(e) => r == Err(e) && tree == old(tree)
              case Ok(p) =>
                match RemoveEmptyDir(old(tree), p)
                case Err(e) => r == Err(e) && tree == old(tree)
                case Ok(t) => r == Ok(()) && tree == t
    {
      var target := Resolve(path);
      if target.Err? { return Err(target.error); }
      var removed := RemoveEmptyDir(tree, target.value);
      if removed.Err? { return Err(removed.error); }
      tree := removed.value;
      r := Ok(());
    }

    /** `read_dir`: the children, in an order the operating system chooses. */
    method ReadDir(dir: Path) returns (children: seq<Path>)
      requires Valid() && IsDir(tree, dir)
      ensures NoRepeats(children)
      ensures Elements(children) == ChildrenOf(tree, dir)
    {
      var left := set p | p in tree && p != [] && Parent(p) == dir;
      ghost var all := left;
      children := [];
      while left != {}
        invariant NoRepeats(children) && Elements(children) + left == all && Elements(children) !! left
        decreases left
      {
        var p :| p in left;
        assert p !in Elements(children);
        assert Elements(children + [p]) == Elements(children) + {p};
        children, left := children + [p], left - {p};
      }
    }

    /** The entries of the directory `dir`, asked for under the logical path `path`. */
    method ReadEntries(path: string, dir: Path) returns (entries: seq<Entry>)
      requires Valid() && IsDir(tree, dir)
      ensures Lists(entries, ChildEntries(tree, path, dir))
    {
      var children := ReadDir(dir);
      var i := 0;
      entries := [];
      while i < |children|
        invariant 0 <= i <= |children|
        invariant Describes(tree, path, dir, children[..i], entries)
      {
        var p := children[i];
        assert p in Elements(children);
        var name := p[|p| - 1];
        ChildEntryPath(path, dir, p);
        entries := entries + [Entry(ChildLogical(path, name), tree[p].Directory?, Size(tree[p]))];
        assert children[..i + 1] == children[..i] + [p];
        i := i + 1;
      }
      assert children[..i] == children;
      ChildrenDescribed(tree, path, dir, children, entries);
      entries := Sort(entries);
    }

    /** `read_children`: the immediate children, sorted by path. A missing directory lists as empty;
        a file in the place of the directory is an error. */
    method ReadChildren(path: string) returns (r: StoreResult<seq<Entry>>)
      requires Valid()
      ensures Resolve(path).Err? ==> r == Err(InvalidArgument)
      ensures Resolve(path).Ok? ==> ListsChildren(path, Resolve(path).value, r)
    {
      var target := Resolve(path);
      if target.Err? { return Err(target.error); }
      var dir := target.value;
      if dir !in tree {
        var e := Absent(tree, dir);
        NothingUnderMissing(tree, path, dir);
        return if e == NotFound then Ok([]) else Err(e);
      }
      if tree[dir].File? { return Err(Internal); }
      var entries := ReadEntries(path, dir);
      r := Ok(entries);
    }

    ghost predicate ListsChildren(path: string, dir: Path, r: StoreResult<seq<Entry>>)
      reads this
    {
      if IsFile(tree, dir) then r == Err(Internal)
      else if dir !in tree && Absent(tree, dir) != NotFound then r == Err(Absent(tree, dir))
      else r.Ok? && Lists(r.value, ChildEntries(tree, path, dir))
    }

    ghost predicate ListsDeep(path: string, dir: Path, r: StoreResult<seq<Entry>>)
      reads this
    {
      if IsFile(tree, dir) then r == Err(Internal)
      else if dir !in tree && Absent(tree, dir) != NotFound then r == Err(Absent(tree, dir))
      else r.Ok? && DistinctPaths(r.value) && Elements(r.value) == DeepEntries(tree, path, dir)
    }

    ghost predicate Listable(dir: Path)
      reads this
    {
      CanList(tree, dir)
    }

    /** Sorts one directory's entries onto the stack and into the output. */
    method Sift(entries: seq<Entry>, stack: seq<string>, out: seq<Entry>)
      returns (stack': seq<string>, out': seq<Entry>)
      ensures stack' == stack + DirPaths(entries) && out' == out + FileEntries(entries)
    {
      stack', out' := stack, out;
      var i := 0;
      while i < |entries|
        invariant 0 <= i <= |entries|
        invariant stack' == stack + DirPaths(entries[..i]) && out' == out + FileEntries(entries[..i])
      {
        OneMoreSifted(entries, i);
        if entries[i].isDirectory {
          stack' := stack' + [entries[i].path];
        } else {
          out' := out' + [entries[i]];
        }
        i := i + 1;
      }
      assert entries[..i] == entries;
    }

    /** `walk`: every file below `path`, depth first with an explicit stack. */
    method Walk(path: string, ghost cs: Path) returns (r: StoreResult<seq<Entry>>)
      requires Valid() && Resolve(path) == Ok(cs)
      ensures ListsDeep(path, cs, r)
    {
      var out, stack := [], [path];
      ghost var w := WalkOpens(tree, path, cs);
      while stack != []
        invariant Walked(tree, path, cs, w, stack, out)
        invariant cs in w.read ==> Listable(cs)
        decreases tree.Keys + {cs} - w.read
      {
        Top(tree, path, cs, w, stack, out);
        ghost var d := w.dirs[|w.dirs| - 1];
        var current := stack[|stack| - 1];
        var children := ReadChildren(current);
        if children.Err? { return Err(children.error); }
        w := Round(tree, path, cs, w, stack, out, children.value);
        stack, out := Sift(children.value, stack[..|stack| - 1], out);
      }
      WalkedAll(tree, path, cs, w, out);
      r := Ok(out);
    }

    /** The entries a listing of `path` is taken from. */
    ghost function Listed(path: string, dir: Path, recursive: bool): set<Entry>
      reads this
    {
      EntriesToList(tree, path, dir, recursive)
    }

    method ListFilesOpts(path: string, opts: ListOpts) returns (r: StoreResult<seq<Entry>>)
      requires Valid()
      ensures match Resolve(path)
              case Err(e) => r == Err(e)
              case Ok(dir) =>
                if Listable(dir) then
                  r.Ok? && Answers(r.value, Listed(path, dir, opts.recursive), opts.startAfter, opts.maxResults)
                else r == Err(if IsFile(tree, dir) then Internal else Absent(tree, dir))
    {
      var target := Resolve(path);
      if target.Err? { return Err(target.error); }
      var entries;
      if opts.recursive {
        entries := Walk(path, target.value);
      } else {
        entries := ReadChildren(path);
      }
      if entries.Err? { return entries; }
      AscendingIsSortedAndDistinct(entries.value);
      SortedWindowAnswers(entries.value, Listed(path, target.value, opts.recursive), opts.startAfter, opts.maxResults);
      r := Ok(Window(Sort(entries.value), opts.startAfter, opts.maxResults));
    }

    method ListDirectory(path: string, page: Page) returns (r: StoreResult<(seq<Entry>, Option<string>)>)
      requires Valid()
      ensures match Resolve(path)
              case Err(e) => r == Err(e)
              case Ok(dir) =>
                if Listable(dir) then
                  exists full :: Lists(full, ChildEntries(tree, path, dir)) && r == Ok(PageOf(full, page))
                else r == Err(if IsFile(tree, dir) then Internal else Absent(tree, dir))
    {
      var entries := ReadChildren(path);
      if entries.Err? { return Err(entries.error); }
      var rest, next := Paginate(entries.value, page);
      r := Ok((rest, next));
    }
  }

  function Write(t: Tree, p: Path, contents: seq<Byte>): StoreResult<Tree> {
    match OpenForWrite(t, p)
    case Err(e) => Err(e)
    case Ok(t1) => Ok(t1[p := File(contents)])
  }

  lemma JoinedStep(chunks: seq<Chunk>, i: nat, written: seq<Byte>)
    requires i < |chunks| && Joined(chunks) == written + Joined(chunks[i..])
    ensures Joined(chunks) == if chunks[i].Broken? then written
                              else (written + chunks[i].bytes) + Joined(chunks[i + 1..])
  {
    var rest := chunks[i..];
    DropDrop(chunks, i, rest);
    if chunks[i].Data? { AppendAssoc(written, chunks[i].bytes, Joined(rest[1..])); }
  }

  lemma RangeBySeek(bytes: seq<Byte>, start: nat, offset: Option<int>, length: Option<int>, rest: seq<Byte>)
    requires start == if offset.Some? && offset.value > 0 then offset.value else 0
    requires rest == if start <= |bytes| then bytes[start..] else []
    ensures Range(bytes, offset, length) ==
            if length.Some? && 0 <= length.value <= |rest| then rest[..length.value] else rest
  {
  }

  /** A write is an upload of one chunk. */
  lemma OneChunk(t: Tree, p: Path, contents: seq<Byte>, chunks: seq<Chunk>)
    requires chunks == [Data(contents)]
    ensures Intact(chunks) && |Joined(chunks)| == |contents|
    ensures match OpenForWrite(t, p)
            case Err(e) => Write(t, p, contents) == Err(e)
            case Ok(t1) => Write(t, p, contents) == Ok(t1[p := File(Joined(chunks))])
  {
    assert Joined(chunks[1..]) == [];
    assert Joined(chunks) == contents;
  }

  lemma RewriteKeeps(t: Tree, p: Path, bytes: seq<Byte>)
    requires WellFormed(t) && IsFile(t, p)
    ensures WellFormed(t[p := File(bytes)])
  {
  }

  lemma NothingUnderMissing(t: Tree, path: string, dir: Path)
    requires WellFormed(t) && dir !in t
    ensures Lists([], ChildEntries(t, path, dir))
  {
  }
}
