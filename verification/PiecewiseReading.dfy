/** Callers that read a whole listing piece by piece, resuming after the last path they were given. */
module PiecewiseReading {
  import opened Results
  import opened Sequences
  import opened ListingOrder
  import opened PathNames
  import opened Paging
  import Decimal
  import opened FileTree
  import opened LocalStore
  import opened MemoryStore
  import opened StoreAgreement

  /** With `page` a caller who has `got` is done, or goes on after the page's last path with less left. */
  ghost predicate Continues(full: seq<Entry>, got: seq<Entry>, after: Option<string>, n: nat, page: seq<Entry>)
    requires n >= 1
  {
    if page == [] then got == full
    else
      var last := Some(page[|page| - 1].path);
      full == (got + page) + Resume(full, last, n) && |After(full, last)| < |After(full, after)|
  }

  /** One more answer of the listing `full`. */
  lemma OnePage(full: seq<Entry>, after: Option<string>, n: nat, got: seq<Entry>, page: seq<Entry>)
    requires Ascending(full) && n >= 1 && page == Window(full, after, Some(n))
    requires full == got + Resume(full, after, n)
    ensures Continues(full, got, after, n, page)
  {
    ResumeStep(full, after, n, page);
    if page == [] {
      AppendNone(got);
    } else {
      var last := page[|page| - 1];
      LastOfPage(After(full, after), page, n);
      AfterShrinks(full, after, last);
      AppendAssoc(got, page, Resume(full, Some(last.path), n));
    }
  }

  lemma LastOfPage(rest: seq<Entry>, page: seq<Entry>, n: nat)
    requires page == Capped(rest, Some(n)) && page != []
    ensures page[|page| - 1] in rest
  {
    assert rest[|page| - 1] == page[|page| - 1];
  }

  lemma FromOneListing(r: seq<Entry>, full: seq<Entry>, all: set<Entry>, after: Option<string>, n: nat)
    requires Answers(r, all, after, Some(n)) && Lists(full, all)
    ensures r == Window(full, after, Some(n))
  {
    var f :| Lists(f, all) && r == Window(f, after, Some(n));
    AscendingUnique(f, full);
  }

  /** `full` is the whole listing of a place that can be listed. */
  ghost predicate WholeListing(t: Tree, path: string, recursive: bool, cs: Path, full: seq<Entry>) {
    WellFormed(t) && Resolve(path) == Ok(cs) && CanList(t, cs) && Lists(full, EntriesToList(t, path, cs, recursive))
  }

  /** One answer of the local store to a caller who has `got` and resumes after the last path of it. */
  method LocalPage(store: LocalFileStore, path: string, recursive: bool, after: Option<string>, n: nat,
                   ghost t: Tree, ghost cs: Path, ghost full: seq<Entry>, ghost got: seq<Entry>)
    returns (page: seq<Entry>)
    requires store.tree == t && WholeListing(t, path, recursive, cs, full) && n >= 1
    requires full == got + Resume(full, after, n)
    ensures store.tree == t && Continues(full, got, after, n, page)
  {
    var answer := store.ListFilesOpts(path, ListOpts(recursive, after, Some(n)));
    FromOneListing(answer.value, full, EntriesToList(t, path, cs, recursive), after, n);
    page := answer.value;
    OnePage(full, after, n, got, page);
  }

  /** Reading a place of the local store `n` entries at a time ends, and gives the whole listing: every
      entry once, in strictly increasing order. */
  method ReadLocal(store: LocalFileStore, path: string, recursive: bool, n: nat,
                   ghost t: Tree, ghost cs: Path, ghost full: seq<Entry>)
    returns (got: seq<Entry>)
    requires store.tree == t && WholeListing(t, path, recursive, cs, full) && n >= 1
    ensures got == full
  {
    got := [];
    var after: Option<string> := None;
    ResumeComplete(full, n);
    while true
      invariant store.tree == t
      invariant full == got + Resume(full, after, n)
      decreases |After(full, after)|
    {
      var page := LocalPage(store, path, recursive, after, n, t, cs, full, got);
      if page == [] { return; }
      got := got + page;
      after := Some(page[|page| - 1].path);
    }
  }

  /** So does reading the memory store's recursive listing. */
  method ReadMemory(store: MemoryFileStore, path: string, n: nat, ghost full: seq<Entry>) returns (got: seq<Entry>)
    requires n >= 1 && Lists(full, Scanned(store.files, PrefixFor(path), true))
    ensures got == full
  {
    got := [];
    var after: Option<string> := None;
    ResumeComplete(full, n);
    while true
      invariant full == got + Resume(full, after, n)
      decreases |After(full, after)|
    {
      var page := store.ListFilesOpts(path, ListOpts(true, after, Some(n)));
      ghost var listed :|
        ListsOnce(listed, Scanned(store.files, PrefixFor(path), true), false) && page == Window(listed, after, Some(n));
      OrderedIsAscending(full, listed);
      OnePage(full, after, n, got, page);
      if page == [] { return; }
      got := got + page;
      after := Some(page[|page| - 1].path);
    }
  }

  /** The flat store's recursive view lists every path once, since its paths are its keys. */
  lemma FlatListingAscends(files: Files, path: string, listed: seq<Entry>)
    requires ListsOnce(listed, Scanned(files, PrefixFor(path), true), false)
    ensures Lists(listed, Scanned(files, PrefixFor(path), true))
  {
    forall i, j | 0 <= i < j < |listed| ensures Less(listed[i].path, listed[j].path) {
      assert listed[i] in Elements(listed) && listed[j] in Elements(listed);
      assert Before(listed[i], listed[j], false);
    }
  }

  // ---------------------------------------------------------------- following index tokens

  /** One more page of the list `full`: what has been read is what lies before the token. */
  lemma OneTokenPage(full: seq<Entry>, token: Option<string>, limit: nat, got: seq<Entry>, page: seq<Entry>,
                     next: Option<string>)
    requires limit >= 1 && |full| <= Decimal.USIZE_MAX
    requires StartOf(token) <= |full| && got == full[..StartOf(token)]
    requires (page, next) == PageOf(full, Page(Some(limit), token))
    ensures next.None? ==> got + page == full
    ensures next.Some? ==> StartOf(token) < StartOf(next) <= |full| && got + page == full[..StartOf(next)]
  {
    var start := StartOf(token);
    PageIs(full, limit, token, page, next);
    if next.Some? { TakeMore(full, start, page, start + limit); } else { TakeDrop(full, start); }
  }

  method LocalTokenPage(store: LocalFileStore, path: string, token: Option<string>, limit: nat,
                        ghost t: Tree, ghost cs: Path, ghost full: seq<Entry>)
    returns (page: seq<Entry>, next: Option<string>)
    requires store.tree == t && WholeListing(t, path, false, cs, full)
    ensures store.tree == t && (page, next) == PageOf(full, Page(Some(limit), token))
  {
    var answer := store.ListDirectory(path, Page(Some(limit), token));
    ghost var listed :| Lists(listed, ChildEntries(t, path, cs))
      && answer == Ok(PageOf(listed, Page(Some(limit), token)));
    AscendingUnique(listed, full);
    page, next := answer.value.0, answer.value.1;
  }

  /** Following the local store's tokens with a limit of at least one ends, and gives every child once. */
  method FollowLocal(store: LocalFileStore, path: string, limit: nat, ghost t: Tree, ghost cs: Path,
                     ghost full: seq<Entry>)
    returns (got: seq<Entry>)
    requires store.tree == t && WholeListing(t, path, false, cs, full)
    requires limit >= 1 && |full| <= Decimal.USIZE_MAX
    ensures got == full
  {
    got := [];
    var token: Option<string> := None;
    while true
      invariant store.tree == t
      invariant StartOf(token) <= |full| && got == full[..StartOf(token)]
      decreases |full| - StartOf(token)
    {
      var page, next := LocalTokenPage(store, path, token, limit, t, cs, full);
      OneTokenPage(full, token, limit, got, page, next);
      got := got + page;
      if next.None? { return; }
      token := next;
    }
  }

  /** So does following the memory store's, whose listing may hold a directory and a file of one path. */
  method FollowMemory(store: MemoryFileStore, path: string, limit: nat, ghost full: seq<Entry>)
    returns (got: seq<Entry>)
    requires ListsOnce(full, DirectoryEntries(store.files, store.directories, PrefixFor(path)), true)
    requires limit >= 1 && |full| <= Decimal.USIZE_MAX
    ensures got == full
  {
    got := [];
    var token: Option<string> := None;
    while true
      invariant StartOf(token) <= |full| && got == full[..StartOf(token)]
      decreases |full| - StartOf(token)
    {
      var page, next := store.ListDirectory(path, Page(Some(limit), token));
      ghost var listed :|
        ListsOnce(listed, DirectoryEntries(store.files, store.directories, PrefixFor(path)), true) &&
        (page, next) == PageOf(listed, Page(Some(limit), token));
      OrderedUnique(listed, full, true);
      OneTokenPage(full, token, limit, got, page, next);
      got := got + page;
      if next.None? { return; }
      token := next;
    }
  }
}
