/** Directory entries, their order by path, and the windows a listing is read through. */
module ListingOrder {
  import opened Results
  import opened Sequences

  /** A listed entry: modification times, etags and content types are not modelled. */
  datatype Entry = Entry(path: string, isDirectory: bool, size: nat)

  // ---------------------------------------------------------------- order

  /** Strict lexicographic order, the order Rust gives to strings. */
  predicate Less(a: string, b: string) {
    b != [] && (a == [] || a[0] < b[0] || (a[0] == b[0] && Less(a[1..], b[1..])))
  }

  lemma {:induction false} LessIrreflexive(a: string)
    ensures !Less(a, a)
  {
    if a != [] { LessIrreflexive(a[1..]); }
  }

  lemma {:induction false} LessTransitive(a: string, b: string, c: string)
    requires Less(a, b) && Less(b, c)
    ensures Less(a, c)
  {
    if a != [] && a[0] == b[0] == c[0] {
      LessTransitive(a[1..], b[1..], c[1..]);
    }
  }

  lemma {:induction false} LessTotal(a: string, b: string)
    ensures a == b || Less(a, b) || Less(b, a)
  {
    if a != [] && b != [] && a[0] == b[0] {
      LessTotal(a[1..], b[1..]);
      assert a == [a[0]] + a[1..] && b == [b[0]] + b[1..];
    }
  }

  /** Less(a, c) follows from a <= b < c and from a < b <= c, where <= is "not greater". */
  lemma LessMixed(a: string, b: string, c: string)
    requires (!Less(b, a) && Less(b, c)) || (Less(a, b) && !Less(c, b))
    ensures Less(a, c)
  {
  }

  lemma LessAsymmetric(a: string, b: string)
    requires Less(a, b)
    ensures !Less(b, a) && a != b
  {
  }

  /** Strictly ascending by path, so no path occurs twice. */
  ghost predicate Ascending(es: seq<Entry>) {
    forall i, j :: 0 <= i < j < |es| ==> Less(es[i].path, es[j].path)
  }

  /** Ascending by path, equal paths allowed. */
  ghost predicate Sorted(es: seq<Entry>) {
    forall i, j :: 0 <= i < j < |es| ==> !Less(es[j].path, es[i].path)
  }

  ghost predicate DistinctPaths(es: seq<Entry>) {
    forall i, j :: 0 <= i < j < |es| ==> es[i].path != es[j].path
  }

  lemma AscendingIsSortedAndDistinct(es: seq<Entry>)
    ensures Ascending(es) <==> Sorted(es) && DistinctPaths(es)
  {
    forall i, j | 0 <= i < j < |es|
      ensures Less(es[i].path, es[j].path) <==>
              !Less(es[j].path, es[i].path) && es[i].path != es[j].path
    {
      LessTotal(es[i].path, es[j].path);
      if Less(es[i].path, es[j].path) { LessAsymmetric(es[i].path, es[j].path); }
    }
  }

  /** A strictly ascending listing is fixed by the set of its entries. */
  lemma {:induction false} AscendingUnique(a: seq<Entry>, b: seq<Entry>)
    requires Ascending(a) && Ascending(b) && Elements(a) == Elements(b)
    ensures a == b
  {
    HasElements(a);
    HasElements(b);
    if a != [] {
      HeadIsLeast(a, b[0]);
      HeadIsLeast(b, a[0]);
      if Less(a[0].path, b[0].path) { LessAsymmetric(a[0].path, b[0].path); }
      TailElements(a);
      TailElements(b);
      AscendingUnique(a[1..], b[1..]);
      assert a == [a[0]] + a[1..] && b == [b[0]] + b[1..];
    }
  }

  lemma HasElements<T>(a: seq<T>)
    ensures a != [] <==> Elements(a) != {}
    ensures a != [] ==> a[0] in Elements(a)
  {
    if a != [] { assert a[0] in Elements(a); }
  }

  lemma HeadIsLeast(a: seq<Entry>, e: Entry)
    requires Ascending(a) && e in a
    ensures e == a[0] || Less(a[0].path, e.path)
  {
  }

  lemma TailElements(a: seq<Entry>)
    requires Ascending(a) && a != []
    ensures Elements(a[1..]) == Elements(a) - {a[0]}
  {
    forall e
      ensures e in Elements(a[1..]) <==> e in Elements(a) - {a[0]}
    {
      if e in Elements(a[1..]) {
        var i :| 0 <= i < |a[1..]| && a[1..][i] == e;
        assert a[i + 1] == e;
        LessAsymmetric(a[0].path, a[i + 1].path);
      }
      if e in Elements(a) - {a[0]} {
        var i :| 0 <= i < |a| && a[i] == e;
        assert a[1..][i - 1] == e;
      }
    }
  }

  // ---------------------------------------------------------------- sort_by path

  /** Stable insertion: after every entry whose path is not greater. */
  function Insert(e: Entry, es: seq<Entry>): (r: seq<Entry>)
    ensures |r| == |es| + 1
  {
    if es == [] || !Less(e.path, es[|es| - 1].path) then es + [e]
    else Insert(e, es[..|es| - 1]) + [es[|es| - 1]]
  }

  function Sort(es: seq<Entry>): (r: seq<Entry>)
    ensures |r| == |es|
  {
    if es == [] then [] else Insert(es[|es| - 1], Sort(es[..|es| - 1]))
  }

  lemma LastSorts(e: Entry, es: seq<Entry>)
    requires Sorted(es) && (es == [] || !Less(e.path, es[|es| - 1].path))
    ensures Sorted(es + [e])
  {
    forall i | 0 <= i < |es| ensures !Less(e.path, es[i].path) {
      if i < |es| - 1 && Less(e.path, es[i].path) { LessMixed(e.path, es[i].path, es[|es| - 1].path); }
    }
  }

  lemma {:induction false} InsertSorts(e: Entry, es: seq<Entry>)
    requires Sorted(es)
    ensures Sorted(Insert(e, es)) && multiset(Insert(e, es)) == multiset(es) + multiset{e}
  {
    var n := |es|;
    if es == [] || !Less(e.path, es[n - 1].path) {
      LastSorts(e, es);
    } else {
      var init, last := es[..n - 1], es[n - 1];
      assert es == init + [last];
      InsertSorts(e, init);
      var s := Insert(e, init);
      var greatest := s[|s| - 1];
      assert greatest in multiset(s);
      if greatest == e {
        LessAsymmetric(e.path, last.path);
      } else {
        assert greatest in multiset(init);
      }
      LastSorts(last, s);
    }
  }

  lemma {:induction false} SortSorts(es: seq<Entry>)
    ensures Sorted(Sort(es)) && multiset(Sort(es)) == multiset(es)
  {
    if es != [] {
      var n := |es| - 1;
      assert es == es[..n] + [es[n]];
      SortSorts(es[..n]);
      InsertSorts(es[n], Sort(es[..n]));
    }
  }

  lemma SortElements(es: seq<Entry>)
    ensures Elements(Sort(es)) == Elements(es)
  {
    SortSorts(es);
    forall e ensures e in Sort(es) <==> e in es {
      assert e in Sort(es) <==> e in multiset(Sort(es));
      assert e in es <==> e in multiset(es);
    }
  }

  lemma {:induction false} InsertAscends(e: Entry, es: seq<Entry>)
    requires Ascending(es) && forall x :: x in es ==> x.path != e.path
    ensures Ascending(Insert(e, es)) && Elements(Insert(e, es)) == Elements(es) + {e}
  {
    var n := |es|;
    if es == [] || !Less(e.path, es[n - 1].path) {
      forall i | 0 <= i < n ensures Less(es[i].path, e.path) {
        LessTotal(e.path, es[n - 1].path);
        if i < n - 1 { LessTransitive(es[i].path, es[n - 1].path, e.path); }
      }
    } else {
      var init, last := es[..n - 1], es[n - 1];
      assert es == init + [last];
      InsertAscends(e, init);
      forall x | x in Insert(e, init) ensures Less(x.path, last.path) {
        assert x in Elements(init) + {e};
      }
    }
  }

  /** Sorting entries with pairwise distinct paths makes them strictly ascending. */
  lemma {:induction false} SortAscends(es: seq<Entry>)
    requires DistinctPaths(es)
    ensures Ascending(Sort(es)) && Elements(Sort(es)) == Elements(es)
  {
    if es != [] {
      var n := |es| - 1;
      assert es == es[..n] + [es[n]];
      SortAscends(es[..n]);
      forall x | x in Sort(es[..n]) ensures x.path != es[n].path {
        assert x in Elements(es[..n]);
      }
      InsertAscends(es[n], Sort(es[..n]));
    }
  }

  // ---------------------------------------------------------------- start_after and max_results

  /** `retain(|e| e.path > after)`. */
  function After(es: seq<Entry>, after: Option<string>): (r: seq<Entry>)
    ensures |r| <= |es|
  {
    if after.None? then es
    else if es == [] then []
    else (if Less(after.value, es[0].path) then [es[0]] else []) + After(es[1..], after)
  }

  /** `truncate(n)`. */
  function Capped(es: seq<Entry>, cap: Option<nat>): (r: seq<Entry>) {
    if cap.Some? && cap.value < |es| then es[..cap.value] else es
  }

  function Window(es: seq<Entry>, after: Option<string>, cap: Option<nat>): seq<Entry> {
    Capped(After(es, after), cap)
  }

  lemma {:induction false} AfterElements(es: seq<Entry>, a: string)
    ensures forall e :: e in After(es, Some(a)) <==> e in es && Less(a, e.path)
  {
    if es != [] {
      assert es == [es[0]] + es[1..];
      AfterElements(es[1..], a);
    }
  }

  /** Resuming further on reads no more than resuming earlier. */
  lemma {:induction false} AfterShrinks(es: seq<Entry>, after: Option<string>, e: Entry)
    requires e in After(es, after)
    ensures |After(es, Some(e.path))| < |After(es, after)|
  {
    if after.None? {
      AfterDrops(es, e);
    } else {
      assert e in es && Less(after.value, e.path) by { AfterElements(es, after.value); }
      var t := es[1..];
      assert es == [es[0]] + t;
      if Less(e.path, es[0].path) { LessTransitive(after.value, e.path, es[0].path); }
      LessIrreflexive(e.path);
      if e in After(t, after) {
        AfterShrinks(t, after, e);
      } else {
        assert e == es[0];
        AfterMonotone(t, after.value, e.path);
      }
    }
  }

  lemma {:induction false} AfterMonotone(es: seq<Entry>, a: string, b: string)
    requires Less(a, b)
    ensures |After(es, Some(b))| <= |After(es, Some(a))|
  {
    if es != [] {
      AfterMonotone(es[1..], a, b);
      if Less(b, es[0].path) { LessTransitive(a, b, es[0].path); }
    }
  }

  lemma {:induction false} AfterDrops(es: seq<Entry>, e: Entry)
    requires e in es
    ensures |After(es, Some(e.path))| < |es|
  {
    LessIrreflexive(e.path);
    if es[0] != e {
      assert e in es[1..];
      AfterDrops(es[1..], e);
    }
  }

  /** In a sorted listing the entries after a path are a suffix. */
  lemma {:induction false} AfterIsSuffix(es: seq<Entry>, a: string, k: nat)
    requires Sorted(es) && k <= |es|
    requires forall i :: 0 <= i < k ==> !Less(a, es[i].path)
    requires k < |es| ==> Less(a, es[k].path)
    ensures After(es, Some(a)) == es[k..]
  {
    if es != [] {
      if k > 0 {
        AfterIsSuffix(es[1..], a, k - 1);
        assert es[1..][k - 1..] == es[k..];
      } else {
        if |es| > 1 { LessMixed(a, es[0].path, es[1].path); }
        AfterIsSuffix(es[1..], a, 0);
        assert es == [es[0]] + es[1..];
      }
    }
  }

  // ---------------------------------------------------------------- reading a listing piecewise

  /** What a caller collects who asks for at most n entries, resumes after the last path it was
      given, and stops at the first empty answer. */
  function Resume(es: seq<Entry>, after: Option<string>, n: nat): (r: seq<Entry>)
    decreases |After(es, after)|
  {
    var page := Window(es, after, Some(n));
    if page == [] then []
    else
      var last := page[|page| - 1];
      assert last in After(es, after);
      AfterShrinks(es, after, last);
      page + Resume(es, Some(last.path), n)
  }

  lemma AfterItself(es: seq<Entry>, k: nat)
    requires Ascending(es) && 0 < k <= |es|
    ensures After(es, Some(es[k - 1].path)) == es[k..]
  {
    AscendingIsSortedAndDistinct(es);
    LessIrreflexive(es[k - 1].path);
    AfterIsSuffix(es, es[k - 1].path, k);
  }

  lemma ResumeStep(full: seq<Entry>, after: Option<string>, n: nat, page: seq<Entry>)
    requires n >= 1 && page == Window(full, after, Some(n))
    ensures page == [] ==> Resume(full, after, n) == []
    ensures page != [] ==> Resume(full, after, n) == page + Resume(full, Some(page[|page| - 1].path), n)
  {
  }

  lemma PageShape(es: seq<Entry>, k: nat, n: nat, page: seq<Entry>)
    requires Ascending(es) && 0 < k < |es| && n >= 1 && page == Window(es, Some(es[k - 1].path), Some(n))
    ensures 0 < |page| <= |es| - k && page == es[k..k + |page|]
  {
    AfterItself(es, k);
    FirstOfRest(es, k, n, page);
  }

  lemma FirstOfRest<T>(s: seq<T>, k: nat, n: nat, page: seq<T>)
    requires k < |s| && n >= 1 && page == if n < |s[k..]| then s[k..][..n] else s[k..]
    ensures 0 < |page| <= |s| - k && page == s[k..k + |page|]
  {
  }

  /** One page further, from position `k` to position `m`. */
  lemma PageAfter(es: seq<Entry>, k: nat, n: nat) returns (m: nat)
    requires Ascending(es) && 0 < k < |es| && n >= 1
    ensures k < m <= |es|
    ensures Resume(es, Some(es[k - 1].path), n) == es[k..m] + Resume(es, Some(es[m - 1].path), n)
  {
    var after := Some(es[k - 1].path);
    var page := Window(es, after, Some(n));
    PageShape(es, k, n, page);
    m := k + |page|;
    assert page[|page| - 1] == es[m - 1];
    ResumeStep(es, after, n, page);
  }

  lemma {:induction false} ResumeSuffix(es: seq<Entry>, k: nat, n: nat)
    requires Ascending(es) && 0 < k <= |es| && n >= 1
    ensures Resume(es, Some(es[k - 1].path), n) == es[k..]
    decreases |es| - k
  {
    if k < |es| {
      var m := PageAfter(es, k, n);
      ResumeSuffix(es, m, n);
      MidRest(es, k, m);
    } else {
      AfterItself(es, k);
    }
  }

  lemma MidRest<T>(s: seq<T>, k: nat, m: nat)
    requires k <= m <= |s|
    ensures s[k..m] + s[m..] == s[k..]
  {
  }

  /** Reading a strictly ascending listing n >= 1 entries at a time, resuming after the last path
      seen, gives every entry exactly once and in order. */
  lemma ResumeComplete(es: seq<Entry>, n: nat)
    requires Ascending(es) && n >= 1
    ensures Resume(es, None, n) == es
  {
    if es != [] {
      var page := Window(es, None, Some(n));
      assert page == es[..|page|];
      ResumeSuffix(es, |page|, n);
      assert es[..|page|] + es[|page|..] == es;
    }
  }

  lemma {:induction false} SplitAfter(es: seq<Entry>, a: string) returns (k: nat)
    requires Sorted(es)
    ensures k <= |es| && After(es, Some(a)) == es[k..]
    ensures forall i :: 0 <= i < k ==> !Less(a, es[i].path)
  {
    k := 0;
    while k < |es| && !Less(a, es[k].path)
      invariant k <= |es|
      invariant forall i :: 0 <= i < k ==> !Less(a, es[i].path)
    {
      k := k + 1;
    }
    AfterIsSuffix(es, a, k);
  }

  /** Reading piecewise never gives more than what was left to read. */
  lemma {:induction false} ResumeBound(es: seq<Entry>, a: string, n: nat)
    requires Sorted(es)
    ensures |Resume(es, Some(a), n)| <= |After(es, Some(a))|
    decreases |After(es, Some(a))|
  {
    var page := Window(es, Some(a), Some(n));
    if page != [] {
      var last := page[|page| - 1];
      assert last in After(es, Some(a));
      AfterShrinks(es, Some(a), last);
      ResumeBound(es, last.path, n);
      var k := SplitAfter(es, a);
      var j := SplitAfter(es, last.path);
      assert last == es[k + |page| - 1];
      assert j >= k + |page| by {
        if j < k + |page| {
          if j < k + |page| - 1 { assert !Less(last.path, es[j].path); }
          LessIrreflexive(last.path);
          assert es[j] in After(es, Some(last.path));
          AfterElements(es, last.path);
        }
      }
    }
  }

  /** On a sorted listing piecewise reading is complete for every page size exactly when no two
      entries share a path: a page that ends between two equal paths loses the second. */
  lemma ResumeCompleteIffDistinct(es: seq<Entry>)
    requires Sorted(es)
    ensures (forall n: nat :: n >= 1 ==> Resume(es, None, n) == es) <==> DistinctPaths(es)
  {
    AscendingIsSortedAndDistinct(es);
    if DistinctPaths(es) {
      forall n: nat | n >= 1 ensures Resume(es, None, n) == es { ResumeComplete(es, n); }
    } else {
      var i, j :| 0 <= i < j < |es| && es[i].path == es[j].path;
      ClashLoses(es, i, j);
    }
  }

  /** A page that ends with the first of two entries of one path: the second is never read. */
  lemma ClashLoses(es: seq<Entry>, i: nat, j: nat)
    requires Sorted(es) && i < j < |es| && es[i].path == es[j].path
    ensures |Resume(es, None, i + 1)| < |es|
  {
    var page := Window(es, None, Some(i + 1));
    assert page[|page| - 1] == es[i];
    ResumeBound(es, es[i].path, i + 1);
    var k := SplitAfter(es, es[i].path);
    LessIrreflexive(es[i].path);
    if k <= j {
      assert es[j] in es[k..];
      AfterElements(es, es[i].path);
      assert false;
    }
  }

  // ---------------------------------------------------------------- what a listing call answers

  datatype ListOpts = ListOpts(recursive: bool, startAfter: Option<string>, maxResults: Option<nat>)

  /** The directory entries `full` is the listing of. */
  ghost predicate Lists(full: seq<Entry>, all: set<Entry>) {
    Ascending(full) && Elements(full) == all
  }

  /** r is the requested window of the listing of `all`. */
  ghost predicate Answers(r: seq<Entry>, all: set<Entry>, after: Option<string>, cap: Option<nat>) {
    exists full :: Lists(full, all) && r == Window(full, after, cap)
  }

  lemma AnswersUnique(r: seq<Entry>, s: seq<Entry>, all: set<Entry>, after: Option<string>, cap: Option<nat>)
    requires Answers(r, all, after, cap) && Answers(s, all, after, cap)
    ensures r == s
  {
    var f :| Lists(f, all) && r == Window(f, after, cap);
    var g :| Lists(g, all) && s == Window(g, after, cap);
    AscendingUnique(f, g);
  }

  /** Sorting the collected entries, dropping those up to `start_after` and capping gives the window
      of the listing. */
  lemma SortedWindowAnswers(es: seq<Entry>, all: set<Entry>, after: Option<string>, cap: Option<nat>)
    requires DistinctPaths(es) && Elements(es) == all
    ensures Answers(Window(Sort(es), after, cap), all, after, cap)
  {
    SortAscends(es);
    assert Lists(Sort(es), all);
  }
}
