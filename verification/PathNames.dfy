/** Slash-separated paths: splitting, joining, the sandbox resolution of the local store and the
    logical path of a child. */
module PathNames {
  import opened Results
  import opened Sequences

  /** A name a directory entry can have. */
  predicate Plain(name: string) {
    name != "" && name != "." && name != ".." && '/' !in name
  }

  predicate AllPlain(names: seq<string>) {
    forall i :: 0 <= i < |names| ==> Plain(names[i])
  }

  /** A piece a split at slashes can give. */
  predicate Unbroken(name: string) {
    name != "" && '/' !in name
  }

  predicate AllUnbroken(names: seq<string>) {
    forall i :: 0 <= i < |names| ==> Unbroken(names[i])
  }

  /** A path one level down. */
  function Below(parent: string, name: string): string {
    parent + "/" + name
  }

  /** `/a/b/c` for ["a", "b", "c"]; the root is the empty string. */
  function Abs(names: seq<string>): string {
    if names == [] then "" else Below(Abs(names[..|names| - 1]), names[|names| - 1])
  }

  function FirstSlash(s: string): (i: nat)
    ensures i <= |s| && '/' !in s[..i] && (i < |s| ==> s[i] == '/')
  {
    if s == "" || s[0] == '/' then 0
    else
      var i := 1 + FirstSlash(s[1..]);
      assert s[..i] == [s[0]] + s[1..][..i - 1];
      i
  }

  lemma {:induction false} FirstSlashIs(s: string, i: nat)
    requires i <= |s| && '/' !in s[..i] && (i < |s| ==> s[i] == '/')
    ensures FirstSlash(s) == i
  {
  }

  function Piece(s: string): seq<string> {
    if s == "" then [] else [s]
  }

  /** The pieces between slashes that are not empty. */
  function Segments(s: string): (r: seq<string>)
    ensures AllUnbroken(r)
    decreases |s|
  {
    var i := FirstSlash(s);
    Piece(s[..i]) + if i == |s| then [] else Segments(s[i + 1..])
  }

  /** Splitting at a slash splits the segments. */
  lemma {:induction false} SegmentsSplit(a: string, b: string)
    ensures Segments(a + "/" + b) == Segments(a) + Segments(b)
    decreases |a|
  {
    var i, s := FirstSlash(a), a + "/" + b;
    var p := Piece(a[..i]);
    SlashAhead(a, b, i, s);
    SegmentsFrom(s, i);
    SegmentsFrom(a, i);
    if i < |a| {
      var rest := a[i + 1..];
      SegmentsSplit(rest, b);
      AppendAssoc(p, Segments(rest), Segments(b));
    } else {
      AppendNone(p);
    }
  }

  lemma SegmentsFrom(s: string, i: nat)
    requires i == FirstSlash(s)
    ensures Segments(s) == Piece(s[..i]) + if i == |s| then [] else Segments(s[i + 1..])
  {
  }

  lemma SlashAhead(a: string, b: string, i: nat, s: string)
    requires i == FirstSlash(a) && s == a + "/" + b
    ensures FirstSlash(s) == i && s[..i] == a[..i]
    ensures s[i + 1..] == if i == |a| then b else a[i + 1..] + "/" + b
  {
    var tail := "/" + b;
    assert s == a + tail by { AppendAssoc(a, "/", b); }
    SlashFollows(a, tail, i);
    DropPast(a, b, i + 1);
  }

  lemma SlashFollows(a: string, tail: string, i: nat)
    requires i == FirstSlash(a) && tail != "" && tail[0] == '/'
    ensures FirstSlash(a + tail) == i && (a + tail)[..i] == a[..i]
  {
    TakeAppend(a, tail, i);
    assert (a + tail)[i] == if i < |a| then a[i] else tail[0];
    FirstSlashIs(a + tail, i);
  }

  lemma DropPast(a: string, b: string, k: nat)
    requires 0 < k <= |a| + 1
    ensures (a + "/" + b)[k..] == if k == |a| + 1 then b else a[k..] + "/" + b
  {
  }

  lemma SegmentsOfName(n: string)
    requires Unbroken(n)
    ensures Segments(n) == [n]
  {
    assert n[..|n|] == n;
    FirstSlashIs(n, |n|);
  }

  lemma {:induction false} SegmentsOfAbs(names: seq<string>)
    requires AllUnbroken(names)
    ensures Segments(Abs(names)) == names
  {
    if names != [] {
      var init, last := names[..|names| - 1], names[|names| - 1];
      var p := Abs(init);
      SegmentsOfAbs(init);
      SegmentsBelow(p, last);
      SplitLast(names, init, last);
      assert Abs(names) == Below(p, last);
    }
  }

  lemma SegmentsBelow(a: string, n: string)
    requires Unbroken(n)
    ensures Segments(Below(a, n)) == Segments(a) + [n]
  {
    SegmentsSplit(a, n);
    SegmentsOfName(n);
  }

  // ---------------------------------------------------------------- the local store's sandbox

  /** `trim_start_matches('/')`. */
  function TrimStart(s: string): (r: string)
    ensures r == "" || r[0] != '/'
  {
    if s != "" && s[0] == '/' then TrimStart(s[1..]) else s
  }

  /** `trim_end_matches('/')`. */
  function TrimEnd(s: string): (r: string)
    ensures r == "" || r[|r| - 1] != '/'
  {
    if s != "" && s[|s| - 1] == '/' then TrimEnd(s[..|s| - 1]) else s
  }

  /** What is taken off are slashes only. */
  lemma {:induction false} TrimStartTakesSlashes(s: string) returns (k: nat)
    ensures k <= |s| && TrimStart(s) == s[k..] && forall i :: 0 <= i < k ==> s[i] == '/'
  {
    k := 0;
    if s != "" && s[0] == '/' {
      var j := TrimStartTakesSlashes(s[1..]);
      k := j + 1;
      assert s[1..][j..] == s[k..];
    }
  }

  lemma {:induction false} TrimEndTakesSlashes(s: string) returns (k: nat)
    ensures k <= |s| && TrimEnd(s) == s[..k] && forall i :: k <= i < |s| ==> s[i] == '/'
  {
    k := |s|;
    if s != "" && s[|s| - 1] == '/' {
      k := TrimEndTakesSlashes(s[..|s| - 1]);
      assert s[..|s| - 1][..k] == s[..k];
    }
  }

  /** The components `std::path::Path` gives for a relative path: empty pieces disappear, and of the
      rest the store drops ".", keeps plain names and rejects "..". */
  function Keep(segments: seq<string>): StoreResult<seq<string>> {
    if segments == [] then Ok([])
    else if segments[0] == ".." then Err(InvalidArgument)
    else
      match Keep(segments[1..])
      case Err(e) => Err(e)
      case Ok(rest) => Ok(if segments[0] == "." then rest else [segments[0]] + rest)
  }

  lemma {:induction false} KeepRejects(segments: seq<string>)
    ensures Keep(segments).Err? ==> Keep(segments).error == InvalidArgument
    ensures Keep(segments).Err? <==> ".." in segments
    ensures Keep(segments).Ok? && AllUnbroken(segments) ==> AllPlain(Keep(segments).value)
  {
    if segments != [] {
      assert segments == [segments[0]] + segments[1..];
      KeepRejects(segments[1..]);
    }
  }

  /** `resolve`: where below the root a logical path points, or the refusal of a path with "..". */
  function Resolve(logical: string): (r: StoreResult<seq<string>>)
    ensures r.Err? ==> r.error == InvalidArgument
    ensures r.Ok? ==> AllPlain(r.value)
  {
    KeepRejects(Segments(TrimStart(logical)));
    Keep(Segments(TrimStart(logical)))
  }

  lemma {:induction false} KeepAppend(a: seq<string>, b: seq<string>)
    requires Keep(a).Ok? && Keep(b).Ok?
    ensures Keep(a + b) == Ok(Keep(a).value + Keep(b).value)
  {
    if a == [] {
      assert a + b == b;
      assert Keep(a).value + Keep(b).value == Keep(b).value;
    } else {
      var s := a + b;
      assert s[0] == a[0];
      DropAppend(a, b, 1);
      KeepAppend(a[1..], b);
      AppendAssoc([a[0]], Keep(a[1..]).value, Keep(b).value);
    }
  }

  lemma {:induction false} KeepPlain(names: seq<string>)
    requires AllPlain(names)
    ensures Keep(names) == Ok(names)
  {
    if names != [] {
      assert Plain(names[0]);
      KeepPlain(names[1..]);
      assert names == [names[0]] + names[1..];
    }
  }

  lemma {:induction false} SegmentsOfTrimmed(s: string)
    ensures Segments(TrimStart(s)) == Segments(s)
  {
    if s != "" && s[0] == '/' {
      SegmentsOfTrimmed(s[1..]);
      FirstSlashIs(s, 0);
      assert s[0 + 1..] == s[1..];
    }
  }

  /** A path is accepted exactly when no segment is ".."; the place an accepted path names has plain
      components only, so it lies below the root. */
  lemma ResolveStaysInside(logical: string)
    ensures Resolve(logical).Ok? <==> ".." !in Segments(logical)
    ensures Resolve(logical).Ok? ==> AllPlain(Resolve(logical).value)
  {
    SegmentsOfTrimmed(logical);
    KeepRejects(Segments(logical));
  }

  /** Printing a place below the root and resolving the printed path gives the place back. */
  lemma ResolveAbs(names: seq<string>)
    requires AllPlain(names)
    ensures Resolve(Abs(names)) == Ok(names)
  {
    SegmentsOfTrimmed(Abs(names));
    SegmentsOfAbs(names);
    KeepPlain(names);
  }

  /** The logical path of a child entry. */
  function ChildLogical(parent: string, name: string): string {
    Below(TrimEnd(parent), name)
  }

  lemma SlashAtEnd(s: string, t: string)
    requires s != "" && s[|s| - 1] == '/' && t == s[..|s| - 1]
    ensures s == t + "/" + "" && Segments("") == []
  {
  }

  lemma {:induction false} SegmentsOfTrimEnd(s: string)
    ensures Segments(TrimEnd(s)) == Segments(s)
  {
    if s != "" && s[|s| - 1] == '/' {
      var t := s[..|s| - 1];
      SegmentsOfTrimEnd(t);
      SegmentsSplit(t, "");
      SlashAtEnd(s, t);
      AppendNone(Segments(t));
    }
  }

  /** For every accepted path, resolving the child's logical path leads to the child. */
  lemma ResolveChild(parent: string, name: string)
    requires Resolve(parent).Ok? && Plain(name)
    ensures Resolve(ChildLogical(parent, name)) == Ok(Resolve(parent).value + [name])
  {
    var base, child := TrimEnd(parent), ChildLogical(parent, name);
    SegmentsOfTrimmed(parent);
    SegmentsOfTrimEnd(parent);
    SegmentsOfTrimmed(child);
    SegmentsBelow(base, name);
    KeepOne(Segments(base), name);
  }

  lemma KeepOne(a: seq<string>, name: string)
    requires Keep(a).Ok? && Plain(name)
    ensures Keep(a + [name]) == Ok(Keep(a).value + [name])
  {
    KeepPlain([name]);
    KeepAppend(a, [name]);
  }

  // ---------------------------------------------------------------- paths as prefixes

  lemma AbsOfLast(names: seq<string>, init: seq<string>, last: string)
    requires names != [] && init == names[..|names| - 1] && last == names[|names| - 1]
    ensures Abs(names) == Below(Abs(init), last)
  {
  }

  lemma {:induction false} AbsStartsWithSlash(names: seq<string>)
    requires names != []
    ensures Abs(names) != "" && Abs(names)[0] == '/'
    ensures AllPlain(names) ==> |Abs(names)| > 1 && Abs(names)[1] != '/'
  {
    var init, last := names[..|names| - 1], names[|names| - 1];
    assert Abs(names) == Below(Abs(init), last);
    if init != [] {
      AbsStartsWithSlash(init);
    } else if AllPlain(names) {
      assert Plain(last) && Abs(names) == "/" + last;
    }
  }

  lemma {:induction false} AbsAppend(a: seq<string>, b: seq<string>)
    ensures Abs(a + b) == Abs(a) + Abs(b)
  {
    if b == [] {
      assert a + b == a;
    } else {
      var init, last := b[..|b| - 1], b[|b| - 1];
      AbsAppend(a, init);
      assert (a + b)[..|a + b| - 1] == a + init;
      AbsOfLast(a + b, a + init, last);
      var x, y := Abs(a), Abs(init);
      AppendAssoc(x, y, "/");
      AppendAssoc(x, y + "/", last);
    }
  }

  lemma AbsInjective(a: seq<string>, b: seq<string>)
    requires AllPlain(a) && AllPlain(b) && Abs(a) == Abs(b)
    ensures a == b
  {
    ResolveAbs(a);
    ResolveAbs(b);
  }

  predicate IsPrefix<T(==)>(a: seq<T>, b: seq<T>) {
    |a| <= |b| && b[..|a|] == a
  }

  /** The printed path of `a` with a trailing slash is a proper prefix of the printed path of `b`
      exactly when `a` is a proper prefix of `b`, component by component. */
  lemma PrefixOfAbs(a: seq<string>, b: seq<string>)
    requires AllPlain(a) && AllPlain(b)
    ensures IsPrefix(Abs(a) + "/", Abs(b)) <==> IsPrefix(a, b) && a != b
  {
    if IsPrefix(a, b) && a != b { AbsBelow(a, b); }
    if IsPrefix(Abs(a) + "/", Abs(b)) {
      var tail := Abs(b)[|Abs(a)| + 1..];
      assert Abs(b) == Abs(a) + "/" + tail;
      SegmentsSplit(Abs(a), tail);
      ResolvePlainSegments(a);
      ResolvePlainSegments(b);
      assert a != b by { assert |Abs(b)| == |Abs(a)| + 1 + |tail|; }
    }
  }

  lemma AbsBelow(a: seq<string>, b: seq<string>)
    requires IsPrefix(a, b) && a != b
    ensures IsPrefix(Abs(a) + "/", Abs(b))
  {
  }

  lemma AbsSplit(b: seq<string>, next: seq<string>, rest: seq<string>)
    requires |next| <= |b| && next == b[..|next|] && rest == b[|next|..]
    ensures Abs(b) == Abs(next) + Abs(rest)
  {
    assert b == next + rest;
    AbsAppend(next, rest);
  }

  lemma ResolvePlainSegments(names: seq<string>)
    requires AllPlain(names)
    ensures Segments(Abs(names)) == names
  {
    SegmentsOfAbs(names);
  }
}
