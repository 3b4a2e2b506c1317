/** The router in front of the home and the volume store. */
module Routing {
  import opened Results
  import opened Sequences
  import opened ListingOrder
  import opened PathNames

  const HOME: string := "/home"
  const VOLUMES: string := "/Volumes"

  datatype Route = Home(inner: string) | Volumes(path: string)

  /** The rest of a path after a prefix, taken only at a path boundary. */
  function StripPrefix(path: string, prefix: string): Option<string> {
    if path == prefix then Some("")
    else if IsPrefix(prefix, path) && path[|prefix|] == '/' then Some(path[|prefix|..])
    else None
  }

  function RouteOf(path: string): StoreResult<Route> {
    var home := StripPrefix(path, HOME);
    if home.Some? then Ok(Home(if home.value == "" then "/" else home.value))
    else if path == VOLUMES || IsPrefix(VOLUMES + "/", path) then Ok(Volumes(path))
    else Err(InvalidArgument)
  }

  /** The prefix put back on a path the home store echoed. */
  function Rehome(inner: string): string {
    var trimmed := TrimStart(inner);
    if trimmed == "" then HOME else HOME + "/" + trimmed
  }

  /** Each path goes to exactly one store or is refused, and the home store is only ever handed a
      path that starts with a slash. */
  lemma RoutesOnce(path: string)
    ensures RouteOf(path).Ok? && RouteOf(path).value.Home? <==> path == HOME || IsPrefix(HOME + "/", path)
    ensures RouteOf(path).Ok? && RouteOf(path).value.Volumes? <==> path == VOLUMES || IsPrefix(VOLUMES + "/", path)
    ensures RouteOf(path).Ok? && RouteOf(path).value.Volumes? ==> RouteOf(path).value.path == path
    ensures RouteOf(path).Ok? && RouteOf(path).value.Home? ==>
      RouteOf(path).value.inner != "" && RouteOf(path).value.inner[0] == '/'
  {
  }

  lemma BoundaryPrefix(prefix: string, path: string)
    ensures IsPrefix(prefix + "/", path) <==> path != prefix && IsPrefix(prefix, path) && path[|prefix|] == '/'
  {
  }

  /** A home path is written canonically: `/home`, or `/home/` and a rest without leading slash. */
  predicate CanonicalHome(path: string) {
    path == HOME ||
    (IsPrefix(HOME + "/", path) && |path| > |HOME| + 1 && path[|HOME| + 1] != '/')
  }

  /** Rehoming undoes routing exactly on the canonical home paths. */
  lemma RehomeUndoesRouteIff(path: string)
    requires RouteOf(path).Ok? && RouteOf(path).value.Home?
    ensures Rehome(RouteOf(path).value.inner) == path <==> CanonicalHome(path)
  {
    if path == HOME {
      TrimOneSlash("");
      assert "/" + "" == "/";
    } else {
      BoundaryPrefix(HOME, path);
      var inner := path[|HOME|..];
      var rest := inner[1..];
      assert inner == "/" + rest && path == HOME + inner;
      TrimOneSlash(rest);
      AppendAssoc(HOME, "/", rest);
      assert rest != "" ==> rest[0] == path[|HOME| + 1];
      assert rest != "" && rest[0] == '/' ==> |Rehome(inner)| < |path|;
    }
  }

  /** A family that is not: what is routed with a doubled slash comes back with one, like the canonical
      path of the same file. */
  lemma RehomeForgetsSlash(x: string, one: string, two: string)
    requires x != "" && x[0] != '/' && one == "/" + x && two == "/" + one
    ensures Rehome(two) == Rehome(one) == HOME + one
  {
    TrimOneSlash(x);
    TrimOneSlash(one);
    AppendAssoc(HOME, "/", x);
  }

  lemma TrimOneSlash(rest: string)
    ensures TrimStart("/" + rest) == TrimStart(rest)
    ensures rest == "" || rest[0] != '/' ==> TrimStart(rest) == rest
    ensures rest != "" && rest[0] == '/' ==> |TrimStart(rest)| < |rest|
  {
  }

  /** Listing a canonical home path through the router names the children below that path, as if the
      home store were mounted there. */
  lemma ListedChildIsBelow(path: string, name: string)
    requires CanonicalHome(path) && Plain(name)
    ensures RouteOf(path).Ok? && RouteOf(path).value.Home?
    ensures Rehome(ChildLogical(RouteOf(path).value.inner, name)) == ChildLogical(path, name)
  {
    RoutesOnce(path);
    BoundaryPrefix(HOME, path);
    if path == HOME {
      ChildOfHome(HOME, name);
    } else {
      var rest := path[|HOME| + 1..];
      SplitAtHome(path, rest);
      ChildBelowHome(HOME, rest, name);
    }
  }

  lemma SplitAtHome(path: string, rest: string)
    requires IsPrefix(HOME + "/", path) && rest == path[|HOME| + 1..]
    ensures path == HOME + "/" + rest && path[|HOME|..] == "/" + rest
  {
  }

  lemma ChildOfHome(home: string, name: string)
    requires Plain(name) && home != "" && home[|home| - 1] != '/'
    ensures TrimStart(ChildLogical("/", name)) == name
    ensures home + "/" + name == ChildLogical(home, name)
  {
  }

  lemma ChildBelowHome(home: string, rest: string, name: string)
    requires rest != "" && rest[0] != '/' && Plain(name)
    ensures TrimStart(ChildLogical("/" + rest, name)) != ""
    ensures home + "/" + TrimStart(ChildLogical("/" + rest, name)) == ChildLogical(home + "/" + rest, name)
  {
    var base := TrimEnd(rest);
    var child := base + "/" + name;
    TrimEndAfter("/", rest);
    TrimEndAfter(home + "/", rest);
    BelowTail("/", base, name);
    BelowTail(home + "/", base, name);
    assert base[0] == rest[0];
    TrimOneSlash(child);
  }

  lemma BelowTail(a: string, b: string, name: string)
    ensures Below(a + b, name) == a + (b + "/" + name)
  {
  }

  lemma {:induction false} TrimEndAfter(a: string, b: string)
    requires b != "" && b[0] != '/'
    ensures TrimEnd(a + b) == a + TrimEnd(b) && TrimEnd(b) != "" && TrimEnd(b)[0] == b[0]
  {
    if b[|b| - 1] == '/' {
      var c := b[..|b| - 1];
      assert (a + b)[..|a + b| - 1] == a + c;
      assert c[0] == b[0];
      TrimEndAfter(a, c);
    } else {
      assert (a + b)[|a + b| - 1] == b[|b| - 1];
    }
  }

  // ---------------------------------------------------------------- resuming through the router

  function Rehomed(es: seq<Entry>): (r: seq<Entry>)
    ensures |r| == |es| && forall i :: 0 <= i < |es| ==> r[i] == es[i].(path := Rehome(es[i].path))
  {
    if es == [] then [] else [es[0].(path := Rehome(es[0].path))] + Rehomed(es[1..])
  }

  /** What the router answers to a listing resumed after `after`: the home store filters with the
      caller's path as it is, and only the entries it returns get their prefix back. */
  function RoutedAfter(inner: seq<Entry>, after: string): seq<Entry> {
    Rehomed(After(inner, Some(after)))
  }

  /** What the caller asked for. */
  function WantedAfter(inner: seq<Entry>, after: string): seq<Entry> {
    After(Rehomed(inner), Some(after))
  }

  /** The canonical path of a place below the root. */
  ghost predicate PathBelowRoot(p: string) {
    exists names :: names != [] && AllPlain(names) && p == Abs(names)
  }

  /** A listing the home store gives for a canonical path: sorted, of canonical paths. */
  ghost predicate HomeListing(inner: seq<Entry>) {
    Ascending(inner) && forall e <- inner :: PathBelowRoot(e.path)
  }

  lemma {:induction false} RehomedElements(es: seq<Entry>, e: Entry)
    ensures e in Rehomed(es) <==> exists x :: x in es && e == x.(path := Rehome(x.path))
  {
    if es != [] {
      assert es == [es[0]] + es[1..];
      RehomedElements(es[1..], e);
    }
  }

  /** Different entries of a home listing stay different. */
  lemma RehomeInjective(inner: seq<Entry>, x: Entry, y: Entry)
    requires HomeListing(inner) && x in inner && y in inner && x.(path := Rehome(x.path)) == y.(path := Rehome(y.path))
    ensures x == y
  {
    RehomeRooted(x.path);
    RehomeRooted(y.path);
    AppendCancel(HOME, x.path, y.path);
    assert x == y.(path := x.path);
  }

  /** Which entries the router answers and which were asked for: an entry after `after` only with its
      prefix is lost, and one after `after` only without it is given although it was read before. */
  lemma RoutedResumeEntries(inner: seq<Entry>, after: string, x: Entry)
    requires HomeListing(inner) && x in inner
    ensures var routed := x.(path := HOME + x.path);
      && (routed in RoutedAfter(inner, after) <==> Less(after, x.path))
      && (routed in WantedAfter(inner, after) <==> Less(after, HOME + x.path))
  {
    var routed := x.(path := HOME + x.path);
    RehomeRooted(x.path);
    AfterElements(inner, after);
    RehomedElements(After(inner, Some(after)), routed);
    AfterElements(Rehomed(inner), after);
    RehomedElements(inner, routed);
    if routed in RoutedAfter(inner, after) {
      var y :| y in After(inner, Some(after)) && routed == y.(path := Rehome(y.path));
      RehomeInjective(inner, x, y);
    }
  }

  /** On one listing the router answers a resumed call rightly exactly when every entry is after
      `after` with its prefix if and only if it is without. */
  lemma RoutedResumeRightIff(inner: seq<Entry>, after: string)
    requires HomeListing(inner)
    ensures RoutedAfter(inner, after) == WantedAfter(inner, after) <==>
      forall e <- inner :: Less(after, e.path) <==> Less(after, HOME + e.path)
  {
    if forall e <- inner :: Less(after, e.path) <==> Less(after, HOME + e.path) {
      SameFilter(inner, after);
    } else {
      var e :| e in inner && !(Less(after, e.path) <==> Less(after, HOME + e.path));
      RoutedResumeEntries(inner, after, e);
    }
  }

  /** Resuming after a path the router gave: right exactly when no entry lies between that path with
      its prefix and without. */
  lemma RoutedResumeRightAfterHomeIff(inner: seq<Entry>, a: string)
    requires HomeListing(inner)
    ensures RoutedAfter(inner, HOME + a) == WantedAfter(inner, HOME + a) <==>
      forall e <- inner :: Less(HOME + a, e.path) <==> Less(a, e.path)
  {
    RoutedResumeRightIff(inner, HOME + a);
    forall e | e in inner ensures Less(HOME + a, HOME + e.path) <==> Less(a, e.path) {
      LessUnderPrefix(HOME, a, e.path);
    }
  }

  lemma {:induction false} SameFilter(inner: seq<Entry>, after: string)
    requires forall e <- inner :: PathBelowRoot(e.path) && (Less(after, e.path) <==> Less(after, HOME + e.path))
    ensures RoutedAfter(inner, after) == WantedAfter(inner, after)
  {
    if inner != [] {
      var e, rest := inner[0], inner[1..];
      var wanted := Rehomed(inner);
      SameFilter(rest, after);
      RehomeRooted(e.path);
      assert wanted[0] == e.(path := HOME + e.path) && wanted[1..] == Rehomed(rest);
      if Less(after, e.path) {
        var kept := After(inner, Some(after));
        assert kept[0] == e && kept[1..] == After(rest, Some(after));
      }
    }
  }

  /** What a caller may resume after without loss, whatever the home store lists. */
  predicate SafeToResume(after: string) {
    after == "" || after == "/" || after[0] != '/'
  }

  /** Resuming through the router is right for every home listing exactly after a string that starts
      with no slash or is nothing but one; so never after a path it has listed. */
  lemma RoutedResumeSafeIff(after: string)
    ensures (forall inner: seq<Entry> :: HomeListing(inner) ==> RoutedAfter(inner, after) == WantedAfter(inner, after))
      <==> SafeToResume(after)
  {
    if SafeToResume(after) {
      forall inner: seq<Entry> | HomeListing(inner) ensures RoutedAfter(inner, after) == WantedAfter(inner, after) {
        forall e | e in inner ensures Less(after, e.path) <==> Less(after, HOME + e.path) {
          RehomeRooted(e.path);
          SafeIsFirstLetter(after, e.path);
          SafeIsFirstLetter(after, HOME + e.path);
        }
        RoutedResumeRightIff(inner, after);
      }
    } else {
      var names := Misjudged(after);
      var inner := [Entry(Abs(names), false, 0)];
      RoutedResumeRightIff(inner, after);
      assert inner[0] in inner;
      assert HomeListing(inner);
    }
  }

  /** Against a path that starts with a slash and goes on, such a string compares by its first letter. */
  lemma SafeIsFirstLetter(after: string, p: string)
    requires SafeToResume(after) && |p| > 1 && p[0] == '/'
    ensures Less(after, p) <==> after == "" || after[0] <= '/'
  {
    if after == "/" { assert after[1..] == "" && p[1..] != ""; }
  }

  /** After any other string there is a place whose file the router misjudges. */
  lemma Misjudged(after: string) returns (names: seq<string>)
    requires !SafeToResume(after)
    ensures names != [] && AllPlain(names)
    ensures !(Less(after, Abs(names)) <==> Less(after, HOME + Abs(names)))
  {
    if IsPrefix(HOME, after) {
      var a := after[|HOME|..];
      names := Between(a);
      assert after == HOME + a;
      LessUnderPrefix(HOME, a, Abs(names));
    } else {
      var name := if Less(after, HOME) then EarlyName(after[1]) else LateName(after[1..]);
      names := [name];
      OneName(name);
      DecidedByPrefix(HOME, after, "/" + name);
      if Less(after, HOME) {
        NameIsEarlier(after, name);
      } else {
        assert after == "/" + after[1..];
        NameIsLater("/", after[1..]);
      }
    }
  }

  lemma OneName(name: string)
    requires Plain(name)
    ensures AllPlain([name]) && Abs([name]) == "/" + name
  {
    assert Abs([]) == "";
  }

  /** A name that does not come after a rest beginning with `c`. */
  function EarlyName(c: char): (name: string)
    ensures Plain(name)
  {
    if c == '/' || c == '.' then "-" else [c]
  }

  lemma NameIsEarlier(after: string, name: string)
    requires |after| > 1 && after[0] == '/' && name == EarlyName(after[1])
    ensures !Less(after, "/" + name)
  {
    var rest, path := after[1..], "/" + name;
    assert path[1..] == name && rest[0] == after[1] && name[1..] == "";
    assert !Less(rest[1..], "");
    assert !Less(rest, name);
  }

  /** A name that comes after the string: its first segment with a digit, a digit being after the
      slash. */
  function LateName(s: string): (name: string)
    ensures Plain(name)
  {
    var name := s[..FirstSlash(s)] + "0";
    assert name[|name| - 1] == '0';
    name
  }

  lemma NameIsLater(prefix: string, s: string)
    ensures Less(prefix + s, prefix + LateName(s))
  {
    var i := FirstSlash(s);
    var segment, rest := s[..i], s[i..];
    assert s == segment + rest;
    assert rest == "" || rest[0] == '/';
    assert Less(rest, "0");
    LessUnderPrefix(segment, rest, "0");
    LessUnderPrefix(prefix, s, LateName(s));
  }

  /** Against everything that goes on from a prefix a string without it compares as against the prefix. */
  lemma {:induction false} DecidedByPrefix(prefix: string, s: string, more: string)
    requires !IsPrefix(prefix, s)
    ensures Less(s, prefix + more) <==> Less(s, prefix)
  {
    if s != "" && s[0] == prefix[0] {
      assert (prefix + more)[1..] == prefix[1..] + more;
      PrefixStep(prefix, s);
      DecidedByPrefix(prefix[1..], s[1..], more);
    }
  }

  lemma PrefixStep(prefix: string, s: string)
    requires prefix != "" && s != "" && s[0] == prefix[0]
    ensures IsPrefix(prefix, s) <==> IsPrefix(prefix[1..], s[1..])
  {
    if IsPrefix(prefix[1..], s[1..]) {
      assert s[..|prefix|] == [s[0]] + s[1..][..|prefix| - 1];
    }
    if IsPrefix(prefix, s) {
      assert s[..|prefix|][1..] == s[1..][..|prefix| - 1];
    }
  }

  /** Some place lies between a string and the same string with `/home` in front, whichever comes
      first. */
  lemma {:induction false} Between(a: string) returns (names: seq<string>)
    ensures names != [] && AllPlain(names)
    ensures !(Less(a, Abs(names)) <==> Less(HOME + a, Abs(names)))
    decreases |a|
  {
    if IsPrefix(HOME, a) {
      var b := a[|HOME|..];
      var deeper := Between(b);
      assert a == HOME + b;
      names := ["home"] + deeper;
      UnderHome(deeper);
      LessUnderPrefix(HOME, b, Abs(deeper));
      LessUnderPrefix(HOME, a, Abs(deeper));
    } else if Less(a, HOME) {
      names := ["home"];
      OneName("home");
      NotLessThanPrefix(HOME, a);
    } else {
      var more;
      names, more := LaterBelowHome(a);
      DecidedByPrefix(HOME, a, more);
      LessUnderPrefix(HOME, a, more);
    }
  }

  lemma UnderHome(deeper: seq<string>)
    requires AllPlain(deeper)
    ensures AllPlain(["home"] + deeper) && Abs(["home"] + deeper) == HOME + Abs(deeper)
  {
    OneName("home");
    AbsAppend(["home"], deeper);
  }

  lemma {:induction false} NotLessThanPrefix(prefix: string, more: string)
    ensures !Less(prefix + more, prefix)
  {
    LessUnderPrefix(prefix, more, "");
    assert prefix + "" == prefix;
  }

  /** A place whose path is `/home` and something after `a`. */
  lemma LaterBelowHome(a: string) returns (names: seq<string>, more: string)
    ensures names != [] && AllPlain(names) && Abs(names) == HOME + more && Less(a, more)
  {
    if a != "" && a[0] == '/' {
      var name := LateName(a[1..]);
      names, more := ["home"] + [name], "/" + name;
      OneName(name);
      UnderHome([name]);
      NameIsLater("/", a[1..]);
      assert a == "/" + a[1..];
    } else {
      more := LateName(a);
      names := BesideHome(more);
      NameIsLater("", a);
      assert "" + a == a && "" + more == more;
    }
  }

  lemma BesideHome(more: string) returns (names: seq<string>)
    requires Plain(more)
    ensures names != [] && AllPlain(names) && Abs(names) == HOME + more
  {
    var name := "home" + more;
    assert name[0] == 'h';
    names := [name];
    OneName(name);
  }

  lemma RehomeRooted(p: string)
    requires PathBelowRoot(p)
    ensures Rehome(p) == HOME + p && |p| > 1 && p[0] == '/'
  {
    var names :| names != [] && AllPlain(names) && p == Abs(names);
    AbsStartsWithSlash(names);
    assert TrimStart(p) == p[1..];
  }

  lemma {:induction false} LessUnderPrefix(prefix: string, a: string, b: string)
    ensures Less(prefix + a, prefix + b) <==> Less(a, b)
  {
    if prefix == "" {
      assert prefix + a == a && prefix + b == b;
    } else {
      assert (prefix + a)[1..] == prefix[1..] + a && (prefix + b)[1..] == prefix[1..] + b;
      LessUnderPrefix(prefix[1..], a, b);
    }
  }

  /** The concrete loss: after reading `/home/a` the file `/home/b` is never listed. */
  lemma RoutedResumeLoses()
    ensures var inner := [Entry("/b", false, 0)];
      HomeListing(inner) && RoutedAfter(inner, "/home/a") == [] && WantedAfter(inner, "/home/a") == Rehomed(inner)
  {
    var y := Entry("/b", false, 0);
    assert "/b"[1..] == "b" && "/home/a"[1..] == "home/a";
    assert !Less("/home/a", "/b");
    assert [y][1..] == [];
    OneName("b");
    RehomeRooted("/b");
    assert "/a"[1..] == "a" && Less("/a", "/b");
    LessUnderPrefix(HOME, "/a", "/b");
    assert HOME + "/a" == "/home/a";
    var r := Rehomed([y]);
    assert r == [r[0]] && r[1..] == [];
  }
}
