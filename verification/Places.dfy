/** Where a path leads: the router's reading of it, and then the store's own. */
module Places {
  import opened Results
  import opened Sequences
  import opened PathNames
  import opened Routing
  import opened VolumePaths

  /** A file below the home directory, or an object of a volume. */
  datatype Place = AtHome(names: seq<string>) | InVolume(fullName: string, location: seq<string>)

  /** The name a volume's store is asked for by. */
  function FullName(v: VolumePath): string {
    v.catalog + "." + v.schema + "." + v.volume
  }

  function HomePlace(inner: string): Option<Place> {
    if Resolve(inner).Ok? then Some(AtHome(Resolve(inner).value)) else None
  }

  function VolumePlace(path: string): Option<Place> {
    if Parse(path).Ok? && Parse(path).value.relative != "" then
      Some(InVolume(FullName(Parse(path).value), Segments(Parse(path).value.relative)))
    else None
  }

  /** None when the path is refused. */
  function PlaceOf(path: string): Option<Place> {
    match RouteOf(path)
    case Err(_) => None
    case Ok(Home(inner)) => HomePlace(inner)
    case Ok(Volumes(full)) => VolumePlace(full)
  }

  lemma HomeRoute(rest: string)
    requires rest != "" && rest[0] == '/'
    ensures PlaceOf(HOME + rest) == HomePlace(rest)
  {
    var path := HOME + rest;
    assert path[..|HOME|] == HOME && path[|HOME|..] == rest;
    assert path != HOME && path[|HOME|] == rest[0];
    assert StripPrefix(path, HOME) == Some(rest);
  }

  /** Every home file is reached under its canonical path. */
  lemma HomeFileSpelled(names: seq<string>)
    requires AllPlain(names) && names != []
    ensures PlaceOf(HOME + Abs(names)) == Some(AtHome(names))
  {
    AbsStartsWithSlash(names);
    HomeRoute(Abs(names));
    ResolveAbs(names);
  }

  /** Every volume file is reached under its canonical path. */
  lemma VolumeFileSpelled(path: string)
    requires Parse(path).Ok?
    ensures var v := Parse(path).value; PlaceOf(v.Absolute(v.relative)) == VolumePlace(path)
  {
    var v := Parse(path).value;
    ParseAbsolute(path);
    VolumeRoute(v, v.relative);
  }

  lemma VolumeRoute(v: VolumePath, rel: string)
    ensures PlaceOf(v.Absolute(rel)) == VolumePlace(v.Absolute(rel))
  {
    var catalog := Below(VOLUMES, v.catalog);
    var schema := Below(catalog, v.schema);
    assert IsPrefix(VOLUMES + "/", catalog);
    PrefixGoesOn(VOLUMES + "/", catalog, "/");
    PrefixGoesOn(VOLUMES + "/", catalog + "/", v.schema);
    PrefixGoesOn(VOLUMES + "/", schema, "/");
    PrefixGoesOn(VOLUMES + "/", schema + "/", v.volume);
    PrefixGoesOn(VOLUMES + "/", v.Home(), "/");
    PrefixGoesOn(VOLUMES + "/", v.Root(), TrimStart(rel));
    VolumesRouted(v.Absolute(rel));
  }

  lemma PrefixGoesOn(prefix: string, s: string, more: string)
    requires IsPrefix(prefix, s)
    ensures IsPrefix(prefix, s + more)
  {
  }

  lemma VolumesRouted(path: string)
    requires IsPrefix(VOLUMES + "/", path)
    ensures RouteOf(path) == Ok(Volumes(path))
  {
    assert path[1] == path[..|VOLUMES| + 1][1] == 'V' && HOME[1] == 'h';
    assert !IsPrefix(HOME, path);
  }

  lemma BelowHome(x: string)
    ensures "/home/" + x == HOME + ("/" + x)
    ensures "/home//" + x == HOME + ("//" + x)
  {
    AppendAssoc(HOME, "/", x);
    AppendAssoc(HOME, "//", x);
  }

  /** A doubled slash leads to the same place. */
  lemma DoubledSlashSamePlace(x: string)
    ensures PlaceOf("/home/" + x) == PlaceOf("/home//" + x)
  {
    BelowHome(x);
    SameHomePlace("/" + x, "//" + x);
  }

  lemma SameHomePlace(one: string, two: string)
    requires one != "" && one[0] == '/' && two == "/" + one
    ensures PlaceOf(HOME + one) == PlaceOf(HOME + two)
  {
    HomeRoute(one);
    HomeRoute(two);
    SameTrimmed(one, two);
  }

  lemma SameTrimmed(one: string, two: string)
    requires two == "/" + one
    ensures TrimStart(one) == TrimStart(two) && HomePlace(one) == HomePlace(two)
  {
    assert two[0] == '/' && two[1..] == one;
    assert TrimStart(two) == TrimStart(one);
  }
}
