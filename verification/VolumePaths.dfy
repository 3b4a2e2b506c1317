/** Unity Catalog volume paths: parsing, re-attaching the volume prefix and taking it off again; and
    the hierarchical listing that caps before it resumes. */
module VolumePaths {
  import opened AsciiText
  import opened Results
  import opened Sequences
  import opened ListingOrder
  import opened PathNames

  datatype VolumePath = VolumePath(catalog: string, schema: string, volume: string, relative: string) {
    /** `/Volumes/<catalog>/<schema>/<volume>`. */
    function Home(): string {
      Below(Below(Below("/Volumes", catalog), schema), volume)
    }

    function Root(): string {
      Home() + "/"
    }

    /** `absolute`: the volume's prefix in front of a store-relative path. */
    function Absolute(rel: string): string {
      Root() + TrimStart(rel)
    }

    /** `relativize`: the prefix taken off; a path without it only loses its leading slashes. */
    function Relativize(path: string): string {
      if IsPrefix(Root(), path) then path[|Root()|..] else TrimStart(path)
    }
  }

  function Parse(path: string): StoreResult<VolumePath> {
    var segments := Segments(TrimStart(path));
    if |segments| >= 4 && EqualsIgnoreCase(segments[0], "Volumes") then
      Ok(VolumePath(segments[1], segments[2], segments[3], Join(segments[4..], "/")))
    else Err(InvalidArgument)
  }

  lemma {:induction false} SegmentsOfJoin(parts: seq<string>)
    requires AllUnbroken(parts)
    ensures Segments(Join(parts, "/")) == parts
  {
    if parts != [] {
      var first, rest := parts[0], parts[1..];
      SegmentsOfName(first);
      if rest != [] {
        SegmentsOfJoin(rest);
        SegmentsSplit(first, Join(rest, "/"));
      }
      assert parts == [first] + rest;
    }
  }

  lemma SegmentsOfHome(v: VolumePath)
    requires Unbroken(v.catalog) && Unbroken(v.schema) && Unbroken(v.volume)
    ensures Segments(v.Home()) == ["Volumes", v.catalog, v.schema, v.volume]
  {
    SegmentsOfThree("/Volumes", v.catalog, v.schema, v.volume);
    SegmentsOfKind();
    InFront("Volumes", v.catalog, v.schema, v.volume);
  }

  lemma InFront<T>(a: T, l: T, m: T, n: T)
    ensures [a] + [l, m, n] == [a, l, m, n]
  {
  }

  lemma SegmentsOfThree(a: string, l: string, m: string, n: string)
    requires Unbroken(l) && Unbroken(m) && Unbroken(n)
    ensures Segments(Below(Below(Below(a, l), m), n)) == Segments(a) + [l, m, n]
  {
    SegmentsOfTwo(a, l, m);
    SegmentsBelow(Below(Below(a, l), m), n);
    AppendAssoc(Segments(a), [l, m], [n]);
  }

  lemma SegmentsOfTwo(a: string, m: string, n: string)
    requires Unbroken(m) && Unbroken(n)
    ensures Segments(Below(Below(a, m), n)) == Segments(a) + [m, n]
  {
    SegmentsBelow(a, m);
    SegmentsBelow(Below(a, m), n);
    AppendAssoc(Segments(a), [m], [n]);
  }

  lemma SegmentsOfKind()
    ensures Segments("/Volumes") == ["Volumes"]
  {
    assert "/Volumes" == Below("", "Volumes");
    SegmentsBelow("", "Volumes");
  }

  lemma SegmentsOfAbsolute(v: VolumePath, rel: string)
    requires Unbroken(v.catalog) && Unbroken(v.schema) && Unbroken(v.volume)
    ensures Segments(TrimStart(v.Absolute(rel))) == ["Volumes", v.catalog, v.schema, v.volume] + Segments(rel)
  {
    SegmentsOfTrimmed(v.Absolute(rel));
    SegmentsSplit(v.Home(), TrimStart(rel));
    SegmentsOfHome(v);
    SegmentsOfTrimmed(rel);
  }

  /** Every accepted path, printed in its absolute form, parses to the same value; the parsed parts
      are non-empty and hold no slash. */
  lemma ParseAbsolute(path: string)
    requires Parse(path).Ok?
    ensures var v := Parse(path).value;
      Unbroken(v.catalog) && Unbroken(v.schema) && Unbroken(v.volume) && Parse(v.Absolute(v.relative)) == Ok(v)
  {
    var segments := Segments(TrimStart(path));
    var v, rest := Parse(path).value, segments[4..];
    assert Unbroken(segments[1]) && Unbroken(segments[2]) && Unbroken(segments[3]);
    assert AllUnbroken(rest);
    SegmentsOfJoin(rest);
    SegmentsOfAbsolute(v, v.relative);
    var s := ["Volumes", v.catalog, v.schema, v.volume] + rest;
    assert s[4..] == rest;
  }

  /** Taking the prefix off an absolute path gives the relative path back exactly when that has no
      leading slash. */
  lemma RelativizeAbsoluteIff(v: VolumePath, rel: string)
    ensures v.Relativize(v.Absolute(rel)) == rel <==> rel == "" || rel[0] != '/'
  {
  }

  // ---------------------------------------------------------------- the hierarchical listing

  /** What the volume store answers to a resumed, capped, non-recursive listing: the cap is taken
      from the first page, and only then the entries up to `after` are dropped. */
  function CappedThenResumed(full: seq<Entry>, after: string, cap: nat): seq<Entry> {
    After(Capped(full, Some(cap)), Some(after))
  }

  /** That answer is the requested window exactly when nothing has to be skipped, everything has, the
      cap is zero, or the cap covers the listing. */
  lemma CapBeforeResumeIff(full: seq<Entry>, after: string, cap: nat)
    requires Sorted(full)
    ensures CappedThenResumed(full, after, cap) == Window(full, Some(after), Some(cap)) <==>
      || full == [] || Less(after, full[0].path) || !Less(after, full[|full| - 1].path)
      || cap == 0 || cap >= |full|
  {
    var k := SplitAfter(full, after);
    if k < |full| {
      SplitIsAfter(full, after, k);
      LastAfter(full, after, k);
    }
    if cap < |full| {
      var page := full[..cap];
      assert Sorted(page);
      AfterIsSuffix(page, after, if k < cap then k else cap);
      SlicesAgreeIff(full, k, cap);
    }
  }

  /** Two files, the first already read, one to be answered: the second is never listed. */
  lemma CapBeforeResumeLoses(a: Entry, b: Entry)
    requires Less(a.path, b.path)
    ensures CappedThenResumed([a, b], a.path, 1) == [] && Window([a, b], Some(a.path), Some(1)) == [b]
  {
    LessIrreflexive(a.path);
    var full := [a, b];
    assert full[..1] == [a] && [a][1..] == [] && full[1..] == [b] && [b][1..] == [];
    assert After([a], Some(a.path)) == [];
    assert After(full, Some(a.path)) == After([b], Some(a.path)) == [b];
  }

  lemma SplitIsAfter(full: seq<Entry>, after: string, k: nat)
    requires k < |full| && After(full, Some(after)) == full[k..]
    ensures Less(after, full[k].path)
  {
    assert full[k] in After(full, Some(after));
    AfterElements(full, after);
  }

  /** Cutting at `cap` and then dropping `k` gives as many elements as the other way round only at the
      ends. */
  lemma SlicesAgreeIff<T>(full: seq<T>, k: nat, cap: nat)
    requires k <= |full| && cap < |full|
    ensures var rest := full[k..];
      full[..cap][if k < cap then k else cap..] == (if cap < |rest| then rest[..cap] else rest)
      <==> k == 0 || k == |full| || cap == 0
  {
    var rest := full[k..];
    var kept := full[..cap][if k < cap then k else cap..];
    if k == 0 || k == |full| || cap == 0 {
      assert kept == if cap < |rest| then rest[..cap] else rest;
    } else {
      assert |kept| < |if cap < |rest| then rest[..cap] else rest|;
    }
  }

  lemma LastAfter(full: seq<Entry>, after: string, k: nat)
    requires Sorted(full) && k < |full| && Less(after, full[k].path)
    ensures Less(after, full[|full| - 1].path)
  {
    if k < |full| - 1 { LessMixed(after, full[k].path, full[|full| - 1].path); }
  }
}
