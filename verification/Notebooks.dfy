/** Notebook sessions: working copies of volume files. Copies and sessions go by the name the path's
    spelling hashes to, files by the place the stores say the path leads to. */
module Notebooks {
  import opened Results
  import opened Fnv
  import opened Places

  /** File contents; they are only copied. */
  type Contents = seq<Byte>

  // ---------------------------------------------------------------- the desk

  /** How the stores read paths (None when a path is refused), the files in them, the working copies on
      disk, and the open sessions with the path each was opened under. */
  datatype Desk = Desk(place: ByteText -> Option<Place>, files: map<Place, Contents>,
                       copies: map<string, Contents>, sessions: map<string, ByteText>)

  /** A session's id is the name of its path, which leads somewhere, and its working copy is there. */
  ghost predicate Inv(d: Desk) {
    forall id <- d.sessions :: WorkingName(d.sessions[id]) == id && id in d.copies && d.place(d.sessions[id]).Some?
  }

  datatype Failure = NoSuchFile | UnknownSession | Io

  predicate CanOpen(d: Desk, path: ByteText) {
    d.place(path).Some? && d.place(path).value in d.files
  }

  /** What reading the path gives. */
  function FileOf(d: Desk, path: ByteText): Contents
    requires CanOpen(d, path)
  {
    d.files[d.place(path).value]
  }

  /** What a write that fails after `n` bytes leaves. */
  function Beginning(contents: Contents, n: nat): Contents {
    if n < |contents| then contents[..n] else contents
  }

  /** `open_notebook`: the file is read, copied, and its session recorded, over any session of the same
      name. */
  function Opened(d: Desk, path: ByteText): Result<Desk, Failure> {
    if !CanOpen(d, path) then Err(NoSuchFile)
    else
      var name := WorkingName(path);
      Ok(d.(copies := d.copies[name := FileOf(d, path)], sessions := d.sessions[name := path]))
  }

  /** An opening that fails once the working copy is begun or written. */
  function CutOpen(d: Desk, path: ByteText, n: nat): Desk {
    if !CanOpen(d, path) then d else d.(copies := d.copies[WorkingName(path) := Beginning(FileOf(d, path), n)])
  }

  /** The notebook server writes a working copy. */
  function Edited(d: Desk, id: string, contents: Contents): Desk {
    d.(copies := d.copies[id := contents])
  }

  /** What a sync needs. */
  predicate CanSync(d: Desk, id: string) {
    id in d.sessions && id in d.copies && d.place(d.sessions[id]).Some?
  }

  /** The file behind a session, replaced. */
  function Stored(d: Desk, id: string, contents: Contents): Desk
    requires CanSync(d, id)
  {
    d.(files := d.files[d.place(d.sessions[id]).value := contents])
  }

  /** `sync_notebook`: the working copy goes back to where the session's path leads. */
  function Synced(d: Desk, id: string): Result<Desk, Failure> {
    if id !in d.sessions then Err(UnknownSession)
    else if !CanSync(d, id) then Err(Io)
    else Ok(Stored(d, id, d.copies[id]))
  }

  /** A sync that fails once the file is emptied or partly written. */
  function CutSync(d: Desk, id: string, n: nat): Desk {
    if CanSync(d, id) then Stored(d, id, Beginning(d.copies[id], n)) else d
  }

  /** `close_notebook`: the session and its working copy go; an unknown id is no error. */
  function Closed(d: Desk, id: string): Desk {
    if id in d.sessions then d.(sessions := d.sessions - {id}, copies := d.copies - {id}) else d
  }

  /** What a failed opening may leave, and a failed sync. */
  ghost predicate MaybeCutOpen(d: Desk, path: ByteText, e: Desk) {
    e == d || exists n: nat :: e == CutOpen(d, path, n)
  }

  ghost predicate MaybeCutSync(d: Desk, id: string, e: Desk) {
    e == d || exists n: nat :: e == CutSync(d, id, n)
  }

  lemma OpenCutAt(d: Desk, path: ByteText, n: nat, e: Desk)
    requires e == CutOpen(d, path, n)
    ensures MaybeCutOpen(d, path, e)
  {
  }

  lemma SyncCutAt(d: Desk, id: string, n: nat, e: Desk)
    requires e == CutSync(d, id, n)
    ensures MaybeCutSync(d, id, e)
  {
  }

  /** A sync after a failed one gives what it would have given without. */
  lemma RetryStores(d: Desk, id: string, n: nat)
    requires CanSync(d, id)
    ensures Synced(CutSync(d, id, n), id) == Synced(d, id)
  {
    var at, part, contents := d.place(d.sessions[id]).value, Beginning(d.copies[id], n), d.copies[id];
    assert d.files[at := part][at := contents] == d.files[at := contents];
  }

  class NotebookServer {
    const place: ByteText -> Option<Place>
    var files: map<Place, Contents>
    var copies: map<string, Contents>
    var sessions: map<string, ByteText>

    ghost function State(): Desk
      reads this
    {
      Desk(place, files, copies, sessions)
    }

    ghost predicate Valid()
      reads this
    {
      Inv(State())
    }

    constructor (place: ByteText -> Option<Place>, files: map<Place, Contents>)
      ensures Valid() && State() == Desk(place, files, map[], map[])
    {
      this.place, this.files, copies, sessions := place, files, map[], map[];
    }

    /** Making the directory of the working copies, reading the file, writing the copy and starting the
        notebook server can each fail. */
    method Open(path: ByteText) returns (r: Result<string, Failure>)
      requires Valid()
      modifies this
      ensures Valid()
      ensures r.Ok? ==> r.value == WorkingName(path) && Opened(old(State()), path) == Ok(State())
      ensures r.Err? ==> MaybeCutOpen(old(State()), path, State())
      ensures Opened(old(State()), path).Err? ==> r.Err?
    {
      ghost var before := State();
      if * { return Err(Io); }
      var at := place(path);
      if at.None? || at.value !in files { return Err(NoSuchFile); }
      if * { return Err(Io); }
      var name, contents := WorkingName(path), files[at.value];
      if * {
        var n: nat := *;
        copies := copies[name := Beginning(contents, n)];
        OpenCutAt(before, path, n, State());
        return Err(Io);
      }
      copies := copies[name := contents];
      OpenCutAt(before, path, |contents|, State());
      if * { return Err(Io); }
      sessions := sessions[name := path];
      return Ok(name);
    }

    method Edit(id: string, contents: Contents)
      requires Valid()
      modifies this
      ensures Valid() && State() == Edited(old(State()), id, contents)
    {
      copies := copies[id := contents];
    }

    /** Storing may fail; the home store empties the file before it writes, so a failure can leave a
        beginning of the working copy behind the path. The working copy itself is untouched, and a later
        sync gives what this one would have. */
    method Sync(id: string) returns (r: Result<(), Failure>)
      requires Valid()
      modifies this`files
      ensures Valid()
      ensures r.Ok? ==> Synced(old(State()), id) == Ok(State())
      ensures r.Err? ==> MaybeCutSync(old(State()), id, State())
      ensures r.Err? ==> Synced(State(), id) == Synced(old(State()), id)
      ensures id !in sessions ==> r == Err(UnknownSession) && State() == old(State())
    {
      if id !in sessions { return Err(UnknownSession); }
      var at, contents := place(sessions[id]).value, copies[id];
      if * {
        ghost var before := State();
        if * {
          var n: nat := *;
          files := files[at := Beginning(contents, n)];
          SyncCutAt(before, id, n, State());
          RetryStores(before, id, n);
        }
        return Err(Io);
      }
      files := files[at := contents];
      return Ok(());
    }

    method Close(id: string)
      requires Valid()
      modifies this
      ensures Valid() && State() == Closed(old(State()), id)
    {
      if id in sessions {
        sessions := sessions - {id};
        copies := copies - {id};
      }
    }
  }

  // ---------------------------------------------------------------- runs

  /** What somebody does between opening a notebook and syncing it; the cut acts fail on the way. */
  datatype Act =
    | OpenOther(path: ByteText)
    | OpenCut(path: ByteText, n: nat)
    | EditCopy(id: string, contents: Contents)
    | SyncOther(id: string)
    | SyncCut(id: string, n: nat)
    | CloseOther(id: string)

  function Acted(d: Desk, act: Act): Desk {
    match act
    case OpenOther(path) => if Opened(d, path).Ok? then Opened(d, path).value else d
    case OpenCut(path, n) => CutOpen(d, path, n)
    case EditCopy(id, contents) => Edited(d, id, contents)
    case SyncOther(id) => if Synced(d, id).Ok? then Synced(d, id).value else d
    case SyncCut(id, n) => CutSync(d, id, n)
    case CloseOther(id) => Closed(d, id)
  }

  function ActedAll(d: Desk, acts: seq<Act>): Desk
    decreases |acts|
  {
    if acts == [] then d else ActedAll(Acted(d, acts[0]), acts[1..])
  }

  /** The name an act works under. */
  function NameOf(act: Act): string {
    if act.OpenOther? || act.OpenCut? then WorkingName(act.path) else act.id
  }

  /** The notebook named `n` is open under path `a`, with this working copy. */
  predicate OpenOn(d: Desk, n: string, a: ByteText, copy: Contents) {
    n in d.sessions && d.sessions[n] == a && n in d.copies && d.copies[n] == copy
  }

  lemma ActKeeps(d: Desk, act: Act)
    requires Inv(d)
    ensures Inv(Acted(d, act)) && Acted(d, act).place == d.place
  {
  }

  lemma ActLeaves(d: Desk, n: string, a: ByteText, copy: Contents, act: Act)
    requires OpenOn(d, n, a, copy) && NameOf(act) != n
    ensures OpenOn(Acted(d, act), n, a, copy)
  {
  }

  /** A notebook's session and its working copy are its own: no act under another name touches them. */
  lemma {:induction false} OthersUndisturbed(d: Desk, n: string, a: ByteText, copy: Contents, acts: seq<Act>)
    requires Inv(d) && OpenOn(d, n, a, copy)
    requires forall act <- acts :: NameOf(act) != n
    ensures var e := ActedAll(d, acts); Inv(e) && e.place == d.place && OpenOn(e, n, a, copy)
    decreases |acts|
  {
    if acts != [] {
      assert NameOf(acts[0]) != n;
      ActKeeps(d, acts[0]);
      ActLeaves(d, n, a, copy, acts[0]);
      OthersUndisturbed(Acted(d, acts[0]), n, a, copy, acts[1..]);
    }
  }

  // ---------------------------------------------------------------- the file behind a notebook

  /** What the act writes back to the stores: where, and what. */
  function WritesBack(d: Desk, act: Act): Option<(Place, Contents)> {
    if (act.SyncOther? || act.SyncCut?) && CanSync(d, act.id) then
      var copy := d.copies[act.id];
      Some((d.place(d.sessions[act.id]).value, if act.SyncCut? then Beginning(copy, act.n) else copy))
    else None
  }

  /** The act syncs, under whatever name and perhaps not to the end, a session whose path leads to this
      place, and writes something else than the file holds. */
  predicate Overwrites(d: Desk, act: Act, at: Place)
    requires at in d.files
  {
    WritesBack(d, act).Some? && WritesBack(d, act).value.0 == at && WritesBack(d, act).value.1 != d.files[at]
  }

  /** At every moment of the run the file holds these contents. */
  ghost predicate HoldsAlways(d: Desk, acts: seq<Act>, at: Place, contents: Contents)
    decreases |acts|
  {
    && at in d.files && d.files[at] == contents
    && (acts != [] ==> HoldsAlways(Acted(d, acts[0]), acts[1..], at, contents))
  }

  /** Some act of the run overwrites the file. */
  ghost predicate OverwrittenIn(d: Desk, acts: seq<Act>, at: Place) {
    exists k :: 0 <= k < |acts| && var e := ActedAll(d, acts[..k]); at in e.files && Overwrites(e, acts[k], at)
  }

  lemma ActOverwritesIff(d: Desk, act: Act, at: Place)
    requires at in d.files
    ensures at in Acted(d, act).files
    ensures Acted(d, act).files[at] == d.files[at] <==> !Overwrites(d, act, at)
  {
  }

  lemma {:induction false} FirstActFirst(d: Desk, acts: seq<Act>, at: Place)
    requires acts != [] && at in d.files
    ensures OverwrittenIn(d, acts, at) <==>
      Overwrites(d, acts[0], at) || OverwrittenIn(Acted(d, acts[0]), acts[1..], at)
  {
    var e, rest := Acted(d, acts[0]), acts[1..];
    assert acts[..0] == [];
    forall k | 0 < k <= |rest| ensures ActedAll(d, acts[..k]) == ActedAll(e, rest[..k - 1]) {
      assert acts[..k][1..] == rest[..k - 1];
    }
    if OverwrittenIn(e, rest, at) {
      var k :| 0 <= k < |rest| && var f := ActedAll(e, rest[..k]); at in f.files && Overwrites(f, rest[k], at);
      assert acts[k + 1] == rest[k];
    }
  }

  /** Over any run, whatever the names: the file stays as it is throughout exactly when no act syncs a
      session whose path leads to the same place and whose working copy says something else. */
  lemma {:induction false} FileStaysIff(d: Desk, acts: seq<Act>, at: Place)
    requires at in d.files
    ensures HoldsAlways(d, acts, at, d.files[at]) <==> !OverwrittenIn(d, acts, at)
    decreases |acts|
  {
    if acts != [] {
      FirstActFirst(d, acts, at);
      ActOverwritesIff(d, acts[0], at);
      if !Overwrites(d, acts[0], at) { FileStaysIff(Acted(d, acts[0]), acts[1..], at); }
    }
  }

  /** Whatever is done under other names in between, edits reach the place the notebook was opened
      from. */
  lemma EditsComeHome(d: Desk, a: ByteText, contents: Contents, before: seq<Act>, after: seq<Act>)
    requires Inv(d) && CanOpen(d, a)
    requires forall act <- before :: NameOf(act) != WorkingName(a)
    requires forall act <- after :: NameOf(act) != WorkingName(a)
    ensures var n := WorkingName(a);
      var e := ActedAll(Edited(ActedAll(Opened(d, a).value, before), n, contents), after);
      Synced(e, n) == Ok(e.(files := e.files[d.place(a).value := contents]))
  {
    var n, o := WorkingName(a), Opened(d, a).value;
    ActKeeps(d, OpenOther(a));
    OthersUndisturbed(o, n, a, FileOf(d, a), before);
    EditsStay(ActedAll(o, before), n, a, FileOf(d, a), contents, after);
  }

  lemma EditsStay(d: Desk, n: string, a: ByteText, copy: Contents, contents: Contents, after: seq<Act>)
    requires Inv(d) && OpenOn(d, n, a, copy)
    requires forall act <- after :: NameOf(act) != n
    ensures var e := ActedAll(Edited(d, n, contents), after);
      Synced(e, n) == Ok(e.(files := e.files[d.place(a).value := contents]))
  {
    ActKeeps(d, EditCopy(n, contents));
    OthersUndisturbed(Edited(d, n, contents), n, a, contents, after);
  }

  /** And without edits, opening and syncing leaves the files as they were. */
  lemma OpenThenSync(d: Desk, a: ByteText)
    requires CanOpen(d, a)
    ensures Synced(Opened(d, a).value, WorkingName(a)) == Opened(d, a)
  {
    assert d.files[d.place(a).value := FileOf(d, a)] == d.files;
  }

  /** Opening another notebook leaves the first one's session alone exactly when the two paths do not
      share a name, that is, unless both their hashes and their extensions agree; otherwise the first
      one's unsynced edits are gone. */
  lemma OpenTakesOverIff(d: Desk, a: ByteText, b: ByteText)
    requires Inv(d) && WorkingName(a) in d.sessions && d.sessions[WorkingName(a)] == a
    requires a != b && CanOpen(d, b)
    ensures var e, n := Opened(d, b).value, WorkingName(a);
      (e.sessions[n] == a && e.copies[n] == d.copies[n])
      <==> Fnv1a(Bytes(a)) != Fnv1a(Bytes(b)) || Extension(a) != Extension(b)
  {
    SharedIff(a, b);
  }

  // ---------------------------------------------------------------- two spellings of one file

  /** The session name does not protect the file: a second notebook opened under another spelling
      replaces it while the first stays open with what it read; and when the first one syncs, what the
      second one wrote is gone. */
  lemma OverwrittenUnderAnotherName(d: Desk, a: ByteText, b: ByteText, contents: Contents)
    requires Inv(d) && CanOpen(d, a) && d.place(b) == d.place(a) && WorkingName(b) != WorkingName(a)
    ensures var m, at := WorkingName(b), d.place(a).value;
      var acts := [OpenOther(b), EditCopy(m, contents), SyncOther(m)];
      var e := ActedAll(Opened(d, a).value, acts);
      && (forall act <- acts :: NameOf(act) != WorkingName(a))
      && OpenOn(e, WorkingName(a), a, FileOf(d, a)) && e.files == d.files[at := contents]
      && Synced(e, WorkingName(a)) == Ok(e.(files := d.files))
  {
    OpenedEditedSynced(Opened(d, a).value, b, WorkingName(b), contents);
    assert d.files[d.place(a).value := contents][d.place(a).value := FileOf(d, a)] == d.files;
  }

  lemma OpenedEditedSynced(d: Desk, b: ByteText, m: string, contents: Contents)
    requires CanOpen(d, b) && m == WorkingName(b)
    ensures ActedAll(d, [OpenOther(b), EditCopy(m, contents), SyncOther(m)])
      == Desk(d.place, d.files[d.place(b).value := contents], d.copies[m := contents], d.sessions[m := b])
  {
    var o := OpenedUnder(d, b, m);
    ActedThree(d, OpenOther(b), EditCopy(m, contents), SyncOther(m));
    EditedSynced(o, m, contents);
    assert o.copies[m := contents] == d.copies[m := contents];
  }

  lemma OpenedUnder(d: Desk, b: ByteText, m: string) returns (o: Desk)
    requires CanOpen(d, b) && m == WorkingName(b)
    ensures Acted(d, OpenOther(b)) == o && CanSync(o, m)
    ensures o == d.(copies := d.copies[m := FileOf(d, b)], sessions := d.sessions[m := b])
  {
    o := Opened(d, b).value;
  }

  lemma EditedSynced(d: Desk, n: string, contents: Contents)
    requires CanSync(d, n)
    ensures Acted(Acted(d, EditCopy(n, contents)), SyncOther(n))
      == d.(files := d.files[d.place(d.sessions[n]).value := contents], copies := d.copies[n := contents])
  {
  }

  lemma ActedThree(d: Desk, x: Act, y: Act, z: Act)
    ensures ActedAll(d, [x, y, z]) == Acted(Acted(Acted(d, x), y), z)
  {
    assert [x, y, z][1..] == [y, z] && [y, z][1..] == [z] && [z][1..] == [];
    var e := Acted(d, x);
    assert ActedAll(e, [y, z]) == ActedAll(Acted(e, y), [z]);
  }

  /** With the stores as they are, a doubled slash behind `/home` is such a spelling of every home
      file. */
  lemma DoubledSlashSplits(x: ByteText, a: ByteText, b: ByteText)
    requires a == "/home/" + x && b == "/home//" + x
    ensures PlaceOf(a) == PlaceOf(b) && WorkingName(a) != WorkingName(b)
  {
    DoubledSlashSamePlace(x);
    DoubledSlashNeverShares(x);
  }
}
