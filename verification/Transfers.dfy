/** Uploads put together from frames, and downloads by byte range. */
module Transfers {
  import opened Results
  import opened Sequences
  import opened LocalStore

  // ---------------------------------------------------------------- uploads

  /** One message of an upload; only the first one's path and content type count. */
  datatype Frame = Frame(path: string, contentType: Option<string>, chunk: Option<seq<Byte>>)

  /** The bytes of all frames, in order. */
  function Carried(frames: seq<Frame>): seq<Byte> {
    if frames == [] then []
    else
      var last := frames[|frames| - 1];
      Carried(frames[..|frames| - 1]) + if last.chunk.Some? then last.chunk.value else []
  }

  function Flat(parts: seq<seq<Byte>>): seq<Byte> {
    if parts == [] then [] else Flat(parts[..|parts| - 1]) + parts[|parts| - 1]
  }

  lemma FlatOneMore(parts: seq<seq<Byte>>, part: seq<Byte>)
    ensures Flat(parts + [part]) == Flat(parts) + part
  {
  }

  lemma {:induction false} FlatTake(parts: seq<seq<Byte>>, i: nat)
    requires i <= |parts|
    ensures |Flat(parts[..i])| <= |Flat(parts)|
    decreases |parts| - i
  {
    if i < |parts| {
      FlatTake(parts, i + 1);
      assert parts[..i + 1][..i] == parts[..i];
    } else {
      assert parts[..i] == parts;
    }
  }

  /** The parts copied one after the other into a buffer of their total length. */
  method CopyParts(parts: seq<seq<Byte>>, total: nat) returns (body: array<Byte>)
    requires total == |Flat(parts)|
    ensures fresh(body) && body[..] == Flat(parts)
  {
    body := new Byte[total](_ => 0);
    var offset := 0;
    for i := 0 to |parts|
      invariant offset == |Flat(parts[..i])| <= total == body.Length
      invariant body[..offset] == Flat(parts[..i])
    {
      var part := parts[i];
      assert parts[..i + 1][..i] == parts[..i];
      FlatTake(parts, i + 1);
      ghost var before := body[..offset];
      forall j | 0 <= j < |part| {
        body[offset + j] := part[j];
      }
      assert body[..offset + |part|] == before + part;
      offset := offset + |part|;
    }
    assert parts[..|parts|] == parts;
    assert body[..offset] == body[..];
  }

  /** The frames' chunks, empty ones left out, copied one after the other into a buffer of their total
      length: every byte once, in order, and no gap. */
  method AssembleUpload(frames: seq<Frame>) returns (path: string, contentType: Option<string>, body: array<Byte>)
    ensures path == if frames == [] then "" else frames[0].path
    ensures contentType == if frames == [] then None else frames[0].contentType
    ensures fresh(body) && body[..] == Carried(frames)
  {
    path, contentType := "", None;
    var parts: seq<seq<Byte>> := [];
    var total := 0;
    var first := true;
    for i := 0 to |frames|
      invariant first == (i == 0)
      invariant path == if i == 0 then "" else frames[0].path
      invariant contentType == if i == 0 then None else frames[0].contentType
      invariant Flat(parts) == Carried(frames[..i]) && total == |Flat(parts)|
    {
      if first {
        path, contentType := frames[i].path, frames[i].contentType;
        first := false;
      }
      assert frames[..i + 1][..i] == frames[..i];
      if frames[i].chunk.Some? && |frames[i].chunk.value| > 0 {
        FlatOneMore(parts, frames[i].chunk.value);
        parts := parts + [frames[i].chunk.value];
        total := total + |frames[i].chunk.value|;
      } else {
        AppendNone(Flat(parts));
      }
    }
    assert frames[..|frames|] == frames;
    body := CopyParts(parts, total);
  }

  // ---------------------------------------------------------------- downloads by range

  /** The range an object store is asked for: none for the whole object. */
  datatype GetRange = Whole | Offset(start: nat) | Bounded(start: nat, end: nat)

  /** `byte_range`. */
  function ByteRange(offset: Option<int>, length: Option<int>): StoreResult<GetRange> {
    if (offset.None? || offset.value == 0) && length.None? then Ok(Whole)
    else
      var start := if offset.Some? then offset.value else 0;
      if start < 0 then Err(InvalidArgument)
      else if length.None? then Ok(Offset(start))
      else if length.value < 0 then Err(InvalidArgument)
      else Ok(Bounded(start, start + length.value))
  }

  /** What an object store gives for a range: it refuses one that ends before it begins anything or
      begins past the last byte, and clips the others at the end. */
  function Served(bytes: seq<Byte>, range: GetRange): Option<seq<Byte>> {
    match range
    case Whole => Some(bytes)
    case Offset(start) => if start < |bytes| then Some(bytes[start..]) else None
    case Bounded(start, end) =>
      if start < end && start < |bytes| then Some(bytes[start..if end < |bytes| then end else |bytes|]) else None
  }

  /** The volume store's answer to a ranged read of an object it has. */
  function VolumeRead(bytes: seq<Byte>, offset: Option<int>, length: Option<int>): Option<seq<Byte>> {
    if ByteRange(offset, length).Ok? then Served(bytes, ByteRange(offset, length).value) else None
  }

  /** Whenever the volume store answers a ranged read it gives the bytes the local store gives. It refuses
      exactly the negative numbers, which the local store takes for "from the start" and "to the end",
      and the ranges, other than the whole object, in which the local store finds no byte. */
  lemma RangesAgreeIff(bytes: seq<Byte>, offset: Option<int>, length: Option<int>)
    ensures ByteRange(offset, length).Ok? <==>
      (offset.Some? ==> offset.value >= 0) && (length.Some? ==> length.value >= 0)
    ensures ByteRange(offset, length).Ok? ==>
      (VolumeRead(bytes, offset, length).Some? <==>
        ByteRange(offset, length).value.Whole? || Range(bytes, offset, length) != [])
    ensures VolumeRead(bytes, offset, length).Some? ==>
      VolumeRead(bytes, offset, length).value == Range(bytes, offset, length)
  {
    assert bytes[0..] == bytes;
    var start := if offset.Some? then offset.value else 0;
    if 0 <= start < |bytes| { assert bytes[start..] == bytes[start..|bytes|]; }
  }

  /** What a caller collects who reads `n` bytes at a time until a read gives nothing. */
  function ReadFrom(bytes: seq<Byte>, at: nat, n: nat): seq<Byte>
    requires n >= 1
    decreases |bytes| - at
  {
    var part := Range(bytes, Some(at), Some(n));
    if part == [] then [] else part + ReadFrom(bytes, at + |part|, n)
  }

  /** Reading a file piece by piece gives the file, from any position on. */
  lemma {:induction false} PiecesMakeWhole(bytes: seq<Byte>, at: nat, n: nat)
    requires n >= 1 && at <= |bytes|
    ensures ReadFrom(bytes, at, n) == bytes[at..]
    decreases |bytes| - at
  {
    var part := Range(bytes, Some(at), Some(n));
    if at < |bytes| {
      var next := at + |part|;
      assert part == bytes[at..next];
      PiecesMakeWhole(bytes, next, n);
      assert bytes[at..next] + bytes[next..] == bytes[at..];
    }
  }
}
