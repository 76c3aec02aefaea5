/** _listpack: reads the 12-byte pack header, then, for as many objects as
    the header declares and while the stream has not ended, parses an object
    header, inflates the object body chunk by chunk, backs the reader up to
    where the compressed body ends and hands one record to the callback.
    Every raw byte the lister consumes goes to the running hash. */
module ListPack {
  import opened Bytes
  import opened Errors
  import opened Streams
  import opened HashInput
  import opened ObjectHeaders
  import opened Inflaters

  /** The object handed to the data callback. */
  datatype PackRecord = PackRecord(
    data: seq<byte>, kind: nat, num: nat, offset: nat, end: nat,
    reference: Option<seq<byte>>, ofs: Option<int>)

  /** What the callback has received when the lister stops, whether it
      stopped with an error, and how far the cursor got. */
  datatype Listing = Listing(records: seq<PackRecord>, error: Option<PackError>, stop: nat)

  const PackHeaderSize: nat := 12

  const SizeMismatch: string := "Inflated object size is different from that stated in packfile."

  /** How the chunk loop of one object ends: the inflater finished on the
      chunk that starts at `last` and the compressed body ends at `end`; the
      inflater failed; or the stream ended first. */
  datatype BodyOutcome = Inflated(result: seq<byte>, last: nat, end: nat) | InflateFailed(message: string) | BodyEnded

  /** The chunk loop of an object whose compressed body starts at `start`,
      when the chunks from `start` up to `pos` have been pushed and the
      inflater asked for more. */
  function InflateBody(inflate: Inflater, data: seq<byte>, blockSize: nat, start: nat, pos: nat): (r: BodyOutcome)
    requires 0 < blockSize && start <= pos <= |data|
    ensures r.Inflated? ==> pos <= r.last < |data| && r.last <= r.end <= ChunkEnd(|data|, blockSize, r.last)
    decreases |data| - pos
  {
    if pos == |data| then BodyEnded
    else
      var e := ChunkEnd(|data|, blockSize, pos);
      match inflate(data[start..pos], data[pos..e])
      case Failed(message) => InflateFailed(message)
      case Done(result, availIn) =>
        // A conforming inflater (Conforms) never takes the second branch.
        Inflated(result, pos, if availIn <= e - pos then e - availIn else pos)
      case NeedMore => InflateBody(inflate, data, blockSize, start, e)
  }

  /** How one pass of the outer loop ends: with the record of the object,
      or with the lister stopping at `stop`, after an error or not. */
  datatype Step = Next(record: PackRecord) | Stop(error: Option<PackError>, stop: nat)

  /** One pass of the outer loop for the object at `pos`, numbered `num`:
      its header, its body, the size check. A record covers at least its
      header and ends inside the stream; the lister stops where the object
      starts after an error and at the end of the stream otherwise. */
  function ObjectAt(inflate: Inflater, data: seq<byte>, blockSize: nat, pos: nat, num: nat): (s: Step)
    requires 0 < blockSize && pos <= |data|
    ensures s.Next? ==> s.record.offset == pos < s.record.end <= |data| && s.record.num == num
    ensures s.Stop? ==> s.stop == (if s.error.Some? then pos else |data|)
  {
    match ParseHeaderSpec(data[pos..])
    case Failure(e) => Stop(Some(e), pos)
    case Success((h, n)) => BodyAt(inflate, data, blockSize, pos, h, n, num)
  }

  /** The rest of the pass once the header h, n bytes long, is read at `pos`. */
  function BodyAt(inflate: Inflater, data: seq<byte>, blockSize: nat, pos: nat, h: ObjectHeader, n: nat, num: nat): (s: Step)
    requires 0 < blockSize && 0 < n && pos + n <= |data|
    ensures s.Next? ==> s.record.offset == pos && pos + n <= s.record.end <= |data| && s.record.num == num
    ensures s.Stop? ==> s.stop == (if s.error.Some? then pos else |data|)
  {
    match InflateBody(inflate, data, blockSize, pos + n, pos + n)
    case BodyEnded => Stop(None, |data|)
    case InflateFailed(message) => Stop(Some(InternalFail(message)), pos)
    case Inflated(result, _, end) =>
      if |result| != h.length then Stop(Some(InternalFail(SizeMismatch)), pos)
      else Next(PackRecord(result, h.kind, num, pos, end, h.reference, h.ofs))
  }

  /** The objects at `pos` onwards, `remaining` of them still declared. */
  function ListObjects(inflate: Inflater, data: seq<byte>, blockSize: nat, pos: nat, remaining: nat): (l: Listing)
    requires 0 < blockSize && pos <= |data|
    decreases remaining
  {
    if remaining == 0 then Listing([], None, pos)
    else match ObjectAt(inflate, data, blockSize, pos, remaining - 1)
      case Stop(error, stop) => Listing([], error, stop)
      case Next(record) => Prepend([record], ListObjects(inflate, data, blockSize, record.end, remaining - 1))
  }

  /** A record is what the lister reads at its offset: the header there,
      the inflated body that starts right after it, and a size that matches
      the header's. */
  ghost predicate Decoded(inflate: Inflater, data: seq<byte>, blockSize: nat, record: PackRecord)
    requires 0 < blockSize
  {
    && record.offset <= |data|
    && var header := ParseHeaderSpec(data[record.offset..]);
    && header.Success?
    && var (h, n) := header.value;
    && record.kind == h.kind && record.reference == h.reference && record.ofs == h.ofs
    && |record.data| == h.length
    && BodyResult(inflate, data, blockSize, record.offset + n) == Some((record.data, record.end))
  }

  /** The inflated data and the end of the compressed body that starts at
      `start`, when the chunk loop finishes there. */
  function BodyResult(inflate: Inflater, data: seq<byte>, blockSize: nat, start: nat): (r: Option<(seq<byte>, nat)>)
    requires 0 < blockSize && start <= |data|
  {
    match InflateBody(inflate, data, blockSize, start, start)
    case Inflated(result, _, end) => Some((result, end))
    case _ => None
  }

  /** The whole pack: the declared object count is the big-endian word in
      bytes 8-11 of the header. */
  function ListPackSpec(inflate: Inflater, data: seq<byte>, blockSize: nat): (l: Listing)
    requires 0 < blockSize
  {
    if |data| < PackHeaderSize then Listing([], Some(StreamTruncated), |data|)
    else ListObjects(inflate, data, blockSize, PackHeaderSize, ReadUInt32BE(data[8..12]))
  }

  /** The records listed before `l`, followed by `l`. */
  function Prepend(records: seq<PackRecord>, l: Listing): (p: Listing)
  {
    Listing(records + l.records, l.error, l.stop)
  }

  lemma PrependPrepend(a: seq<PackRecord>, b: seq<PackRecord>, l: Listing)
    ensures Prepend(a, Prepend(b, l)) == Prepend(a + b, l)
  {
    assert a + (b + l.records) == (a + b) + l.records;
  }

  /** _listpack(reader, push): the records pushed, in order, and the error
      thrown, if any. */
  method ListPack(reader: StreamReader, inflate: Inflater)
      returns (records: seq<PackRecord>, error: Option<PackError>, hash: Hash)
    requires reader.Valid() && reader.pos == 0 && !reader.ended && Conforms(inflate)
    modifies reader
    ensures fresh(hash) && reader.Valid()
    ensures var l := ListPackSpec(inflate, reader.data, reader.blockSize);
      records == l.records && error == l.error
    ensures error.None? ==>
      reader.pos == ListPackSpec(inflate, reader.data, reader.blockSize).stop &&
      hash.input == reader.data[..reader.pos]
  {
    hash := new Hash();
    var count := ReadPackHeader(reader, hash);
    if count.Failure? {
      return [], Some(count.error), hash;
    }
    records, error := ListObjectsLoop(reader, hash, inflate, count.value);
  }

  /** The three four-byte reads of the pack header (signature, version,
      object count), each hashed; the count is returned. */
  method ReadPackHeader(reader: StreamReader, hash: Hash) returns (r: Result<nat, PackError>)
    requires reader.Valid() && reader.pos == 0 && !reader.ended
    modifies reader, hash
    ensures reader.Valid()
    ensures |reader.data| < PackHeaderSize ==> r == Failure(StreamTruncated)
    ensures |reader.data| >= PackHeaderSize ==>
      && r == Success(ReadUInt32BE(reader.data[8..12])) && reader.pos == PackHeaderSize && !reader.ended
      && hash.input == old(hash.input) + reader.data[..PackHeaderSize]
  {
    var signature := reader.Read(4);
    if signature.Failure? {
      return Failure(signature.error);
    }
    hash.Update(signature.value);
    var version := reader.Read(4);
    if version.Failure? {
      return Failure(version.error);
    }
    hash.Update(version.value);
    var numObjects := reader.Read(4);
    if numObjects.Failure? {
      return Failure(numObjects.error);
    }
    hash.Update(numObjects.value);
    SliceJoin(reader.data, 0, 4, 8);
    SliceJoin(reader.data, 0, 8, PackHeaderSize);
    assert reader.data[..PackHeaderSize] == signature.value + version.value + numObjects.value;
    r := Success(ReadUInt32BE(numObjects.value));
  }

  /** The `while (!reader.eof() && numObjects--)` loop. */
  method ListObjectsLoop(reader: StreamReader, hash: Hash, inflate: Inflater, count: nat)
      returns (records: seq<PackRecord>, error: Option<PackError>)
    requires reader.Valid() && !reader.ended && Conforms(inflate)
    requires hash.input == reader.data[..reader.pos]
    modifies reader, hash
    ensures reader.Valid()
    ensures var l := ListObjects(inflate, reader.data, reader.blockSize, old(reader.pos), count);
      && records == l.records && error == l.error
      && (error.None? ==> reader.pos == l.stop && hash.input == reader.data[..reader.pos])
  {
    ghost var total := ListObjects(inflate, reader.data, reader.blockSize, reader.pos, count);
    records := [];
    var numObjects := count;
    while !reader.Eof() && numObjects != 0
      invariant reader.Valid() && hash.input == reader.data[..reader.pos]
      invariant !reader.ended ==> total == Prepend(records, ListObjects(inflate, reader.data, reader.blockSize, reader.pos, numObjects))
      invariant reader.ended ==> total == Listing(records, None, reader.pos)
      decreases numObjects
    {
      numObjects := numObjects - 1;
      var offset := reader.Tell();
      var step := ListOne(reader, hash, inflate, offset, numObjects);
      match step
      case Failure(e) =>
        assert records + [] == records;
        return records, Some(e);
      case Success(record) =>
        if record.Some? {
          PrependPrepend(records, [record.value], ListObjects(inflate, reader.data, reader.blockSize, reader.pos, numObjects));
          records := records + [record.value];
        } else {
          assert records + [] == records;
        }
    }
    error := None;
  }

  /** One pass of the outer loop at `offset`: the object's record, or None
      when the stream ended inside its body. */
  method ListOne(reader: StreamReader, hash: Hash, inflate: Inflater, offset: nat, num: nat)
      returns (r: Result<Option<PackRecord>, PackError>)
    requires reader.Valid() && !reader.ended && Conforms(inflate) && offset == reader.pos
    requires hash.input == reader.data[..reader.pos]
    modifies reader, hash
    ensures reader.Valid()
    ensures var l := ListObjects(inflate, reader.data, reader.blockSize, offset, num + 1);
      && (r.Failure? ==> l == Listing([], Some(r.error), offset))
      && (r.Success? ==> hash.input == reader.data[..reader.pos])
      && (r.Success? && r.value.None? ==> reader.ended && l == Listing([], None, reader.pos))
      && (r.Success? && r.value.Some? ==>
            && !reader.ended && r.value.value.offset == offset && r.value.value.end == reader.pos
            && l == Prepend([r.value.value], ListObjects(inflate, reader.data, reader.blockSize, reader.pos, num)))
  {
    var header := ParseHeader(reader, hash);
    if header.Failure? {
      return Failure(header.error);
    }
    ghost var n := reader.pos - offset;
    r := ObjectBody(reader, hash, inflate, offset, header.value, n, num);
  }

  /** The rest of the pass once the header h (n bytes at `offset`) is read:
      the chunk loop, the size check, then the undo and read-back of the
      finishing chunk, and the record. */
  method ObjectBody(reader: StreamReader, hash: Hash, inflate: Inflater, offset: nat, h: ObjectHeader, ghost n: nat, num: nat)
      returns (r: Result<Option<PackRecord>, PackError>)
    requires reader.Valid() && !reader.ended && Conforms(inflate) && 0 < n && offset + n == reader.pos
    requires hash.input == reader.data[..reader.pos]
    modifies reader, hash
    ensures reader.Valid()
    ensures var s := BodyAt(inflate, reader.data, reader.blockSize, offset, h, n, num);
      && (r.Failure? ==> s == Stop(Some(r.error), offset))
      && (r.Success? ==> hash.input == reader.data[..reader.pos])
      && (r.Success? && r.value.None? ==> reader.ended && s == Stop(None, reader.pos))
      && (r.Success? && r.value.Some? ==> !reader.ended && s == Next(r.value.value) && s.record.end == reader.pos)
  {
    var body := InflateObject(reader, hash, inflate);
    match body
    case BodyEnded =>
      SliceJoin(reader.data, 0, offset + n, reader.pos);
      r := Success(None);
    case InflateFailed(message) =>
      r := Failure(InternalFail(message));
    case Inflated(result, last, _) =>
      if |result| != h.length {
        return Failure(InternalFail(SizeMismatch));
      }
      var back := TakeUsed(reader, hash, body.end - last);
      SliceJoin(reader.data, 0, offset + n, last);
      AppendAssoc(reader.data[..offset + n], reader.data[offset + n..last], reader.data[last..reader.pos]);
      SliceJoin(reader.data, 0, last, reader.pos);
      var end := reader.Tell();
      r := Success(Some(PackRecord(result, h.kind, num, offset, end, h.reference, h.ofs)));
  }

  /** The `while (!inflator.result)` loop of one object: pushes chunks into
      a fresh inflater, hashing each chunk it does not finish on. It returns
      with the finishing chunk read but not yet hashed; the size check, the
      undo and the read-back follow in ObjectBody. */
  method InflateObject(reader: StreamReader, hash: Hash, inflate: Inflater) returns (r: BodyOutcome)
    requires reader.Valid() && !reader.ended && Conforms(inflate)
    modifies reader, hash
    ensures reader.Valid()
    ensures r == InflateBody(inflate, reader.data, reader.blockSize, old(reader.pos), old(reader.pos))
    ensures r.Inflated? ==>
      && !reader.ended && reader.pos == ChunkEnd(|reader.data|, reader.blockSize, r.last)
      && reader.lastChunkLen == reader.pos - r.last
      && hash.input == old(hash.input) + reader.data[old(reader.pos)..r.last]
    ensures r.BodyEnded? ==>
      && reader.ended && old(reader.pos) <= reader.pos && hash.input == old(hash.input) + reader.data[old(reader.pos)..reader.pos]
  {
    ghost var start := reader.pos;
    var fed: seq<byte> := [];
    while true
      invariant reader.Valid() && !reader.ended && start <= reader.pos
      invariant fed == reader.data[start..reader.pos]
      invariant hash.input == old(hash.input) + fed
      invariant InflateBody(inflate, reader.data, reader.blockSize, start, reader.pos)
        == InflateBody(inflate, reader.data, reader.blockSize, start, start)
      decreases |reader.data| - reader.pos
    {
      var before := reader.Tell();
      var chunk := reader.Chunk();
      if reader.ended {
        return BodyEnded;
      }
      InflateStep(inflate, reader.data, reader.blockSize, start, before, fed, chunk);
      var pushed := inflate(fed, chunk);
      if pushed.Failed? {
        return InflateFailed(pushed.message);
      }
      if pushed.Done? {
        return Inflated(pushed.result, before, reader.pos - pushed.availIn);
      }
      AppendAssoc(old(hash.input), fed, chunk);
      hash.Update(chunk);
      SliceJoin(reader.data, start, before, reader.pos);
      fed := fed + chunk;
    }
  }

  /** One turn of the chunk loop, pushing `chunk` (the next `blockSize`
      bytes from `pos`, or the rest of the data) after `fed`. */
  lemma InflateStep(inflate: Inflater, data: seq<byte>, blockSize: nat, start: nat, pos: nat, fed: seq<byte>, chunk: seq<byte>)
    requires 0 < blockSize && start <= pos < |data|
    requires fed == data[start..pos] && chunk == data[pos..ChunkEnd(|data|, blockSize, pos)]
    ensures var e := ChunkEnd(|data|, blockSize, pos);
      match inflate(fed, chunk)
      case Failed(message) => InflateBody(inflate, data, blockSize, start, pos) == InflateFailed(message)
      case Done(result, availIn) =>
        availIn <= |chunk| ==> InflateBody(inflate, data, blockSize, start, pos) == Inflated(result, pos, e - availIn)
      case NeedMore => InflateBody(inflate, data, blockSize, start, pos) == InflateBody(inflate, data, blockSize, start, e)
  {
  }

  /** `reader.undo(); buf = reader.read(used); hash.update(buf)`: steps back
      over the last chunk and re-reads the first `used` bytes of it. */
  method TakeUsed(reader: StreamReader, hash: Hash, used: nat) returns (last: nat)
    requires reader.Valid() && !reader.ended && used <= reader.lastChunkLen
    modifies reader, hash
    ensures reader.Valid() && !reader.ended
    ensures last == old(reader.pos) - old(reader.lastChunkLen) && reader.pos == last + used
    ensures hash.input == old(hash.input) + reader.data[last..reader.pos]
  {
    reader.Undo();
    last := reader.Tell();
    var buf := reader.Read(used);
    hash.Update(buf.value);
  }
}
