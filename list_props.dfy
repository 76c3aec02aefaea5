/** What the listing promises: how many records, numbered how, laid out
    where in the stream, decoded from which bytes, and where the lister
    stops. */
module ListPackProperties {
  import opened Bytes
  import opened Errors
  import opened Streams
  import opened ObjectHeaders
  import opened Inflaters
  import opened ListPack

  /** The chunk loop ends on a chunk inside the body: the inflater, given
      every earlier chunk and then that one, finished with exactly
      `end - last` of its bytes used, so the body ends at the start of the
      last chunk plus the bytes the inflater consumed from it. */
  lemma {:induction false} InflateBodyEnd(inflate: Inflater, data: seq<byte>, blockSize: nat, start: nat, pos: nat)
    requires Conforms(inflate) && 0 < blockSize && start <= pos <= |data|
    ensures var r := InflateBody(inflate, data, blockSize, start, pos);
      r.Inflated? ==>
        && pos <= r.last < |data|
        && var e := ChunkEnd(|data|, blockSize, r.last);
           && r.end <= e
           && inflate(data[start..r.last], data[r.last..e]) == Done(r.result, e - r.end)
    decreases |data| - pos
  {
    if pos < |data| {
      var e := ChunkEnd(|data|, blockSize, pos);
      if inflate(data[start..pos], data[pos..e]).NeedMore? {
        InflateBodyEnd(inflate, data, blockSize, start, e);
      }
    }
  }

  /** One step of the listing: either a first record, decoded at `pos`,
      followed by the listing after it, or no record at all, with an error
      raised at `pos`, or nothing left to list, or the stream ended. */
  lemma ListingHead(inflate: Inflater, data: seq<byte>, blockSize: nat, pos: nat, remaining: nat)
    requires 0 < blockSize && pos <= |data|
    ensures var l := ListObjects(inflate, data, blockSize, pos, remaining);
      && (|l.records| > 0 ==>
            && remaining > 0
            && var r := l.records[0];
            && r.offset == pos < r.end <= |data| && r.num == remaining - 1
            && l == Prepend([r], ListObjects(inflate, data, blockSize, r.end, remaining - 1)))
      && (|l.records| == 0 ==>
            && (l.error.Some? ==> remaining > 0 && l.stop == pos)
            && (l.error.None? ==> (remaining == 0 && l.stop == pos) || (remaining > 0 && l.stop == |data|)))
  {
  }

  /** Records numbered `count - 1`, `count - 2`, ... in order. */
  predicate CountsDown(records: seq<PackRecord>, count: nat)
  {
    forall i :: 0 <= i < |records| ==> records[i].num == count - 1 - i
  }

  /** Records laid end to end from `pos`, each non-empty and inside the
      first `size` bytes. */
  predicate Contiguous(records: seq<PackRecord>, pos: nat, size: nat)
  {
    && (|records| > 0 ==> records[0].offset == pos)
    && (forall i :: 0 <= i < |records| ==> pos <= records[i].offset < records[i].end <= size)
    && (forall i :: 0 <= i < |records| - 1 ==> records[i].end == records[i + 1].offset)
  }

  /** The position after the last record, or `pos` when there is none. */
  function LastEnd(pos: nat, records: seq<PackRecord>): nat
  {
    if |records| == 0 then pos else records[|records| - 1].end
  }

  lemma CountsDownCons(r: PackRecord, rest: seq<PackRecord>, count: nat)
    requires 0 < count && r.num == count - 1 && CountsDown(rest, count - 1)
    ensures CountsDown([r] + rest, count)
  {
    assert forall i :: 1 <= i < |rest| + 1 ==> ([r] + rest)[i] == rest[i - 1];
  }

  lemma ContiguousCons(r: PackRecord, rest: seq<PackRecord>, pos: nat, size: nat)
    requires pos == r.offset < r.end <= size && Contiguous(rest, r.end, size)
    ensures Contiguous([r] + rest, pos, size)
  {
    assert forall i :: 1 <= i < |rest| + 1 ==> ([r] + rest)[i] == rest[i - 1];
  }

  lemma LastEndCons(r: PackRecord, rest: seq<PackRecord>, pos: nat)
    ensures LastEnd(pos, [r] + rest) == LastEnd(r.end, rest)
  {
    if |rest| > 0 {
      assert ([r] + rest)[|rest|] == rest[|rest| - 1];
    }
  }

  /** The shape of one step of a listing function f over a stream of
      `size` bytes, which is all the listing lemmas below rely on: a first
      record at `pos`, numbered `remaining - 1`, ending inside the stream,
      followed by the listing from its end; or no record, with an error at
      `pos`, nothing left to list, or the stream ended. */
  predicate StepShape(f: (nat, nat) -> Listing, size: nat, pos: nat, remaining: nat)
  {
    var l := f(pos, remaining);
    && (|l.records| > 0 ==>
          && remaining > 0
          && var r := l.records[0];
          && pos == r.offset < r.end <= size && r.num == remaining - 1
          && l == Prepend([r], f(r.end, remaining - 1)))
    && (|l.records| == 0 ==>
          && (l.error.Some? ==> remaining > 0 && l.stop == pos)
          && (l.error.None? ==> (remaining == 0 && l.stop == pos) || (remaining > 0 && l.stop == size)))
  }

  /** f has the shape of a listing at every position of the stream. */
  ghost predicate Chains(f: (nat, nat) -> Listing, size: nat)
  {
    forall pos: nat, remaining: nat :: pos <= size ==> StepShape(f, size, pos, remaining)
  }

  /** ListObjects as a function of the position and the count, for the
      chain lemmas (positions past the end never occur). */
  function Lister(inflate: Inflater, data: seq<byte>, blockSize: nat): (f: (nat, nat) -> Listing)
    requires 0 < blockSize
    ensures forall pos: nat, remaining: nat :: pos <= |data| ==>
      f(pos, remaining) == ListObjects(inflate, data, blockSize, pos, remaining)
  {
    (pos: nat, remaining: nat) =>
      if pos <= |data| then ListObjects(inflate, data, blockSize, pos, remaining) else Listing([], None, pos)
  }

  lemma ListingChains(inflate: Inflater, data: seq<byte>, blockSize: nat)
    requires 0 < blockSize
    ensures Chains(Lister(inflate, data, blockSize), |data|)
  {
    var f := Lister(inflate, data, blockSize);
    forall pos: nat, remaining: nat | pos <= |data|
      ensures StepShape(f, |data|, pos, remaining)
    {
      ListingHead(inflate, data, blockSize, pos, remaining);
    }
  }

  lemma {:induction false} ChainCount(f: (nat, nat) -> Listing, size: nat, pos: nat, remaining: nat)
    requires Chains(f, size) && pos <= size
    ensures var l := f(pos, remaining);
      && |l.records| <= remaining
      && CountsDown(l.records, remaining)
      && (l.error.Some? ==> |l.records| < remaining)
    decreases remaining
  {
    var l := f(pos, remaining);
    assert StepShape(f, size, pos, remaining);
    if |l.records| > 0 {
      var r := l.records[0];
      ChainCount(f, size, r.end, remaining - 1);
      CountsDownCons(r, f(r.end, remaining - 1).records, remaining);
    }
  }

  lemma {:induction false} ChainLayout(f: (nat, nat) -> Listing, size: nat, pos: nat, remaining: nat)
    requires Chains(f, size) && pos <= size
    ensures Contiguous(f(pos, remaining).records, pos, size)
    decreases remaining
  {
    var l := f(pos, remaining);
    assert StepShape(f, size, pos, remaining);
    if |l.records| > 0 {
      var r := l.records[0];
      ChainLayout(f, size, r.end, remaining - 1);
      ContiguousCons(r, f(r.end, remaining - 1).records, pos, size);
    }
  }

  lemma {:induction false} ChainStop(f: (nat, nat) -> Listing, size: nat, pos: nat, remaining: nat)
    requires Chains(f, size) && pos <= size
    ensures var l := f(pos, remaining);
      && (l.error.Some? || |l.records| == remaining ==> l.stop == LastEnd(pos, l.records))
      && (l.error.None? && |l.records| < remaining ==> l.stop == size)
    decreases remaining
  {
    var l := f(pos, remaining);
    assert StepShape(f, size, pos, remaining);
    if |l.records| > 0 {
      var r := l.records[0];
      ChainStop(f, size, r.end, remaining - 1);
      LastEndCons(r, f(r.end, remaining - 1).records, pos);
    }
  }

  /** Record i of a listing is the first record of the listing from some
      later position. */
  lemma {:induction false} ChainAt(f: (nat, nat) -> Listing, size: nat, pos: nat, remaining: nat, i: nat)
      returns (p: nat, k: nat)
    requires Chains(f, size) && pos <= size && i < |f(pos, remaining).records|
    ensures p <= size && 0 < |f(p, k).records| && f(p, k).records[0] == f(pos, remaining).records[i]
    decreases remaining
  {
    if i == 0 {
      p, k := pos, remaining;
    } else {
      var l := f(pos, remaining);
      assert StepShape(f, size, pos, remaining);
      var r := l.records[0];
      p, k := ChainAt(f, size, r.end, remaining - 1, i - 1);
    }
  }

  /** At most the declared number of records, numbered down from
      `remaining - 1`; an error means the object it was raised for got no
      record. */
  lemma ListingCount(inflate: Inflater, data: seq<byte>, blockSize: nat, pos: nat, remaining: nat)
    requires 0 < blockSize && pos <= |data|
    ensures var l := ListObjects(inflate, data, blockSize, pos, remaining);
      && |l.records| <= remaining
      && CountsDown(l.records, remaining)
      && (l.error.Some? ==> |l.records| < remaining)
  {
    ListingChains(inflate, data, blockSize);
    ChainCount(Lister(inflate, data, blockSize), |data|, pos, remaining);
  }

  /** Records follow each other without gaps, from `pos` on, each ending
      after its offset and inside the stream. */
  lemma ListingLayout(inflate: Inflater, data: seq<byte>, blockSize: nat, pos: nat, remaining: nat)
    requires 0 < blockSize && pos <= |data|
    ensures Contiguous(ListObjects(inflate, data, blockSize, pos, remaining).records, pos, |data|)
  {
    ListingChains(inflate, data, blockSize);
    ChainLayout(Lister(inflate, data, blockSize), |data|, pos, remaining);
  }

  /** Where the lister stops: after the last record when all declared
      objects were listed or an error was raised (the error belongs to the
      object that starts there); at the end of the stream when the stream
      ended inside an object body, which lists fewer records and raises
      nothing. */
  lemma ListingStop(inflate: Inflater, data: seq<byte>, blockSize: nat, pos: nat, remaining: nat)
    requires 0 < blockSize && pos <= |data|
    ensures var l := ListObjects(inflate, data, blockSize, pos, remaining);
      && (l.error.Some? || |l.records| == remaining ==> l.stop == LastEnd(pos, l.records))
      && (l.error.None? && |l.records| < remaining ==> l.stop == |data|)
  {
    ListingChains(inflate, data, blockSize);
    ChainStop(Lister(inflate, data, blockSize), |data|, pos, remaining);
  }

  /** Every record listed is decoded from the stream at its own offset. */
  lemma ListingDecoded(inflate: Inflater, data: seq<byte>, blockSize: nat, pos: nat, remaining: nat, i: nat)
    requires 0 < blockSize && pos <= |data|
    requires i < |ListObjects(inflate, data, blockSize, pos, remaining).records|
    ensures Decoded(inflate, data, blockSize, ListObjects(inflate, data, blockSize, pos, remaining).records[i])
  {
    ListingChains(inflate, data, blockSize);
    var p, k := ChainAt(Lister(inflate, data, blockSize), |data|, pos, remaining, i);
    FirstDecoded(inflate, data, blockSize, p, k);
  }

  lemma FirstDecoded(inflate: Inflater, data: seq<byte>, blockSize: nat, pos: nat, remaining: nat)
    requires 0 < blockSize && pos <= |data|
    requires 0 < |ListObjects(inflate, data, blockSize, pos, remaining).records|
    ensures Decoded(inflate, data, blockSize, ListObjects(inflate, data, blockSize, pos, remaining).records[0])
  {
    ObjectDecoded(inflate, data, blockSize, pos, remaining - 1);
  }

  /** A record made by one pass of the outer loop is decoded at its offset. */
  lemma ObjectDecoded(inflate: Inflater, data: seq<byte>, blockSize: nat, pos: nat, num: nat)
    requires 0 < blockSize && pos <= |data|
    ensures var s := ObjectAt(inflate, data, blockSize, pos, num);
      s.Next? ==> Decoded(inflate, data, blockSize, s.record)
  {
    var s := ObjectAt(inflate, data, blockSize, pos, num);
    if s.Next? {
      var (h, n) := ParseHeaderSpec(data[pos..]).value;
      var body := InflateBody(inflate, data, blockSize, pos + n, pos + n);
      assert s.record == PackRecord(body.result, h.kind, num, pos, body.end, h.reference, h.ofs);
      assert BodyResult(inflate, data, blockSize, pos + n) == Some((body.result, body.end));
    }
  }

  /** A stream that declares more objects than it holds and ends right
      after a complete record: that record is listed, and the header of the
      next object raises a truncated stream at the end of the data. */
  lemma TruncatedAfterRecord(inflate: Inflater, data: seq<byte>, blockSize: nat, pos: nat, remaining: nat)
    requires 0 < blockSize && pos <= |data| && 1 < remaining
    requires ObjectAt(inflate, data, blockSize, pos, remaining - 1).Next?
    requires ObjectAt(inflate, data, blockSize, pos, remaining - 1).record.end == |data|
    ensures ListObjects(inflate, data, blockSize, pos, remaining)
      == Listing([ObjectAt(inflate, data, blockSize, pos, remaining - 1).record], Some(StreamTruncated), |data|)
  {
    var r := ObjectAt(inflate, data, blockSize, pos, remaining - 1).record;
    assert data[|data|..] == [];
    assert ListObjects(inflate, data, blockSize, |data|, remaining - 1) == Listing([], Some(StreamTruncated), |data|);
    assert [r] + [] == [r];
  }

  /** The whole pack: a stream shorter than the 12-byte header is truncated;
      otherwise the records start right after the header and at most the
      declared count is listed, numbered from count - 1 down. */
  lemma PackListing(inflate: Inflater, data: seq<byte>, blockSize: nat)
    requires 0 < blockSize
    ensures var l := ListPackSpec(inflate, data, blockSize);
      && (|data| < PackHeaderSize ==> l == Listing([], Some(StreamTruncated), |data|))
      && (|data| >= PackHeaderSize ==>
            var count := ReadUInt32BE(data[8..12]);
            && |l.records| <= count
            && Contiguous(l.records, PackHeaderSize, |data|)
            && CountsDown(l.records, count))
  {
    if |data| >= PackHeaderSize {
      var count := ReadUInt32BE(data[8..12]);
      ListingCount(inflate, data, blockSize, PackHeaderSize, count);
      ListingLayout(inflate, data, blockSize, PackHeaderSize, count);
    }
  }
}
