/** parseHeader: the variable-length header in front of every object of a
    pack. The first byte holds a continuation bit (7), the type (bits 6-4)
    and the low four bits of the inflated length (bits 3-0); while the
    continuation bit is set, further bytes add seven bits each. An
    offset-delta (type 6) is followed by a base-offset varint, a
    reference-delta (type 7) by the 20-byte id of its base. */
module ObjectHeaders {
  import opened Bytes
  import opened Errors
  import opened Streams
  import opened HashInput

  /** What parseHeader returns; `ofs` and `reference` are undefined (None)
      where the code leaves them unset. `length` is the JavaScript number
      the code's 32-bit `|=` produced. */
  datatype ObjectHeader = ObjectHeader(kind: nat, length: int, ofs: Option<int>, reference: Option<seq<byte>>)

  const OfsDelta: nat := 6
  const RefDelta: nat := 7
  const BaseIdSize: nat := 20

  /** `(byte >> 4) & 0b111` */
  function Kind(b: byte): (k: nat)
    ensures k < 8
  {
    b as nat / 16 % 8
  }

  /** `byte & 0b1111` */
  function LowNibble(b: byte): (r: nat)
    ensures r < 16
  {
    b as nat % 16
  }

  /** The bytes of one varint at the start of s: up to and including the
      first byte whose continuation bit is clear, or None when s ends first. */
  function GroupLen(s: seq<byte>): (r: Option<nat>)
    ensures r.Some? ==> 1 <= r.value <= |s|
  {
    if |s| == 0 then None
    else if !Continues(s[0]) then Some(1)
    else match GroupLen(s[1..])
      case None => None
      case Some(n) => Some(n + 1)
  }

  /** A varint found by GroupLen is a run of set continuation bits closed by
      one clear bit; when none is found, every bit of s is set. */
  lemma {:induction false} GroupLenShape(s: seq<byte>)
    ensures GroupLen(s).Some? ==> !Continues(s[GroupLen(s).value - 1])
    ensures GroupLen(s).Some? ==> forall k :: 0 <= k < GroupLen(s).value - 1 ==> Continues(s[k])
    ensures GroupLen(s).None? <==> forall k :: 0 <= k < |s| ==> Continues(s[k])
  {
    if |s| > 0 && Continues(s[0]) {
      GroupLenShape(s[1..]);
      assert forall k :: 1 <= k < |s| ==> s[k] == s[1..][k - 1];
    }
  }

  /** Reading one more byte after a run of set continuation bits either
      extends the run or closes the varint. */
  lemma {:induction false} GroupLenSnoc(p: seq<byte>, c: byte)
    requires GroupLen(p).None?
    ensures GroupLen(p + [c]) == if Continues(c) then None else Some(|p| + 1)
  {
    if |p| > 0 {
      assert (p + [c])[1..] == p[1..] + [c];
      GroupLenSnoc(p[1..], c);
    }
  }

  /** Bytes after a complete varint do not change where it ends. */
  lemma {:induction false} GroupLenAppend(p: seq<byte>, t: seq<byte>)
    requires GroupLen(p).Some?
    ensures GroupLen(p + t) == GroupLen(p)
  {
    if Continues(p[0]) {
      assert (p + t)[1..] == p[1..] + t;
      GroupLenAppend(p[1..], t);
    }
  }

  /** The 32 bits that `acc |= (b & 0x7F) << shift; shift += 7` leaves after
      the bytes g, starting from `init` and the given shift (JavaScript
      arithmetic: the shift count wraps modulo 32, bits beyond 31 are lost). */
  function Accumulate(init: Bits32, g: seq<byte>, shift: nat): (r: Bits32)
  {
    if |g| == 0 then init
    else Or32(Accumulate(init, g[..|g| - 1], shift), Shl32(Low7(g[|g| - 1]), shift + 7 * (|g| - 1)))
  }

  lemma AccumulateSnoc(init: Bits32, g: seq<byte>, c: byte, shift: nat)
    ensures Accumulate(init, g + [c], shift) == Or32(Accumulate(init, g, shift), Shl32(Low7(c), shift + 7 * |g|))
  {
    assert (g + [c])[..|g|] == g;
  }

  /** The value of the base offset as the code computes it: the seven-bit
      groups summed least significant first. */
  function OfsValue(reference: seq<byte>): (r: int)
    ensures -0x8000_0000 <= r < 0x8000_0000
  {
    Int32(Accumulate(0, reference, 0))
  }

  /** The type and the length at the start of s and how many bytes they
      occupy: the first byte, and the size varint after it when its
      continuation bit is set. */
  function LengthSpec(s: seq<byte>): (r: Result<(nat, Bits32, nat), PackError>)
    ensures r.Success? ==> 0 < r.value.2 <= |s|
    ensures r.Failure? ==> r.error == StreamTruncated
  {
    if |s| == 0 then Failure(StreamTruncated)
    else if !Continues(s[0]) then Success((Kind(s[0]), LowNibble(s[0]), 1))
    else match GroupLen(s[1..])
      case None => Failure(StreamTruncated)
      case Some(m) => Success((Kind(s[0]), Accumulate(LowNibble(s[0]), s[1..1 + m], 4), 1 + m))
  }

  /** The header at the start of s and how many bytes it occupies, or the
      truncated-stream failure the reader raises when s ends inside it. */
  function ParseHeaderSpec(s: seq<byte>): (r: Result<(ObjectHeader, nat), PackError>)
    ensures r.Success? ==> 0 < r.value.1 <= |s|
    ensures r.Failure? ==> r.error == StreamTruncated
  {
    match LengthSpec(s)
    case Failure(e) => Failure(e)
    case Success((kind, length, n)) =>
      After(n, ParseBase(s[n..], ObjectHeader(kind, Int32(length), None, None)))
  }

  lemma HeaderSpecSuccess(s: seq<byte>, kind: nat, length: Bits32, n: nat, h: ObjectHeader, q: nat)
    requires LengthSpec(s) == Success((kind, length, n))
    requires ParseBase(s[n..], ObjectHeader(kind, Int32(length), None, None)) == Success((h, q))
    ensures ParseHeaderSpec(s) == Success((h, n + q))
  {
  }

  lemma HeaderSpecFailure(s: seq<byte>, kind: nat, length: Bits32, n: nat)
    requires LengthSpec(s) == Success((kind, length, n))
    requires ParseBase(s[n..], ObjectHeader(kind, Int32(length), None, None)).Failure?
    ensures ParseHeaderSpec(s) == Failure(StreamTruncated)
  {
  }

  /** A parse of the bytes that follow the first k. */
  function After(k: nat, r: Result<(ObjectHeader, nat), PackError>): (a: Result<(ObjectHeader, nat), PackError>)
  {
    if r.Failure? then Failure(r.error) else Success((r.value.0, k + r.value.1))
  }

  /** The part of the header after the length, t: the base reference of a
      deltified object, and how many bytes of t it takes. */
  function ParseBase(t: seq<byte>, h: ObjectHeader): (r: Result<(ObjectHeader, nat), PackError>)
    ensures r.Success? ==> r.value.1 <= |t|
    ensures r.Failure? ==> r.error == StreamTruncated
  {
    if h.kind == OfsDelta then
      match GroupLen(t)
      case None => Failure(StreamTruncated)
      case Some(q) => Success((h.(ofs := Some(OfsValue(t[..q])), reference := Some(t[..q])), q))
    else if h.kind == RefDelta then
      if |t| < BaseIdSize then Failure(StreamTruncated)
      else Success((h.(reference := Some(t[..BaseIdSize])), BaseIdSize))
    else Success((h, 0))
  }

  /** The `do { byte = reader.byte(); hash.update(byte); acc |= (byte & 0x7F)
      << shift; shift += 7 } while (byte & 0x80)` loop the code runs twice:
      reads one varint, hashing each byte, and returns the accumulated bits
      together with the bytes read. */
  method ReadVarint(reader: StreamReader, hash: Hash, init: Bits32, shift0: nat)
      returns (r: Result<(Bits32, seq<byte>), PackError>)
    requires reader.Valid()
    modifies reader, hash
    ensures reader.Valid()
    ensures var s := reader.data[old(reader.pos)..];
      match r
      case Success((acc, bytes)) =>
        GroupLen(s) == Some(|bytes|) && bytes == s[..|bytes|] && acc == Accumulate(init, bytes, shift0) &&
        reader.pos == old(reader.pos) + |bytes| && !reader.ended && hash.input == old(hash.input) + bytes
      case Failure(e) => GroupLen(s).None? && e == StreamTruncated
  {
    ghost var start := reader.pos;
    ghost var s := reader.data[start..];
    var shift := shift0;
    var acc := init;
    var bytes: seq<byte> := [];
    var more := true;
    while more
      invariant reader.Valid() && (|bytes| > 0 ==> !reader.ended)
      invariant reader.pos == start + |bytes| <= |reader.data|
      invariant bytes == s[..|bytes|]
      invariant shift == shift0 + 7 * |bytes|
      invariant acc == Accumulate(init, bytes, shift0)
      invariant hash.input == old(hash.input) + bytes
      invariant more ==> GroupLen(bytes).None?
      invariant !more ==> GroupLen(bytes) == Some(|bytes|)
      decreases |reader.data| - reader.pos
    {
      var next := reader.Byte();
      if next.Failure? {
        assert s == bytes;
        return Failure(next.error);
      }
      var c := next.value;
      AppendAssoc(old(hash.input), bytes, [c]);
      hash.Update([c]);
      AccumulateSnoc(init, bytes, c, shift0);
      GroupLenSnoc(bytes, c);
      assert s[..|bytes| + 1] == bytes + [c];
      acc := Or32(acc, Shl32(Low7(c), shift));
      shift := shift + 7;
      bytes := bytes + [c];
      more := Continues(c);
    }
    assert s == bytes + s[|bytes|..];
    GroupLenAppend(bytes, s[|bytes|..]);
    r := Success((acc, bytes));
  }

  /** parseHeader(reader, hash): reads one object header, hashing every
      byte it reads. */
  method ParseHeader(reader: StreamReader, hash: Hash) returns (r: Result<ObjectHeader, PackError>)
    requires reader.Valid()
    modifies reader, hash
    ensures reader.Valid()
    ensures r.Success? ==>
      && old(reader.pos) <= reader.pos && !reader.ended
      && ParseHeaderSpec(reader.data[old(reader.pos)..]) == Success((r.value, reader.pos - old(reader.pos)))
      && hash.input == old(hash.input) + reader.data[old(reader.pos)..reader.pos]
    ensures r.Failure? ==> ParseHeaderSpec(reader.data[old(reader.pos)..]) == Failure(r.error)
  {
    ghost var start := reader.pos;
    ghost var s := reader.data[start..];
    var first := ParseLength(reader, hash, s);
    if first.Failure? {
      return Failure(first.error);
    }
    var (kind, length) := first.value;
    var h0 := ObjectHeader(kind, Int32(length), None, None);
    ghost var mid := reader.pos;
    ghost var t := s[mid - start..];
    r := ParseDelta(reader, hash, h0, t);
    if r.Success? {
      HeaderSpecSuccess(s, kind, length, mid - start, r.value, reader.pos - mid);
      assert (mid - start) + (reader.pos - mid) == reader.pos - start;
      SliceJoin(reader.data, start, mid, reader.pos);
      AppendAssoc(old(hash.input), reader.data[start..mid], reader.data[mid..reader.pos]);
    } else {
      HeaderSpecFailure(s, kind, length, mid - start);
    }
  }

  lemma LengthOneByte(s: seq<byte>)
    requires |s| > 0 && !Continues(s[0])
    ensures LengthSpec(s) == Success((Kind(s[0]), LowNibble(s[0]), 1))
  {
  }

  lemma LengthTruncated(s: seq<byte>)
    requires |s| > 0 && Continues(s[0]) && GroupLen(s[1..]).None?
    ensures LengthSpec(s) == Failure(StreamTruncated)
  {
  }

  lemma LengthGroups(s: seq<byte>, bytes: seq<byte>, acc: Bits32)
    requires |s| > 0 && Continues(s[0]) && GroupLen(s[1..]) == Some(|bytes|)
    requires bytes == s[1..1 + |bytes|] && acc == Accumulate(LowNibble(s[0]), bytes, 4)
    ensures LengthSpec(s) == Success((Kind(s[0]), acc, 1 + |bytes|))
  {
  }

  /** The first part of parseHeader: the type and the size varint. */
  method ParseLength(reader: StreamReader, hash: Hash, ghost s: seq<byte>) returns (r: Result<(nat, Bits32), PackError>)
    requires reader.Valid() && s == reader.data[reader.pos..]
    modifies reader, hash
    ensures reader.Valid()
    ensures r.Success? ==>
      && old(reader.pos) <= reader.pos && !reader.ended
      && LengthSpec(s) == Success((r.value.0, r.value.1, reader.pos - old(reader.pos)))
      && hash.input == old(hash.input) + reader.data[old(reader.pos)..reader.pos]
    ensures r.Failure? ==> LengthSpec(s) == Failure(r.error)
  {
    var first := reader.Byte();
    if first.Failure? {
      return Failure(first.error);
    }
    var c := first.value;
    hash.Update([c]);
    assert reader.data[old(reader.pos)..reader.pos] == [c];
    if Continues(c) {
      r := ParseLengthGroups(reader, hash, s, c);
    } else {
      LengthOneByte(s);
      r := Success((Kind(c), LowNibble(c)));
    }
  }

  /** The `do ... while (b & 0b10000000)` loop of the length, after a first
      byte c that has the continuation bit set. */
  method ParseLengthGroups(reader: StreamReader, hash: Hash, ghost s: seq<byte>, c: byte)
      returns (r: Result<(nat, Bits32), PackError>)
    requires reader.Valid() && 0 < reader.pos && |s| > 0 && s[0] == c && Continues(c)
    requires s[1..] == reader.data[reader.pos..]
    modifies reader, hash
    ensures reader.Valid()
    ensures r.Success? ==>
      && old(reader.pos) <= reader.pos && !reader.ended
      && LengthSpec(s) == Success((r.value.0, r.value.1, 1 + reader.pos - old(reader.pos)))
      && hash.input == old(hash.input) + reader.data[old(reader.pos)..reader.pos]
    ensures r.Failure? ==> LengthSpec(s) == Failure(r.error)
  {
    var more := ReadVarint(reader, hash, LowNibble(c), 4);
    if more.Failure? {
      LengthTruncated(s);
      return Failure(more.error);
    }
    var (acc, bytes) := more.value;
    assert s[1..][..|bytes|] == s[1..1 + |bytes|];
    LengthGroups(s, bytes, acc);
    r := Success((Kind(c), acc));
  }

  /** The "handle deltified objects" part of parseHeader: the base-offset
      varint of an offset-delta, kept as `reference` and summed into `ofs`;
      the 20-byte base id of a reference-delta. */
  method ParseDelta(reader: StreamReader, hash: Hash, h: ObjectHeader, ghost t: seq<byte>)
      returns (r: Result<ObjectHeader, PackError>)
    requires reader.Valid() && t == reader.data[reader.pos..]
    modifies reader, hash
    ensures reader.Valid()
    ensures r.Success? ==>
      && old(reader.pos) <= reader.pos && (!old(reader.ended) ==> !reader.ended)
      && ParseBase(t, h) == Success((r.value, reader.pos - old(reader.pos)))
      && hash.input == old(hash.input) + reader.data[old(reader.pos)..reader.pos]
    ensures r.Failure? ==> ParseBase(t, h) == Failure(r.error)
  {
    var ofs: Option<int> := h.ofs;
    var reference: Option<seq<byte>> := h.reference;
    if h.kind == OfsDelta {
      var group := ReadVarint(reader, hash, 0, 0);
      if group.Failure? {
        return Failure(group.error);
      }
      var (acc, bytes) := group.value;
      ofs := Some(Int32(acc));
      reference := Some(bytes);
    } else if h.kind == RefDelta {
      var buf := reader.Read(BaseIdSize);
      if buf.Failure? {
        return Failure(buf.error);
      }
      hash.Update(buf.value);
      assert t[..BaseIdSize] == buf.value;
      reference := Some(buf.value);
    }
    r := Success(h.(ofs := ofs, reference := reference));
  }
}
