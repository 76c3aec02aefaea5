/** Where a header ends: parseHeader reads exactly the bytes of one header,
    no matter what follows them, and fails on any shorter prefix. */
module HeaderBounds {
  import opened Bytes
  import opened Errors
  import opened ObjectHeaders
  import opened HeaderProperties

  /** A varint's own bytes are enough to find its end. */
  lemma {:induction false} GroupLenTake(s: seq<byte>, n: nat)
    requires GroupLen(s) == Some(n)
    ensures GroupLen(s[..n]) == Some(n)
  {
    if Continues(s[0]) {
      assert s[..n][1..] == s[1..][..n - 1];
      GroupLenTake(s[1..], n - 1);
    }
  }

  /** A proper prefix of a varint does not hold its last byte. */
  lemma {:induction false} GroupLenShort(s: seq<byte>, n: nat, k: nat)
    requires GroupLen(s) == Some(n) && k < n
    ensures GroupLen(s[..k]).None?
  {
    if k > 0 {
      assert s[..k][1..] == s[1..][..k - 1];
      GroupLenShort(s[1..], n - 1, k - 1);
    }
  }

  lemma GroupLenReplaceTail(s: seq<byte>, n: nat, t: seq<byte>)
    requires GroupLen(s) == Some(n)
    ensures GroupLen(s[..n] + t) == Some(n)
  {
    GroupLenTake(s, n);
    GroupLenAppend(s[..n], t);
  }

  lemma LengthSpecPrefix(s: seq<byte>, kind: nat, length: Bits32, n: nat, t: seq<byte>)
    requires LengthSpec(s) == Success((kind, length, n))
    ensures LengthSpec(s[..n] + t) == Success((kind, length, n))
  {
    var u := s[..n] + t;
    assert u[0] == s[0];
    if Continues(s[0]) {
      assert u[1..] == s[1..][..n - 1] + t;
      GroupLenReplaceTail(s[1..], n - 1, t);
      assert u[1..n] == s[1..n];
    }
  }

  lemma ParseBasePrefix(u: seq<byte>, h: ObjectHeader, h': ObjectHeader, q: nat, t: seq<byte>)
    requires ParseBase(u, h) == Success((h', q))
    ensures ParseBase(u[..q] + t, h) == Success((h', q))
  {
    var v := u[..q] + t;
    if h.kind == OfsDelta {
      GroupLenReplaceTail(u, q, t);
      assert v[..q] == u[..q];
    } else if h.kind == RefDelta {
      assert v[..BaseIdSize] == u[..BaseIdSize];
    }
  }

  /** The bytes after a header do not change how it is read. */
  lemma HeaderPrefix(s: seq<byte>, h: ObjectHeader, n: nat, t: seq<byte>)
    requires ParseHeaderSpec(s) == Success((h, n))
    ensures ParseHeaderSpec(s[..n] + t) == Success((h, n))
  {
    var Success((kind, length, nl)) := LengthSpec(s);
    var u := s[..n] + t;
    var h0 := ObjectHeader(kind, Int32(length), None, None);
    var Success((h', q)) := ParseBase(s[nl..], h0);
    assert h' == h && n == nl + q;
    assert u == s[..nl] + (s[nl..][..q] + t);
    LengthSpecPrefix(s, kind, length, nl, s[nl..][..q] + t);
    assert u[nl..] == s[nl..][..q] + t;
    ParseBasePrefix(s[nl..], h0, h, q, t);
    HeaderSpecSuccess(u, kind, length, nl, h, q);
  }

  lemma LengthSpecShort(s: seq<byte>, kind: nat, length: Bits32, n: nat, k: nat)
    requires LengthSpec(s) == Success((kind, length, n)) && k < n
    ensures LengthSpec(s[..k]).Failure?
  {
    if k > 0 {
      assert s[..k][1..] == s[1..][..k - 1];
      GroupLenShort(s[1..], n - 1, k - 1);
    }
  }

  lemma ParseBaseShort(u: seq<byte>, h: ObjectHeader, h': ObjectHeader, q: nat, k: nat)
    requires ParseBase(u, h) == Success((h', q)) && k < q
    ensures ParseBase(u[..k], h).Failure?
  {
    if h.kind == OfsDelta {
      GroupLenShort(u, q, k);
    }
  }

  /** Every proper prefix of a header is reported as a truncated stream. */
  lemma HeaderShort(s: seq<byte>, h: ObjectHeader, n: nat, k: nat)
    requires ParseHeaderSpec(s) == Success((h, n)) && k < n
    ensures ParseHeaderSpec(s[..k]) == Failure(StreamTruncated)
  {
    var Success((kind, length, nl)) := LengthSpec(s);
    var h0 := ObjectHeader(kind, Int32(length), None, None);
    var Success((h', q)) := ParseBase(s[nl..], h0);
    if k < nl {
      LengthSpecShort(s, kind, length, nl, k);
    } else {
      assert s[..k] == s[..nl] + s[nl..k];
      LengthSpecPrefix(s, kind, length, nl, s[nl..k]);
      assert s[..k][nl..] == s[nl..][..k - nl];
      ParseBaseShort(s[nl..], h0, h', q, k - nl);
    }
  }

  /** What each field of a parsed header holds: the type of the first byte,
      the reference as the bytes that follow the type and length and end the
      header (the base-offset varint of an offset-delta, the 20-byte id of a
      reference-delta), and `ofs` only for an offset-delta, computed from
      that varint. Without a reference the header is the type and length
      alone. */
  lemma HeaderFields(s: seq<byte>, h: ObjectHeader, n: nat)
    requires ParseHeaderSpec(s) == Success((h, n))
    ensures h.kind == Kind(s[0])
    ensures h.reference.Some? <==> h.kind == OfsDelta || h.kind == RefDelta
    ensures h.ofs.Some? <==> h.kind == OfsDelta
    ensures h.reference.Some? ==> |h.reference.value| <= n && h.reference.value == s[n - |h.reference.value|..n]
    ensures h.kind == RefDelta ==> |h.reference.value| == BaseIdSize
    ensures h.kind == OfsDelta ==>
      && GroupLen(h.reference.value) == Some(|h.reference.value|)
      && h.ofs.value == OfsValue(h.reference.value)
    ensures h.length == Int32(LengthSpec(s).value.1)
    ensures h.reference.Some? ==> n == LengthSpec(s).value.2 + |h.reference.value|
    ensures h.reference.None? ==> n == LengthSpec(s).value.2
  {
    var Success((kind, length, nl)) := LengthSpec(s);
    var h0 := ObjectHeader(kind, Int32(length), None, None);
    var Success((h', q)) := ParseBase(s[nl..], h0);
    assert s[nl..][..q] == s[nl..n];
    if kind == OfsDelta {
      GroupLenTake(s[nl..], q);
    }
  }

  /** Continuation byte k of the length carries bits 4+7k and up: with at
      most four continuation bytes nothing is shifted past bit 31, and the
      length is the low nibble plus 16 times the value of the groups (read
      as a signed 32-bit number, which changes it only from 2^31 on). */
  lemma LengthValue(s: seq<byte>, h: ObjectHeader, n: nat)
    requires ParseHeaderSpec(s) == Success((h, n))
    requires LengthSpec(s).value.2 <= 5
    ensures var nl := LengthSpec(s).value.2;
      var v := LowNibble(s[0]) + 16 * GroupValue(s[1..nl]);
      && h.length % TwoTo32 == v
      && (v < 0x8000_0000 ==> h.length == v)
  {
    var Success((kind, length, nl)) := LengthSpec(s);
    HeaderFields(s, h, n);
    if nl > 1 {
      Pow2Values();
      AccumulateExact(LowNibble(s[0]), s[1..nl], 4);
    }
  }

  /** The base offset of an offset-delta of at most four bytes is the sum of
      its seven-bit groups, least significant first. */
  lemma OfsValueExact(s: seq<byte>, h: ObjectHeader, n: nat)
    requires ParseHeaderSpec(s) == Success((h, n))
    requires h.kind == OfsDelta && |h.reference.value| <= 4
    ensures h.ofs.value == GroupValue(h.reference.value)
  {
    HeaderFields(s, h, n);
    var g := h.reference.value;
    GroupWeights();
    AccumulateExact(0, g, 0);
    GroupValueBound(g);
    Pow2Monotone(7 * |g|, 28);
  }
}
