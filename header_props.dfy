/** What parseHeader's decoding means: the value of the seven-bit groups,
    where a header ends, what each field holds, and an encoder that the
    decoder inverts. */
module HeaderProperties {
  import opened Bytes
  import opened Errors
  import opened ObjectHeaders

  /** The seven-bit groups of g read least significant first: group k weighs
      128^k. */
  function GroupValue(g: seq<byte>): (v: nat)
  {
    if |g| == 0 then 0 else Low7(g[0]) + 128 * GroupValue(g[1..])
  }

  lemma {:induction false} GroupValueBound(g: seq<byte>)
    ensures GroupValue(g) < Pow2(7 * |g|)
  {
    if |g| > 0 {
      GroupValueBound(g[1..]);
      Pow2Step7(7 * (|g| - 1));
    }
  }

  lemma {:induction false} GroupValueSnoc(g: seq<byte>, c: byte)
    ensures GroupValue(g + [c]) == GroupValue(g) + Pow2(7 * |g|) * Low7(c)
  {
    if |g| == 0 {
      assert g + [c] == [c];
    } else {
      assert (g + [c])[1..] == g[1..] + [c];
      GroupValueSnoc(g[1..], c);
      Distribute(128, GroupValue(g[1..]), Pow2(7 * (|g| - 1)), Low7(c));
      Pow2Step7(7 * (|g| - 1));
    }
  }

  lemma Pow2Step7(k: nat)
    ensures Pow2(k + 7) == 128 * Pow2(k)
  {
    assert Pow2(k + 7) == 2 * Pow2(k + 6);
    assert Pow2(k + 6) == 2 * Pow2(k + 5);
    assert Pow2(k + 5) == 2 * Pow2(k + 4);
    assert Pow2(k + 4) == 2 * Pow2(k + 3);
    assert Pow2(k + 3) == 2 * Pow2(k + 2);
    assert Pow2(k + 2) == 2 * Pow2(k + 1);
    assert Pow2(k + 1) == 2 * Pow2(k);
  }

  /** A seven-bit group shifted to bit k stays below bit 32 when k <= 25. */
  lemma GroupFits(x: nat, k: nat)
    requires x < 128 && k + 7 <= 32
    ensures x * Pow2(k) < TwoTo32
  {
    MulLess(x, 128, Pow2(k));
    Pow2Step7(k);
    Pow2Monotone(k + 7, 32);
    Pow2Values();
  }

  /** `x << k` loses no bits when x * 2^k fits in 32 bits. */
  lemma ShlExact(x: Bits32, k: nat)
    requires k < 32 && x * Pow2(k) < TwoTo32
    ensures Shl32(x, k) == x * Pow2(k)
  {
    assert Shl32(x, k) == ShlBits(x, k) by {
      assert k % 32 == k;
    }
    ShlBitsValue(x, k);
    MulNonnegative(x, Pow2(k));
    ModSmall(x * Pow2(k), TwoTo32);
  }

  /** One step of `acc |= (b & 0x7F) << shift` when acc has no bit at or
      above `shift` and the group fits below bit 32. */
  lemma OrShiftStep(a: Bits32, c: byte, k: nat)
    requires a < Pow2(k) && k + 7 <= 32
    ensures Or32(a, Shl32(Low7(c), k)) == a + Pow2(k) * Low7(c)
  {
    GroupFits(Low7(c), k);
    ShlExact(Low7(c), k);
    BitOrDisjoint(a, Low7(c), k);
    assert Low7(c) * Pow2(k) == Pow2(k) * Low7(c);
  }

  lemma MulNonnegative(a: nat, b: nat)
    ensures 0 <= a * b
  {
  }

  lemma ModSmall(v: int, m: int)
    requires 0 <= v < m
    ensures v % m == v
  {
  }

  lemma MulLess(x: nat, y: nat, z: nat)
    requires x < y && 0 < z
    ensures x * z < y * z
  {
  }

  lemma ScaledBound(p: nat, init: nat, v: nat, pg: nat)
    requires init < p && v < pg
    ensures init + p * v < p * pg
  {
    assert p * v <= p * (pg - 1);
  }

  lemma Distribute(p: nat, v: nat, pg: nat, c: nat)
    ensures p * (v + pg * c) == p * v + (p * pg) * c
  {
  }

  lemma StepSum(init: nat, a: nat, p: nat, q: nat, pk: nat, v: nat, c: nat, total: nat, value: nat)
    requires a == init + p * v && pk == p * q && value == v + q * c && total == a + pk * c
    ensures total == init + p * value
  {
    Distribute(p, v, q, c);
  }

  /** As long as no group is shifted past bit 31, the code's `|=` of shifted
      groups is plain addition: the accumulated bits are `init` plus the
      group value scaled by the starting shift. */
  lemma {:induction false} AccumulateExact(init: Bits32, g: seq<byte>, shift: nat)
    requires init < Pow2(shift) && shift + 7 * |g| <= 32
    ensures Accumulate(init, g, shift) == init + Pow2(shift) * GroupValue(g)
  {
    if |g| > 0 {
      var g', c := g[..|g| - 1], g[|g| - 1];
      var k := shift + 7 * |g'|;
      var a := Accumulate(init, g', shift);
      var p, q, v := Pow2(shift), Pow2(7 * |g'|), GroupValue(g');
      AccumulateExact(init, g', shift);
      Pow2Add(shift, 7 * |g'|);
      assert a < Pow2(k) by {
        GroupValueBound(g');
        ScaledBound(p, init, v, q);
      }
      assert Accumulate(init, g, shift) == a + Pow2(k) * Low7(c) by {
        OrShiftStep(a, c, k);
      }
      assert GroupValue(g) == v + q * Low7(c) by {
        assert g' + [c] == g;
        GroupValueSnoc(g', c);
      }
      StepSum(init, a, p, q, Pow2(k), v, Low7(c), Accumulate(init, g, shift), GroupValue(g));
    }
  }

  /** The weights of the first four seven-bit groups. */
  lemma GroupWeights()
    ensures Pow2(0) == 1 && Pow2(7) == 128 && Pow2(14) == 0x4000
    ensures Pow2(21) == 0x20_0000 && Pow2(28) == 0x1000_0000
  {
    Pow2Step7(0);
    Pow2Step7(7);
    Pow2Step7(14);
    Pow2Step7(21);
  }

  /** The bytes of a varint as the lister reads it back: seven bits per
      byte, least significant group first, the continuation bit set on every
      byte but the last. */
  function EncodeGroups(v: nat): (g: seq<byte>)
    ensures |g| >= 1
    decreases v
  {
    if v < 128 then [v as byte] else [(128 + v % 128) as byte] + EncodeGroups(v / 128)
  }

  lemma {:induction false} EncodeGroupsValue(v: nat)
    ensures GroupValue(EncodeGroups(v)) == v
    decreases v
  {
    if v >= 128 {
      var g := EncodeGroups(v);
      assert g[0] == (128 + v % 128) as byte && g[1..] == EncodeGroups(v / 128);
      EncodeGroupsValue(v / 128);
    }
  }

  /** A value below 2^(7k) takes at most k groups. */
  lemma {:induction false} EncodeGroupsSize(v: nat, k: nat)
    requires 1 <= k && v < Pow2(7 * k)
    ensures |EncodeGroups(v)| <= k
    decreases k
  {
    if v >= 128 {
      Pow2Step7(7 * (k - 1));
      EncodeGroupsSize(v / 128, k - 1);
    }
  }

  /** The lister's varint loop stops exactly at the end of an encoded value,
      whatever follows it. */
  lemma {:induction false} EncodeGroupsEnd(v: nat, rest: seq<byte>)
    ensures GroupLen(EncodeGroups(v) + rest) == Some(|EncodeGroups(v)|)
    decreases v
  {
    var g := EncodeGroups(v);
    if v >= 128 {
      assert (g + rest)[0] == g[0] && Continues(g[0]);
      assert (g + rest)[1..] == EncodeGroups(v / 128) + rest;
      EncodeGroupsEnd(v / 128, rest);
    } else {
      assert (g + rest)[0] == v as byte;
    }
  }

  /** The first header byte and the size varint that carry `kind` and
      `length`. */
  function EncodeLength(kind: nat, length: nat): (e: seq<byte>)
    requires kind < 8
    ensures |e| >= 1
  {
    var first := (if length < 16 then 0 else 128) + 16 * kind + length % 16;
    [first as byte] + (if length < 16 then [] else EncodeGroups(length / 16))
  }

  /** The headers an encoder can produce and the lister reads back intact:
      a type of three bits, a length the code's 32-bit arithmetic does not
      wrap, a base offset of at most four groups stored with its own
      encoding as `reference`, a 20-byte base id, and no base otherwise. */
  ghost predicate Encodable(h: ObjectHeader)
  {
    && h.kind < 8 && 0 <= h.length < 0x8000_0000
    && (h.kind == OfsDelta ==>
          h.ofs.Some? && 0 <= h.ofs.value < 0x1000_0000 && h.reference == Some(EncodeGroups(h.ofs.value)))
    && (h.kind == RefDelta ==> h.ofs.None? && h.reference.Some? && |h.reference.value| == BaseIdSize)
    && (h.kind != OfsDelta && h.kind != RefDelta ==> h.ofs.None? && h.reference.None?)
  }

  function EncodeHeader(h: ObjectHeader): (e: seq<byte>)
    requires Encodable(h)
    ensures |e| >= 1
  {
    EncodeLength(h.kind, h.length as nat) + (if h.reference.Some? then h.reference.value else [])
  }

  /** The first byte of an encoded header carries the type, the low nibble
      of the length and the continuation bit as the lister reads them. */
  lemma FirstByteFields(kind: nat, length: nat)
    requires kind < 8
    ensures var f := EncodeLength(kind, length)[0];
      Kind(f) == kind && LowNibble(f) == length % 16 && (Continues(f) <==> length >= 16)
  {
    var c := if length < 16 then 0 else 1;
    var f := 128 * c + 16 * kind + length % 16;
    assert f / 16 == 8 * c + kind;
  }

  lemma {:induction false} LengthRoundTrip(kind: nat, length: nat, tail: seq<byte>)
    requires kind < 8 && length < 0x8000_0000
    ensures LengthSpec(EncodeLength(kind, length) + tail) == Success((kind, length, |EncodeLength(kind, length)|))
  {
    var e := EncodeLength(kind, length);
    var s := e + tail;
    FirstByteFields(kind, length);
    assert s[0] == e[0];
    if length >= 16 {
      var g := EncodeGroups(length / 16);
      assert s[1..] == g + tail;
      EncodeGroupsEnd(length / 16, tail);
      assert s[1..1 + |g|] == g;
      assert |g| <= 4 by {
        GroupWeights();
        EncodeGroupsSize(length / 16, 4);
      }
      var acc := Accumulate(length % 16, g, 4);
      assert acc == length by {
        Pow2Values();
        AccumulateExact(length % 16, g, 4);
        EncodeGroupsValue(length / 16);
      }
      assert LengthSpec(s) == Success((kind, acc, 1 + |g|));
    }
  }

  lemma {:induction false} BaseRoundTrip(h: ObjectHeader, rest: seq<byte>)
    requires Encodable(h)
    ensures ParseBase((if h.reference.Some? then h.reference.value else []) + rest, h.(ofs := None, reference := None))
      == Success((h, if h.reference.Some? then |h.reference.value| else 0))
  {
    var h0 := h.(ofs := None, reference := None);
    if h.kind == OfsDelta {
      var o := h.ofs.value;
      var g := EncodeGroups(o);
      EncodeGroupsEnd(o, rest);
      assert (g + rest)[..|g|] == g;
      assert |g| <= 4 by {
        GroupWeights();
        EncodeGroupsSize(o, 4);
      }
      assert Accumulate(0, g, 0) == o by {
        GroupWeights();
        AccumulateExact(0, g, 0);
        EncodeGroupsValue(o);
      }
      assert OfsValue(g) == o;
    } else if h.kind == RefDelta {
      assert (h.reference.value + rest)[..BaseIdSize] == h.reference.value;
    }
  }

  /** Decoding an encoded header gives the header back and consumes exactly
      its bytes, whatever follows it in the stream. */
  lemma HeaderRoundTrip(h: ObjectHeader, rest: seq<byte>)
    requires Encodable(h)
    ensures ParseHeaderSpec(EncodeHeader(h) + rest) == Success((h, |EncodeHeader(h)|))
  {
    var e := EncodeLength(h.kind, h.length as nat);
    var b := if h.reference.Some? then h.reference.value else [];
    assert EncodeHeader(h) == e + b;
    LengthRoundTrip(h.kind, h.length as nat, b + rest);
    BaseRoundTrip(h, rest);
    assert h.(ofs := None, reference := None) == ObjectHeader(h.kind, h.length, None, None);
    HeaderCompose(e, b, rest, h.kind, h.length as nat, h);
  }

  /** A type and length that end after the bytes e, followed by base bytes
      b that parse on their own, parse together, whatever follows. */
  lemma HeaderCompose(e: seq<byte>, b: seq<byte>, rest: seq<byte>, kind: nat, length: nat, h: ObjectHeader)
    requires length < 0x8000_0000 && LengthSpec(e + (b + rest)) == Success((kind, length, |e|))
    requires ParseBase(b + rest, ObjectHeader(kind, length, None, None)) == Success((h, |b|))
    ensures ParseHeaderSpec((e + b) + rest) == Success((h, |e + b|))
  {
    var s := e + (b + rest);
    assert (e + b) + rest == s by { AppendAssoc(e, b, rest); }
    assert Int32(length) == length;
    DropPrefix(e, b + rest);
    HeaderSpecSuccess(s, kind, length, |e|, h, |b|);
    assert |e + b| == |e| + |b|;
  }

  /** The length part of the header of a 117-byte blob (type 3): the first
      byte holds the low nibble 5 and the continuation bit, the second the
      group 7. */
  lemma LengthExample()
    ensures LengthSpec([0xB5, 0x07]) == Success((3, 117, 2))
  {
    assert EncodeLength(3, 117) == [0xB5, 0x07];
    LengthRoundTrip(3, 117, []);
    assert EncodeLength(3, 117) + [] == [0xB5, 0x07];
  }

  /** The whole header of that blob: nothing follows the length. */
  lemma HeaderExample()
    ensures ParseHeaderSpec([0xB5, 0x07]) == Success((ObjectHeader(3, 117, None, None), 2))
  {
    var s: seq<byte> := [0xB5, 0x07];
    var h := ObjectHeader(3, 117, None, None);
    LengthExample();
    assert ParseBase(s[2..], h) == Success((h, 0));
    HeaderSpecSuccess(s, 3, 117, 2, h, 0);
  }

  /** The distance to the base of an offset-delta as Git's pack format
      defines it: groups most significant first, each continuation adding one
      before the shift. */
  function GitBaseDistance(g: seq<byte>): nat
    requires |g| >= 1
  {
    if |g| == 1 then Low7(g[0])
    else (GitBaseDistance(g[..|g| - 1]) + 1) * 128 + Low7(g[|g| - 1])
  }

  /** The code's `ofs` is not Git's base distance: for the two bytes 0x90
      0x02 the code computes 16 + (2 << 7) = 272, Git's format means
      (16 + 1) * 128 + 2 = 2178. */
  lemma OfsDiffersFromGit()
    ensures OfsValue([0x90, 0x02]) == 272 && GitBaseDistance([0x90, 0x02]) == 2178
  {
    var g: seq<byte> := [0x90, 0x02];
    assert g[..1] == [0x90] && [0x90][..0] == [];
    GroupWeights();
    OrShiftStep(16, 0x02, 7);
  }
}
