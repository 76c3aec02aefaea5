/** Bytes, big-endian words and the 32-bit integer arithmetic of JavaScript's
    bitwise operators, as the pack lister uses them. A byte is its unsigned
    value; the masks the lister applies to a byte are written as the
    arithmetic they amount to (`b & 0b1111` is `b % 16`, `b & 0b10000000`
    is nonzero exactly when `b >= 128`). */
module Bytes {

  newtype byte = x: int | 0 <= x < 256

  const TwoTo32: nat := 0x1_0000_0000

  /** Buffer.readUInt32BE(0) on a 4-byte buffer. */
  function ReadUInt32BE(b: seq<byte>): (r: nat)
    requires |b| == 4
    ensures r < TwoTo32
  {
    ((b[0] as nat * 256 + b[1] as nat) * 256 + b[2] as nat) * 256 + b[3] as nat
  }

  /** The four bytes of a 32-bit unsigned word, most significant first. */
  function EncodeUInt32BE(n: nat): (b: seq<byte>)
    requires n < TwoTo32
    ensures |b| == 4
  {
    [(n / 256 / 256 / 256) as byte, (n / 256 / 256 % 256) as byte, (n / 256 % 256) as byte, (n % 256) as byte]
  }

  lemma UInt32BERoundTrip(n: nat)
    requires n < TwoTo32
    ensures ReadUInt32BE(EncodeUInt32BE(n)) == n
  {
  }

  lemma UInt32BEInjective(b: seq<byte>)
    requires |b| == 4
    ensures EncodeUInt32BE(ReadUInt32BE(b)) == b
  {
    var d0, d1, d2, d3 := b[0] as nat, b[1] as nat, b[2] as nat, b[3] as nat;
    DigitSplit((d0 * 256 + d1) * 256 + d2, d3);
    DigitSplit(d0 * 256 + d1, d2);
    DigitSplit(d0, d1);
  }

  lemma DigitSplit(hi: nat, lo: nat)
    requires lo < 256
    ensures (hi * 256 + lo) / 256 == hi && (hi * 256 + lo) % 256 == lo
  {
  }

  lemma AppendAssoc(a: seq<byte>, b: seq<byte>, c: seq<byte>)
    ensures (a + b) + c == a + (b + c)
  {
  }

  lemma DropPrefix(a: seq<byte>, b: seq<byte>)
    ensures (a + b)[|a|..] == b
  {
  }

  /** Adjacent slices of one sequence join into the slice that spans both. */
  lemma SliceJoin(d: seq<byte>, a: nat, b: nat, c: nat)
    requires a <= b <= c <= |d|
    ensures d[a..b] + d[b..c] == d[a..c]
  {
  }

  function Pow2(n: nat): (r: nat)
    ensures r >= 1
  {
    if n == 0 then 1 else 2 * Pow2(n - 1)
  }

  lemma Pow2Add(a: nat, b: nat)
    ensures Pow2(a + b) == Pow2(a) * Pow2(b)
  {
    if a > 0 {
      Pow2Add(a - 1, b);
    }
  }

  lemma Pow2Values()
    ensures Pow2(4) == 16 && Pow2(7) == 128 && Pow2(32) == TwoTo32
  {
    assert Pow2(2) == 4;
    Pow2Add(2, 2);
    Pow2Add(4, 3);
    assert Pow2(3) == 8;
    Pow2Add(4, 4);
    Pow2Add(8, 8);
    Pow2Add(16, 16);
  }

  lemma Pow2Monotone(a: nat, b: nat)
    requires a <= b
    ensures Pow2(a) <= Pow2(b)
  {
    if a < b {
      Pow2Monotone(a, b - 1);
    }
  }

  /** Bitwise OR of two non-negative integers, bit by bit from the least
      significant end. */
  function BitOr(a: nat, b: nat): (r: nat)
    decreases a + b
  {
    if a == 0 then b
    else if b == 0 then a
    else 2 * BitOr(a / 2, b / 2) + (if a % 2 == 1 || b % 2 == 1 then 1 else 0)
  }

  lemma {:induction false} BitOrBound(a: nat, b: nat, n: nat)
    requires a < Pow2(n) && b < Pow2(n)
    ensures BitOr(a, b) < Pow2(n)
    decreases a + b
  {
    if a != 0 && b != 0 {
      BitOrBound(a / 2, b / 2, n - 1);
    }
  }

  /** OR-ing with a value shifted past every set bit of `a` is addition. */
  lemma {:induction false} BitOrDisjoint(a: nat, b: nat, t: nat)
    requires a < Pow2(t)
    ensures BitOr(a, b * Pow2(t)) == a + b * Pow2(t)
  {
    if t == 0 || a == 0 || b == 0 {
    } else {
      var h := Pow2(t - 1);
      assert b * Pow2(t) == 2 * (b * h);
      assert (b * Pow2(t)) / 2 == b * h && (b * Pow2(t)) % 2 == 0;
      BitOrDisjoint(a / 2, b, t - 1);
    }
  }

  /** The bit pattern of a JavaScript 32-bit bitwise result, as an unsigned
      integer below 2^32. */
  type Bits32 = x: nat | x < TwoTo32

  /** JavaScript's `a | b` on two 32-bit patterns. */
  function Or32(a: Bits32, b: Bits32): (r: Bits32)
  {
    BitOr32Bound(a, b);
    BitOr(a, b)
  }

  lemma BitOr32Bound(a: nat, b: nat)
    requires a < TwoTo32 && b < TwoTo32
    ensures BitOr(a, b) < TwoTo32
  {
    Pow2Values();
    BitOrBound(a, b, 32);
  }

  /** JavaScript's `v << shift`: the shift count is taken modulo 32 and the
      bits shifted past bit 31 are lost. */
  function Shl32(v: Bits32, shift: nat): (r: Bits32)
  {
    ShlBits(v, shift % 32)
  }

  /** n one-bit left shifts of a 32-bit pattern, each dropping bit 31. */
  function ShlBits(v: Bits32, n: nat): (r: Bits32)
    decreases n
  {
    if n == 0 then v else Double32(ShlBits(v, n - 1))
  }

  function Double32(x: Bits32): (r: Bits32)
  {
    if 2 * x < TwoTo32 then 2 * x else 2 * x - TwoTo32
  }

  /** Shifting left by n multiplies by 2^n and keeps the low 32 bits. */
  lemma {:induction false} ShlBitsValue(v: Bits32, n: nat)
    ensures ShlBits(v, n) == v * Pow2(n) % TwoTo32
  {
    if n > 0 {
      var a := v * Pow2(n - 1);
      ShlBitsValue(v, n - 1);
      assert ShlBits(v, n) == Double32(a % TwoTo32);
      DoubleMod(a);
      MulDouble(v, Pow2(n - 1));
    }
  }

  lemma MulDouble(v: nat, p: nat)
    ensures v * (2 * p) == 2 * (v * p)
  {
  }

  lemma DoubleMod(a: nat)
    ensures Double32(a % TwoTo32) == 2 * a % TwoTo32
  {
    var q, r := a / TwoTo32, a % TwoTo32;
    assert a == q * TwoTo32 + r;
    if 2 * r < TwoTo32 {
      ModUnique(2 * a, 2 * q, 2 * r);
    } else {
      ModUnique(2 * a, 2 * q + 1, 2 * r - TwoTo32);
    }
  }

  lemma ModUnique(x: nat, q: nat, r: nat)
    requires x == q * TwoTo32 + r && r < TwoTo32
    ensures x % TwoTo32 == r
  {
  }

  /** The JavaScript number a 32-bit bitwise result denotes (ToInt32): the
      bit pattern read as two's complement. */
  function Int32(x: Bits32): (r: int)
    ensures -0x8000_0000 <= r < 0x8000_0000
    ensures r >= 0 <==> x < 0x8000_0000
    ensures r % TwoTo32 == x
  {
    if x < 0x8000_0000 then x else x - TwoTo32
  }

  /** `b & 0b01111111`: the seven payload bits of a varint byte. */
  function Low7(b: byte): (r: nat)
    ensures r < 128
  {
    b as nat % 128
  }

  /** `b & 0b10000000` is set: another byte of the same number follows. */
  predicate Continues(b: byte)
  {
    b >= 128
  }
}
