/** The value-level view of the bit/byte conversions that BitSequence performs:
    bits are read least significant first within a byte, and bytes in array order.
    Bytes and the fixed-width unsigned integers are unbounded `int`s restricted to
    their C# ranges; bit k of a number v is (v / 2^k) % 2, which is what the C#
    test `(v & (1 << k)) != 0` computes for a non-negative v. */
module ByteCodec {

  /** C# `byte`, `ushort`, `uint` and `ulong`. */
  type Byte = x: int | 0 <= x < 0x100
  type UInt16 = x: int | 0 <= x < 0x1_0000
  type UInt32 = x: int | 0 <= x < 0x1_0000_0000
  type UInt64 = x: int | 0 <= x < 0x1_0000_0000_0000_0000

  function Pow2(k: nat): (r: nat)
    ensures r >= 1
  {
    if k == 0 then 1 else 2 * Pow2(k - 1)
  }

  /** `(v & (1 << k)) != 0`: whether bit k of v is on. */
  predicate BitOf(v: nat, k: nat) {
    (v / Pow2(k)) % 2 == 1
  }

  /** A value below 2^k has bit k, and every bit above it, off. */
  lemma BitOfBelow(v: nat, k: nat)
    requires v < Pow2(k)
    ensures !BitOf(v, k)
  {
    DivUnique(v, Pow2(k), 0, v);
  }

  /** `x | (byte)(1 << k)`: x with bit k switched on and every other bit kept. */
  function SetBit(x: Byte, k: nat): (r: Byte)
    requires k < 8
    ensures ByteBits(r) == ByteBits(x)[k := true]
  {
    ByteSizes();
    if BitOf(x, k) then
      UpdateSame(ByteBits(x), k, true);
      x
    else
      ValueOfByteBits(x);
      ValueOfUpdate(ByteBits(x), k, true);
      ByteBitsOfValue(ByteBits(x)[k := true]);
      x + Pow2(k)
  }

  /** `x & ~(byte)(1 << k)`: x with bit k switched off and every other bit kept. */
  function ClearBit(x: Byte, k: nat): (r: Byte)
    requires k < 8
    ensures ByteBits(r) == ByteBits(x)[k := false]
  {
    ByteSizes();
    if BitOf(x, k) then
      ValueOfByteBits(x);
      ValueOfUpdate(ByteBits(x)[k := false], k, true);
      assert ByteBits(x)[k := false][k := true] == ByteBits(x);
      ByteBitsOfValue(ByteBits(x)[k := false]);
      x - Pow2(k)
    else
      UpdateSame(ByteBits(x), k, false);
      x
  }

  lemma UpdateSame(s: seq<bool>, k: nat, b: bool)
    requires k < |s| && s[k] == b
    ensures s[k := b] == s
  {
  }

  lemma ByteSizes()
    ensures Pow2(0) == 1 && Pow2(1) == 2 && Pow2(2) == 4 && Pow2(3) == 8
    ensures Pow2(4) == 16 && Pow2(5) == 32 && Pow2(6) == 64 && Pow2(7) == 128
    ensures Pow2(8) == 256
  {
  }

  lemma WidthSizes()
    ensures Pow2(16) == 0x1_0000 && Pow2(32) == 0x1_0000_0000
    ensures Pow2(64) == 0x1_0000_0000_0000_0000
  {
    ByteSizes();
    Pow2Add(8, 8);
    Pow2Add(16, 16);
    Pow2Add(32, 32);
  }

  /** The eight bits of a byte, least significant first. */
  function ByteBits(b: Byte): (r: seq<bool>)
    ensures |r| == 8
    ensures forall k :: 0 <= k < 8 ==> r[k] == BitOf(b, k)
  {
    seq(8, k requires 0 <= k < 8 => BitOf(b, k))
  }

  /** The number whose binary digits, least significant first, are `bits`. */
  function ValueOf(bits: seq<bool>): nat
  {
    if bits == [] then 0 else (if bits[0] then 1 else 0) + 2 * ValueOf(bits[1..])
  }

  lemma {:induction false} ValueOfBound(bits: seq<bool>)
    ensures ValueOf(bits) < Pow2(|bits|)
  {
    if bits != [] {
      ValueOfBound(bits[1..]);
    }
  }

  /** Switching on a bit that was off adds its weight. */
  lemma {:induction false} ValueOfUpdate(bits: seq<bool>, k: nat, b: bool)
    requires k < |bits| && !bits[k]
    ensures ValueOf(bits[k := true]) == ValueOf(bits) + Pow2(k)
  {
    if k > 0 {
      ValueOfUpdate(bits[1..], k - 1, b);
      assert bits[k := true][1..] == bits[1..][k - 1 := true];
    }
  }

  /** Two bytes with the same bits are the same byte. */
  lemma ByteBitsInjective(a: Byte, b: Byte)
    requires ByteBits(a) == ByteBits(b)
    ensures a == b
  {
    ValueOfByteBits(a);
    ValueOfByteBits(b);
  }

  /** A zero byte has no bit on. */
  lemma ZeroByteBits()
    ensures ByteBits(0) == [false, false, false, false, false, false, false, false]
  {
    ValueOfByteBits(0);
    forall k | 0 <= k < 8
      ensures !ByteBits(0)[k]
    {
      ValueOfBound(ByteBits(0)[..k]);
    }
  }

  /** The n lowest bits of v, least significant first. */
  function LowBits(v: nat, n: nat): (r: seq<bool>)
    ensures |r| == n
  {
    seq(n, k requires 0 <= k < n => BitOf(v, k))
  }

  lemma BitOfHalf(v: nat, k: nat)
    ensures BitOf(v, k + 1) == BitOf(v / 2, k)
  {
    DivHalf(v % 2, v / 2, Pow2(k));
  }

  /** A number below 2^n is the value of its n lowest bits. */
  lemma {:induction false} ValueOfLowBits(v: nat, n: nat)
    requires v < Pow2(n)
    ensures ValueOf(LowBits(v, n)) == v
  {
    if n > 0 {
      var s := LowBits(v, n);
      forall k | 0 <= k < n - 1
        ensures s[1..][k] == LowBits(v / 2, n - 1)[k]
      {
        BitOfHalf(v, k);
      }
      assert s[1..] == LowBits(v / 2, n - 1);
      ValueOfLowBits(v / 2, n - 1);
    }
  }

  /** A byte's bits, read back as a number, give the byte. */
  lemma ValueOfByteBits(b: Byte)
    ensures ValueOf(ByteBits(b)) == b
  {
    ByteSizes();
    assert ByteBits(b) == LowBits(b, 8);
    ValueOfLowBits(b, 8);
  }

  /** Bit i of the value of a bit string is the string's i-th entry. */
  lemma {:induction false} BitOfValue(bits: seq<bool>, i: nat)
    requires i < |bits|
    ensures BitOf(ValueOf(bits), i) == bits[i]
  {
    var b := if bits[0] then 1 else 0;
    if i > 0 {
      BitOfValue(bits[1..], i - 1);
      DivHalf(b, ValueOf(bits[1..]), Pow2(i - 1));
    }
  }

  /** Eight bits, packed into a number and unpacked again, are the same bits. */
  lemma ByteBitsOfValue(bits: seq<bool>)
    requires |bits| == 8
    ensures ValueOf(bits) < 0x100
    ensures ByteBits(ValueOf(bits)) == bits
  {
    ValueOfBound(bits);
    ByteSizes();
    forall i | 0 <= i < 8
      ensures ByteBits(ValueOf(bits))[i] == bits[i]
    {
      BitOfValue(bits, i);
    }
  }

  lemma {:induction false} MulAtLeast(a: int, d: int)
    requires a >= 1 && d > 0
    ensures a * d >= d
  {
    if a > 1 {
      MulAtLeast(a - 1, d);
    }
  }

  /** The quotient is determined by any decomposition with a remainder in range. */
  lemma DivUnique(x: int, d: int, q: int, r: int)
    requires d > 0 && 0 <= r < d && x == q * d + r
    ensures x / d == q
  {
    var q', r' := x / d, x % d;
    assert x == q' * d + r';
    if q' < q {
      MulAtLeast(q - q', d);
    } else if q' > q {
      MulAtLeast(q' - q, d);
    }
  }

  lemma DivHalf(b: int, n: nat, p: nat)
    requires 0 <= b < 2 && p > 0
    ensures (b + 2 * n) / (2 * p) == n / p
  {
    var q, r := n / p, n % p;
    assert b + 2 * n == q * (2 * p) + (2 * r + b);
    DivUnique(b + 2 * n, 2 * p, q, 2 * r + b);
  }

  /** Bit i of the bits of `bytes` is bit i % 8 of bytes[i / 8]: every byte in
      array order, each least significant bit first. */
  function Unpack(bytes: seq<Byte>): (r: seq<bool>)
    ensures |r| == 8 * |bytes|
  {
    seq(8 * |bytes|, i requires 0 <= i < 8 * |bytes| => BitOf(bytes[i / 8], i % 8))
  }

  /** The bytes of a bit string whose length is a multiple of 8: byte j holds
      bits 8j .. 8j + 7, the first of them as its least significant bit. */
  function Pack(bits: seq<bool>): (r: seq<Byte>)
    requires |bits| % 8 == 0
    ensures |r| == |bits| / 8
  {
    seq(|bits| / 8, j requires 0 <= j < |bits| / 8 => PackByte(bits[8 * j .. 8 * j + 8]))
  }

  /** The byte whose bits, least significant first, are `bits`. */
  function PackByte(bits: seq<bool>): (b: Byte)
    requires |bits| == 8
    ensures ByteBits(b) == bits
  {
    ByteBitsOfValue(bits);
    ValueOf(bits)
  }

  /** The bytes of `bytes` unpack to a byte's bits after the bits of the bytes before it. */
  lemma UnpackByteAt(bytes: seq<Byte>, j: nat)
    requires j < |bytes|
    ensures Unpack(bytes)[8 * j .. 8 * j + 8] == ByteBits(bytes[j])
  {
  }

  lemma UnpackAppend(bytes: seq<Byte>, b: Byte)
    ensures Unpack(bytes + [b]) == Unpack(bytes) + ByteBits(b)
  {
    var u, w := Unpack(bytes + [b]), Unpack(bytes) + ByteBits(b);
    forall i | 0 <= i < |u|
      ensures u[i] == w[i]
    {
      if i >= 8 * |bytes| {
        assert i / 8 == |bytes|;
      }
    }
  }

  lemma UnpackConcat(a: seq<Byte>, b: seq<Byte>)
    ensures Unpack(a + b) == Unpack(a) + Unpack(b)
  {
    var u, w := Unpack(a + b), Unpack(a) + Unpack(b);
    forall i | 0 <= i < |u|
      ensures u[i] == w[i]
    {
      if i >= 8 * |a| {
        assert (i - 8 * |a|) / 8 == i / 8 - |a|;
        assert (i - 8 * |a|) % 8 == i % 8;
      }
    }
  }

  /** Unpacking is undone by packing... */
  lemma PackUnpack(bytes: seq<Byte>)
    ensures Pack(Unpack(bytes)) == bytes
  {
    forall j | 0 <= j < |bytes|
      ensures Pack(Unpack(bytes))[j] == bytes[j]
    {
      UnpackByteAt(bytes, j);
      ValueOfByteBits(bytes[j]);
    }
  }

  /** ...and packing by unpacking. */
  lemma UnpackPack(bits: seq<bool>)
    requires |bits| % 8 == 0
    ensures Unpack(Pack(bits)) == bits
  {
    forall i | 0 <= i < |bits|
      ensures Unpack(Pack(bits))[i] == bits[i]
    {
      var j, k := i / 8, i % 8;
      assert bits[8 * j .. 8 * j + 8][k] == bits[i];
      BitOfValue(bits[8 * j .. 8 * j + 8], k);
    }
  }

  /** The n bytes of v, least significant first: what `BitConverter.GetBytes`
      gives on a little-endian host. */
  function LittleEndianBytes(v: nat, n: nat): (r: seq<Byte>)
    ensures |r| == n
  {
    if n == 0 then [] else [v % 0x100] + LittleEndianBytes(v / 0x100, n - 1)
  }

  /** The number whose bytes, least significant first, are `bytes`: what
      `BitConverter.ToUInt16/32/64` gives on a little-endian host. */
  function LittleEndianValue(bytes: seq<Byte>): nat
  {
    if bytes == [] then 0 else bytes[0] + 0x100 * LittleEndianValue(bytes[1..])
  }

  lemma {:induction false} Pow2Add(a: nat, b: nat)
    ensures Pow2(a + b) == Pow2(a) * Pow2(b)
  {
    if a > 0 {
      Pow2Add(a - 1, b);
    }
  }

  lemma Pow2Byte(n: nat)
    requires n > 0
    ensures Pow2(8 * n) == 0x100 * Pow2(8 * (n - 1))
  {
    ByteSizes();
    Pow2Add(8, 8 * (n - 1));
  }

  /** Splitting a number into n bytes and joining them again gives it back... */
  lemma {:induction false} LittleEndianValueOfBytes(v: nat, n: nat)
    requires v < Pow2(8 * n)
    ensures LittleEndianValue(LittleEndianBytes(v, n)) == v
  {
    if n > 0 {
      Pow2Byte(n);
      LittleEndianValueOfBytes(v / 0x100, n - 1);
    }
  }

  /** ...and joining bytes and splitting the number again gives them back. */
  lemma {:induction false} LittleEndianBytesOfValue(bytes: seq<Byte>)
    ensures LittleEndianValue(bytes) < Pow2(8 * |bytes|)
    ensures LittleEndianBytes(LittleEndianValue(bytes), |bytes|) == bytes
  {
    if bytes != [] {
      LittleEndianBytesOfValue(bytes[1..]);
      Pow2Byte(|bytes|);
      assert bytes == [bytes[0]] + bytes[1..];
    }
  }

  lemma LowBitsOfByte(v: nat, k: nat)
    requires k < 8
    ensures BitOf(v % 0x100, k) == BitOf(v, k)
  {
    ByteSizes();
    BitOfMod(v, 8, k);
  }

  /** Reducing modulo 2^m keeps the bits below m. */
  lemma {:induction false} BitOfMod(v: nat, m: nat, k: nat)
    requires k < m
    ensures BitOf(v % Pow2(m), k) == BitOf(v, k)
  {
    var M := Pow2(m - 1);
    if k == 0 {
      ModOfDouble(v, M);
    } else {
      HalfOfMod(v, M);
      BitOfHalf(v % Pow2(m), k - 1);
      BitOfHalf(v, k - 1);
      BitOfMod(v / 2, m - 1, k - 1);
    }
  }

  lemma ModOfDouble(v: nat, M: nat)
    requires M > 0
    ensures v % (2 * M) % 2 == v % 2
  {
    var q, r := v / (2 * M), v % (2 * M);
    assert v == q * (2 * M) + r;
    assert q * (2 * M) == 2 * (q * M);
  }

  lemma HalfOfMod(v: nat, M: nat)
    requires M > 0
    ensures v % (2 * M) / 2 == (v / 2) % M
  {
    var q, r := v / (2 * M), v % (2 * M);
    assert v == q * (2 * M) + r;
    assert q * (2 * M) == 2 * (q * M);
    assert v / 2 == q * M + r / 2;
    DivUnique(v / 2, M, q, r / 2);
  }

  lemma LowBitsAbove(v: nat, k: nat)
    ensures BitOf(v / 0x100, k) == BitOf(v, k + 8)
  {
    var v1, v2, v3, v4 := v / 2, v / 4, v / 8, v / 16;
    var v5, v6, v7, v8 := v / 32, v / 64, v / 128, v / 0x100;
    assert v1 / 2 == v2 && v2 / 2 == v3 && v3 / 2 == v4 && v4 / 2 == v5;
    assert v5 / 2 == v6 && v6 / 2 == v7 && v7 / 2 == v8;
    BitOfHalf(v, k + 7);
    BitOfHalf(v1, k + 6);
    BitOfHalf(v2, k + 5);
    BitOfHalf(v3, k + 4);
    BitOfHalf(v4, k + 3);
    BitOfHalf(v5, k + 2);
    BitOfHalf(v6, k + 1);
    BitOfHalf(v7, k);
  }

  /** The bits of the n little-endian bytes of v are the 8n lowest bits of v:
      bit i of the result is bit i of v, whatever the host's byte order. */
  lemma {:induction false} UnpackLittleEndianBytes(v: nat, n: nat)
    ensures Unpack(LittleEndianBytes(v, n)) == LowBits(v, 8 * n)
  {
    if n > 0 {
      var rest := LittleEndianBytes(v / 0x100, n - 1);
      assert LittleEndianBytes(v, n) == [v % 0x100] + rest;
      UnpackConcat([v % 0x100], rest);
      UnpackLittleEndianBytes(v / 0x100, n - 1);
      var u, w := Unpack(LittleEndianBytes(v, n)), LowBits(v, 8 * n);
      forall i | 0 <= i < 8 * n
        ensures u[i] == w[i]
      {
        if i < 8 {
          UnpackByteAt([v % 0x100], 0);
          LowBitsOfByte(v, i);
        } else {
          LowBitsAbove(v, i - 8);
        }
      }
    }
  }

  /** A number of n bytes, appended as its 8n lowest bits and popped as n bytes,
      reads back as the number. */
  lemma LittleEndianRoundTrip(v: nat, n: nat)
    requires v < Pow2(8 * n)
    ensures LittleEndianValue(Pack(LowBits(v, 8 * n))) == v
  {
    UnpackLittleEndianBytes(v, n);
    PackUnpack(LittleEndianBytes(v, n));
    LittleEndianValueOfBytes(v, n);
  }
}
