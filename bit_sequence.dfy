/** Rhaeo.Bits.BitSequence: a growable sequence of bits that is appended to at
    the tail and consumed from the head, with conversions to and from bytes. */
module BitSequences {
  import opened ByteCodec

  /** Rhaeo.Bits.ByteOrdering. BigEndian is the enum's first member (value 0),
      so it is also what an unset ByteOrdering property holds. */
  datatype ByteOrdering = BigEndian | LittleEndian

  /** The .NET exception a failing operation throws. */
  datatype Error =
    | ArgumentOutOfRange  // a List<bool> index or range start outside the list, or a negative range length
    | Argument            // a List<bool> range that reaches past the end of the list
    | Overflow            // an array allocated with a negative length
    | IndexOutOfRange     // an array index past the end of the array

  datatype Option<T> = None | Some(value: T)

  datatype Result<T> = Success(value: T) | Failure(error: Error)

  /** C#'s `a / 8` on an int, which truncates toward zero. */
  function TruncatingDiv8(a: int): (q: int)
    ensures 0 <= a ==> 8 * q <= a < 8 * q + 8
    ensures a < 0 ==> 8 * q - 8 < a <= 8 * q
  {
    if a >= 0 then a / 8 else -((-a) / 8)
  }

  /** `bytes.Reverse()`. */
  function Reversed(bytes: seq<Byte>): (r: seq<Byte>)
    ensures |r| == |bytes|
  {
    seq(|bytes|, i requires 0 <= i < |bytes| => bytes[|bytes| - 1 - i])
  }

  /** The bits of the reversed array are the bytes' bits, last byte first. */
  lemma UnpackReversed(bytes: seq<Byte>, j: nat)
    requires j < |bytes|
    ensures Unpack(Reversed(bytes))[8 * j .. 8 * j + 8] == ByteBits(bytes[|bytes| - 1 - j])
  {
    UnpackByteAt(Reversed(bytes), j);
  }

  /** Reversing twice gives the array back. */
  lemma ReversedTwice(bytes: seq<Byte>)
    ensures Reversed(Reversed(bytes)) == bytes
  {
    var r := Reversed(Reversed(bytes));
    forall i | 0 <= i < |bytes|
      ensures r[i] == bytes[i]
    {
      assert Reversed(bytes)[|bytes| - 1 - i] == bytes[i];
    }
  }

  /** The exception the packing loop over `n` bits, reading `bitCount` bits into an
      array of `byteLength` bytes, runs into first: reading bit `bitCount` of the
      list, or writing byte `byteLength` of the array. */
  function PackFault(bitCount: nat, byteLength: nat, n: nat): (e: Option<Error>)
    ensures e.None? <==> n <= bitCount && n <= 8 * byteLength
  {
    if n <= bitCount && n <= 8 * byteLength then None
    else if bitCount <= 8 * byteLength then Some(ArgumentOutOfRange)
    else Some(IndexOutOfRange)
  }

  /** What the packing loop has written into byte j once it has visited the bits
      before `index`: those bits, and off bits after them. */
  ghost function Filled(bits: seq<bool>, index: nat, j: nat): (r: seq<bool>)
    requires index <= |bits|
    ensures |r| == 8
  {
    seq(8, k requires 0 <= k < 8 => 8 * j + k < index && bits[8 * j + k])
  }

  /** The packing loop of ToLittleEndianByteArray and PopLittleEndianBytes: for
      every index below n, bit index % 8 of bytes[index / 8] is switched on or off
      to match bits[index], starting from a zeroed array. */
  method PackInto(bits: seq<bool>, bytes: array<Byte>, n: nat) returns (fault: Option<Error>)
    requires forall j :: 0 <= j < bytes.Length ==> bytes[j] == 0
    modifies bytes
    ensures fault == PackFault(|bits|, bytes.Length, n)
    ensures fault.None? && n == 8 * bytes.Length ==> bytes[..] == Pack(bits[..n])
  {
    ZeroByteBits();
    var index := 0;
    while index < n
      invariant index <= n && index <= |bits| && index <= 8 * bytes.Length
      invariant forall j :: 0 <= j < bytes.Length ==> ByteBits(bytes[j]) == Filled(bits, index, j)
    {
      var byteIndex, bitIndex := index / 8, index % 8;
      if index >= |bits| {
        return Some(ArgumentOutOfRange);
      }
      if byteIndex >= bytes.Length {
        return Some(IndexOutOfRange);
      }
      bytes[byteIndex] := if bits[index] then SetBit(bytes[byteIndex], bitIndex)
                          else ClearBit(bytes[byteIndex], bitIndex);
      forall j | 0 <= j < bytes.Length
        ensures ByteBits(bytes[j]) == Filled(bits, index + 1, j)
      {
        if j == byteIndex {
          assert Filled(bits, index + 1, j) == Filled(bits, index, j)[bitIndex := bits[index]];
        } else {
          assert Filled(bits, index + 1, j) == Filled(bits, index, j);
        }
      }
      index := index + 1;
    }
    if n == 8 * bytes.Length {
      forall j | 0 <= j < bytes.Length
        ensures bytes[j] == Pack(bits[..n])[j]
      {
        assert Filled(bits, n, j) == bits[..n][8 * j .. 8 * j + 8];
        ByteBitsInjective(bytes[j], Pack(bits[..n])[j]);
      }
    }
    return None;
  }

  /** The debug rendering of `ToString`: every bit as '1' or '0', with a space
      before each bit at an even index. */
  function Render(bits: seq<bool>): (s: string)
    ensures |s| == |bits| + (|bits| + 1) / 2
  {
    if bits == [] then ""
    else
      var i := |bits| - 1;
      Render(bits[..i]) + (if i % 2 == 0 then " " else "") + [Digit(bits[i])]
  }

  function Digit(b: bool): (c: char)
    ensures c == '1' <==> b
    ensures c == '0' <==> !b
  {
    if b then '1' else '0'
  }

  /** Bit i is drawn at position i + i / 2 + 1, after the spaces of the pairs up to it... */
  lemma {:induction false} RenderDigitAt(bits: seq<bool>, i: nat)
    requires i < |bits|
    ensures Render(bits)[i + i / 2 + 1] == Digit(bits[i])
  {
    var n := |bits| - 1;
    if i < n {
      RenderDigitAt(bits[..n], i);
      assert bits[..n][i] == bits[i];
    }
  }

  /** ...and every pair of bits starts with a space. */
  lemma {:induction false} RenderSpaceAt(bits: seq<bool>, m: nat)
    requires 2 * m < |bits|
    ensures Render(bits)[3 * m] == ' '
  {
    var n := |bits| - 1;
    if 2 * m < n {
      RenderSpaceAt(bits[..n], m);
    }
  }

  class BitSequence {
    /** The `List<bool>` holding the bits, the oldest one first. */
    var list: seq<bool>

    /** The ByteOrdering property. */
    const byteOrdering: ByteOrdering

    constructor ()
      ensures list == [] && byteOrdering == BigEndian
    {
      list := [];
      byteOrdering := BigEndian;
    }

    /** The capacity is only a hint to the list's allocation. */
    constructor WithCapacity(bitCapacity: nat)
      ensures list == [] && byteOrdering == BigEndian
    {
      list := [];
      byteOrdering := BigEndian;
    }

    constructor FromBits(bits: seq<bool>)
      ensures list == bits && byteOrdering == BigEndian
    {
      list := bits;
      byteOrdering := BigEndian;
    }

    /** Unpacks the bytes in array order, whatever `byteOrdering` says: the
        ordering is only stored. */
    constructor FromBytes(bytes: seq<Byte>, byteOrdering: ByteOrdering)
      ensures list == Unpack(bytes) && this.byteOrdering == byteOrdering
    {
      var bits := [];
      var index := 0;
      while index < |bytes| * 8
        invariant index <= |bytes| * 8
        invariant bits == Unpack(bytes)[..index]
      {
        var byteIndex, bitIndex := index / 8, index % 8;
        bits := bits + [BitOf(bytes[byteIndex], bitIndex)];
        index := index + 1;
      }
      list := bits;
      this.byteOrdering := byteOrdering;
    }

    function BitCount(): (n: nat)
      reads this
      ensures n == |list|
    {
      |list|
    }

    /** The number of whole bytes; a trailing partial byte is not counted. */
    function ByteCount(): (n: nat)
      reads this
      ensures 8 * n <= |list| < 8 * n + 8
    {
      |list| / 8
    }

    method AppendOnBit()
      modifies this
      ensures list == old(list) + [true]
    {
      list := list + [true];
    }

    method AppendOffBit()
      modifies this
      ensures list == old(list) + [false]
    {
      list := list + [false];
    }

    method AppendBit(bit: bool)
      modifies this
      ensures list == old(list) + [bit]
    {
      list := list + [bit];
    }

    method AppendBits(bits: seq<bool>)
      modifies this
      ensures list == old(list) + bits
    {
      list := list + bits;
    }

    /** Copies the other sequence's bits as they are now; the other sequence is
        not changed (unless it is this one, which then holds its bits twice). */
    method AppendBitSequence(bits: BitSequence)
      modifies this
      ensures list == old(list) + old(bits.list)
      ensures bits != this ==> bits.list == old(bits.list)
    {
      list := list + bits.list;
    }

    /** Appends the eight bits of `value`, least significant first. */
    method AppendByte(value: Byte)
      modifies this
      ensures list == old(list) + ByteBits(value)
    {
      for index := 0 to 8
        invariant list == old(list) + ByteBits(value)[..index]
      {
        var bit := BitOf(value, index);
        list := list + [bit];
      }
    }

    /** Appends the bytes in array order for LittleEndian and in reverse order for
        BigEndian. */
    method AppendBytes(bytes: seq<Byte>, byteOrdering: ByteOrdering)
      modifies this
      ensures byteOrdering == LittleEndian ==> list == old(list) + Unpack(bytes)
      ensures byteOrdering == BigEndian ==> list == old(list) + Unpack(Reversed(bytes))
    {
      var ordered := if byteOrdering == LittleEndian then bytes else Reversed(bytes);
      for i := 0 to |ordered|
        invariant list == old(list) + Unpack(ordered[..i])
      {
        AppendByte(ordered[i]);
        assert ordered[..i + 1] == ordered[..i] + [ordered[i]];
        UnpackAppend(ordered[..i], ordered[i]);
      }
      assert ordered[..|ordered|] == ordered;
    }

    method AppendLittleEndianBytes(bytes: seq<Byte>)
      modifies this
      ensures list == old(list) + Unpack(bytes)
    {
      for i := 0 to |bytes|
        invariant list == old(list) + Unpack(bytes[..i])
      {
        AppendByte(bytes[i]);
        assert bytes[..i + 1] == bytes[..i] + [bytes[i]];
        UnpackAppend(bytes[..i], bytes[i]);
      }
      assert bytes[..|bytes|] == bytes;
    }

    /** Appends the 16 bits of `value`, least significant first. */
    method AppendLittleEndianUInt16Bytes(value: UInt16)
      modifies this
      ensures list == old(list) + LowBits(value, 16)
    {
      var bytes := LittleEndianBytes(value, 2);
      AppendLittleEndianBytes(bytes);
      UnpackLittleEndianBytes(value, 2);
    }

    /** Appends the 32 bits of `value`, least significant first. */
    method AppendLittleEndianUInt32Bytes(value: UInt32)
      modifies this
      ensures list == old(list) + LowBits(value, 32)
    {
      var bytes := LittleEndianBytes(value, 4);
      AppendLittleEndianBytes(bytes);
      UnpackLittleEndianBytes(value, 4);
    }

    /** Appends the 64 bits of `value`, least significant first. */
    method AppendLittleEndianUInt64Bytes(value: UInt64)
      modifies this
      ensures list == old(list) + LowBits(value, 64)
    {
      var bytes := LittleEndianBytes(value, 8);
      AppendLittleEndianBytes(bytes);
      UnpackLittleEndianBytes(value, 8);
    }

    /** Removes and returns the first bit. */
    method Pop() returns (r: Result<bool>)
      modifies this
      ensures old(list) == [] ==> r == Failure(ArgumentOutOfRange) && list == old(list)
      ensures old(list) != [] ==> r == Success(old(list)[0]) && list == old(list)[1..]
    {
      if |list| == 0 {
        return Failure(ArgumentOutOfRange);
      }
      var bit := list[0];
      list := list[1..];
      return Success(bit);
    }

    /** Removes the first `count` bits and returns them as a new sequence. The bits
        are copied before anything is removed, so a rejected call removes nothing. */
    method PopBits(count: int) returns (r: Result<BitSequence>)
      modifies this
      ensures count < 0 ==> r == Failure(Overflow)
      ensures count > |old(list)| ==> r == Failure(Argument)
      ensures r.Failure? ==> list == old(list)
      ensures 0 <= count <= |old(list)| ==>
        && r.Success? && fresh(r.value)
        && r.value.list == old(list)[..count]
        && r.value.byteOrdering == BigEndian
        && list == old(list)[count..]
    {
      if count < 0 {
        return Failure(Overflow);
      }
      if count > |list| {
        return Failure(Argument);
      }
      var bits := list[..count];
      list := list[count..];
      var popped := new BitSequence.FromBits(bits);
      return Success(popped);
    }

    /** As written: the byte array has count / 8 bytes while the loop packs
        count * 8 bits, so every positive count runs past the end of the array (or
        of the list) before the bits are removed. Only count == 0 succeeds. */
    method PopLittleEndianBytes(count: int) returns (r: Result<array<Byte>>)
      modifies this
      ensures list == old(list)
      ensures count == 0 ==> r.Success? && fresh(r.value) && r.value.Length == 0
      ensures count <= -8 ==> r == Failure(Overflow)
      ensures -8 < count < 0 ==> r == Failure(ArgumentOutOfRange)
      ensures count > 0 ==>
        r == Failure(if |list| <= 8 * (count / 8) then ArgumentOutOfRange else IndexOutOfRange)
    {
      var length := TruncatingDiv8(count);
      if length < 0 {
        return Failure(Overflow);
      }
      var byteArray := new Byte[length](_ => 0);
      var fault := PackInto(list, byteArray, if count > 0 then count * 8 else 0);
      if fault.Some? {
        return Failure(fault.value);
      }
      if count * 8 < 0 {
        return Failure(ArgumentOutOfRange);
      }
      if count * 8 > |list| {
        return Failure(Argument);
      }
      list := list[count * 8..];
      return Success(byteArray);
    }

    /** What PopLittleEndianBytes is documented to do: remove count * 8 bits and
        return them packed into count bytes. */
    method PopLittleEndianBytesFixed(count: int) returns (r: Result<array<Byte>>)
      modifies this
      ensures count < 0 ==> r == Failure(Overflow)
      ensures 0 <= count && 8 * count > |old(list)| ==> r == Failure(ArgumentOutOfRange)
      ensures r.Failure? ==> list == old(list)
      ensures 0 <= count && 8 * count <= |old(list)| ==>
        && r.Success? && fresh(r.value)
        && r.value[..] == Pack(old(list)[..8 * count])
        && list == old(list)[8 * count..]
    {
      if count < 0 {
        return Failure(Overflow);
      }
      var byteArray := new Byte[count](_ => 0);
      var fault := PackInto(list, byteArray, count * 8);
      if fault.Some? {
        return Failure(fault.value);
      }
      list := list[count * 8..];
      return Success(byteArray);
    }

    method ToBitArray() returns (r: array<bool>)
      ensures fresh(r) && r[..] == list
    {
      r := new bool[|list|](i requires 0 <= i < |list| reads this => list[i]);
    }

    /** Packs the whole sequence into bytes, least significant bit first. A
        partial trailing byte is not dropped: writing it runs past the end of the
        array of |list| / 8 bytes. */
    method ToLittleEndianByteArray() returns (r: Result<array<Byte>>)
      ensures |list| % 8 == 0 ==> r.Success? && fresh(r.value) && r.value[..] == Pack(list)
      ensures |list| % 8 != 0 ==> r == Failure(IndexOutOfRange)
    {
      var byteArray := new Byte[|list| / 8](_ => 0);
      var fault := PackInto(list, byteArray, |list|);
      if fault.Some? {
        return Failure(fault.value);
      }
      assert list[..|list|] == list;
      return Success(byteArray);
    }

    function ToString(): (s: string)
      reads this
      ensures |s| == |list| + (|list| + 1) / 2
    {
      Render(list)
    }
  }
}
