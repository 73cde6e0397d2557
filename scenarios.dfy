/** Uses of BitSequence that the library's unit tests and documentation describe,
    proved from the contracts of BitSequence alone. */
module Scenarios {
  import opened ByteCodec
  import opened BitSequences

  /** Appending a bit to an empty sequence and popping it gives the bit back. */
  method AppendBitThenPop(bit: bool) returns (r: bool)
    ensures r == bit
  {
    var bits := new BitSequence();
    bits.AppendBit(bit);
    var popped := bits.Pop();
    r := popped.value;
  }

  /** A bit appended after another one with AppendOnBit / AppendOffBit. */
  method AppendOnOffBits(first: bool) returns (on: seq<bool>, off: seq<bool>)
    ensures on == [first, true] && off == [first, false]
  {
    var a := new BitSequence();
    a.AppendBit(first);
    a.AppendOnBit();
    var onArray := a.ToBitArray();
    var b := new BitSequence();
    b.AppendBit(first);
    b.AppendOffBit();
    var offArray := b.ToBitArray();
    on, off := onArray[..], offArray[..];
  }

  /** Appending bits and then another sequence's bits concatenates them in order,
      and leaves the other sequence as it was. */
  method AppendBitSequenceConcatenates(front: seq<bool>, back: seq<bool>)
    returns (r: seq<bool>, other: seq<bool>)
    ensures r == front + back && other == back
  {
    var bits := new BitSequence();
    bits.AppendBits(front);
    var tail := new BitSequence.FromBits(back);
    bits.AppendBitSequence(tail);
    var all := bits.ToBitArray();
    r, other := all[..], tail.list;
  }

  /** The bit patterns the AppendByte unit test expects. */
  lemma ByteBitsTestVectors()
    ensures ByteBits(0) == [false, false, false, false, false, false, false, false]
    ensures ByteBits(1) == [true, false, false, false, false, false, false, false]
    ensures ByteBits(7) == [true, true, true, false, false, false, false, false]
    ensures ByteBits(8) == [false, false, false, true, false, false, false, false]
    ensures ByteBits(77) == [true, false, true, true, false, false, true, false]
    ensures ByteBits(127) == [true, true, true, true, true, true, true, false]
    ensures ByteBits(128) == [false, false, false, false, false, false, false, true]
    ensures ByteBits(196) == [false, false, true, false, false, false, true, true]
    ensures ByteBits(255) == [true, true, true, true, true, true, true, true]
  {
    ByteBitsAre(0, [false, false, false, false, false, false, false, false]);
    ByteBitsAre(1, [true, false, false, false, false, false, false, false]);
    ByteBitsAre(7, [true, true, true, false, false, false, false, false]);
    ByteBitsAre(8, [false, false, false, true, false, false, false, false]);
    ByteBitsAre(77, [true, false, true, true, false, false, true, false]);
    ByteBitsAre(127, [true, true, true, true, true, true, true, false]);
    ByteBitsAre(128, [false, false, false, false, false, false, false, true]);
    ByteBitsAre(196, [false, false, true, false, false, false, true, true]);
    ByteBitsAre(255, [true, true, true, true, true, true, true, true]);
  }

  lemma ByteBitsAre(b: Byte, bits: seq<bool>)
    requires |bits| == 8
    requires bits[0] == (b % 2 == 1) && bits[1] == (b / 2 % 2 == 1)
    requires bits[2] == (b / 4 % 2 == 1) && bits[3] == (b / 8 % 2 == 1)
    requires bits[4] == (b / 16 % 2 == 1) && bits[5] == (b / 32 % 2 == 1)
    requires bits[6] == (b / 64 % 2 == 1) && bits[7] == (b / 128 % 2 == 1)
    ensures ByteBits(b) == bits
  {
    ByteSizes();
  }

  /** Appending the unit test's bytes one after the other gives their patterns
      one after the other. */
  method AppendByteSequence(values: seq<Byte>) returns (r: seq<bool>)
    ensures |r| == 8 * |values|
    ensures forall j :: 0 <= j < |values| ==> r[8 * j .. 8 * j + 8] == ByteBits(values[j])
  {
    var bits := new BitSequence();
    for i := 0 to |values|
      invariant bits.list == Unpack(values[..i])
    {
      bits.AppendByte(values[i]);
      assert values[..i + 1] == values[..i] + [values[i]];
      UnpackAppend(values[..i], values[i]);
    }
    assert values[..|values|] == values;
    var all := bits.ToBitArray();
    r := all[..];
    forall j | 0 <= j < |values|
      ensures r[8 * j .. 8 * j + 8] == ByteBits(values[j])
    {
      UnpackByteAt(values, j);
    }
  }

  /** A byte array read into a sequence, with either ordering, packs back into the
      same array. */
  method ByteArrayRoundTrip(bytes: seq<Byte>, ordering: ByteOrdering) returns (r: seq<Byte>)
    ensures r == bytes
  {
    var bits := new BitSequence.FromBytes(bytes, ordering);
    var packed := bits.ToLittleEndianByteArray();
    r := packed.value[..];
    PackUnpack(bytes);
  }

  /** A 32-bit value appended and popped as four bytes reads back as the value. */
  method UInt32RoundTrip(value: UInt32) returns (r: nat)
    ensures r == value
  {
    var bits := new BitSequence();
    bits.AppendLittleEndianUInt32Bytes(value);
    assert bits.list == LowBits(value, 32);
    var popped := bits.PopLittleEndianBytesFixed(4);
    r := LittleEndianValue(popped.value[..]);
    WidthSizes();
    assert LowBits(value, 32)[..32] == LowBits(value, 32);
    LittleEndianRoundTrip(value, 4);
  }

  /** The same round trip through PopLittleEndianBytes as written fails. */
  method UInt32RoundTripAsWritten(value: UInt32) returns (r: Result<array<Byte>>)
    ensures r == Failure(IndexOutOfRange)
  {
    var bits := new BitSequence();
    bits.AppendLittleEndianUInt32Bytes(value);
    r := bits.PopLittleEndianBytes(4);
  }

  /** Popping more bits than there are fails and removes nothing. */
  method PopTooManyBits(start: seq<bool>, count: int) returns (r: Result<BitSequence>, rest: seq<bool>)
    requires count > |start|
    ensures r == Failure(Argument) && rest == start
  {
    var bits := new BitSequence.FromBits(start);
    r := bits.PopBits(count);
    rest := bits.list;
  }
}
