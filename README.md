# Rhaeo.Bits in Dafny

A model of `BitSequence`, the one class of the Rhaeo.Bits library: a growable
sequence of bits, backed by a `List<bool>`, that is appended to at the tail
(single bits, runs of bits, another sequence, bytes, byte arrays in either byte
order, and 16/32/64-bit unsigned integers in little-endian byte order) and
consumed destructively from the head (`Pop`, `PopBits`, `PopLittleEndianBytes`),
with exports to a bit array, a packed little-endian byte array and a debug
string. Within a byte, bits always go least significant first.

Files:

- `byte_codec.dfy` (module `ByteCodec`): the value-level meaning of the class's
  conversions. `Byte`, `UInt16`, `UInt32`, `UInt64` are `int`s restricted to the
  C# ranges; `BitOf(v, k)` is bit k of v, which is what the C# test
  `(v & (1 << k)) != 0` computes; `SetBit`/`ClearBit` are `x | (1 << k)` and
  `x & ~(1 << k)` on a byte. `ByteBits`, `Unpack` (bytes to bits), `PackByte`,
  `Pack` (bits to bytes), `ValueOf` (a bit string read as a number),
  `LittleEndianBytes` (the normalised result of `BitConverter.GetBytes`) and
  `LittleEndianValue` (its inverse, `BitConverter.ToUInt32` and friends on a
  little-endian host), with the round-trip lemmas between them.
- `bit_sequence.dfy` (module `BitSequences`): `ByteOrdering`, the exceptions as
  an `Error` datatype, and the class `BitSequence`, whose `list: seq<bool>`
  field stands for the private `List<bool>` and is reassigned by every append
  and pop. The packing loop shared by `ToLittleEndianByteArray` and
  `PopLittleEndianBytes` is the method `PackInto`, over a fresh zeroed array.
- `scenarios.dfy` (module `Scenarios`): client methods and lemmas that replay
  the unit tests and the library's round trips, proved from the class
  contracts alone.

Behaviour of the code that the model keeps, although the documentation of the
class reads otherwise:

- The byte-array constructor stores its `ByteOrdering` argument and never uses
  it: the bytes are always unpacked in array order. The other constructors
  never set the property, so it holds the enum's default, `BigEndian`.
- `ToLittleEndianByteArray` does not drop a partial trailing byte. It allocates
  `Count / 8` bytes and then writes every bit, so a length that is not a
  multiple of 8 ends in an `IndexOutOfRangeException`.
- `PopLittleEndianBytes(count)` allocates `count / 8` bytes but packs
  `count * 8` bits, so every positive `count` throws before anything is removed
  (see Findings).

For non-null arguments and sizes the runtime can allocate, every exception the
code throws is a `Failure(e)` result whose `Error` names the .NET exception
type. C# evaluates the right-hand side of `a[i] = e` before
it checks `i`, so when the packing loop runs out of both the list and the
array it is the list read (`ArgumentOutOfRangeException`) that fails first.

## Model

| member | source | states |
|---|---|---|
| `ByteCodec.BitOf` | src/Rhaeo.Bits/Rhaeo.Bits/BitSequence.cs:151 | whether bit k of v is on, the mask test of AppendByte (and of the byte constructor at line 59) |
| `ByteCodec.BitOfBelow` | src/Rhaeo.Bits/Rhaeo.Bits/BitSequence.cs:59 | a value below 2^k has bit k off, so the mask test finds nothing above a byte's eight bits |
| `ByteCodec.SetBit` | src/Rhaeo.Bits/Rhaeo.Bits/BitSequence.cs:268 | the bitwise or with the mask switches bit k on and leaves the other seven bits as they were |
| `ByteCodec.ClearBit` | src/Rhaeo.Bits/Rhaeo.Bits/BitSequence.cs:268 | the bitwise and with the inverted mask switches bit k off and leaves the other seven bits as they were |
| `ByteCodec.ByteBits` | src/Rhaeo.Bits/Rhaeo.Bits/BitSequence.cs:149-153 | a byte gives exactly 8 bits, entry k being bit k of the byte (least significant first) |
| `ByteCodec.LowBits` | src/Rhaeo.Bits/Rhaeo.Bits/BitSequence.cs:190-229 | the n lowest bits of a number, as n entries |
| `ByteCodec.ValueOfLowBits` | src/Rhaeo.Bits/Rhaeo.Bits/BitSequence.cs:190-229 | a number below 2^n is determined by its n lowest bits: reading them back gives the number |
| `ByteCodec.ValueOfByteBits` | src/Rhaeo.Bits/Rhaeo.Bits/BitSequence.cs:147-154 | the 8 bits AppendByte produces, read back as a number, are the byte |
| `ByteCodec.ByteBitsInjective` | src/Rhaeo.Bits/Rhaeo.Bits/BitSequence.cs:147-154 | two different bytes never append the same 8 bits |
| `ByteCodec.BitOfValue` | src/Rhaeo.Bits/Rhaeo.Bits/BitSequence.cs:263-269 | bit i of the number a bit string packs into is the string's i-th bit |
| `ByteCodec.ByteBitsOfValue` | src/Rhaeo.Bits/Rhaeo.Bits/BitSequence.cs:291-297 | 8 bits packed into a number fit a byte, and unpacking that byte gives the same 8 bits |
| `ByteCodec.PackByte` | src/Rhaeo.Bits/Rhaeo.Bits/BitSequence.cs:291-297 | the byte packed from 8 bits has exactly those bits, least significant first |
| `ByteCodec.Unpack` | src/Rhaeo.Bits/Rhaeo.Bits/BitSequence.cs:54-60 | a byte array unpacks to 8 bits per byte |
| `ByteCodec.UnpackByteAt` | src/Rhaeo.Bits/Rhaeo.Bits/BitSequence.cs:54-60 | bits 8j to 8j+7 of the unpacked array are the bits of byte j |
| `ByteCodec.UnpackAppend` | src/Rhaeo.Bits/Rhaeo.Bits/BitSequence.cs:178-184 | unpacking one more byte appends that byte's 8 bits |
| `ByteCodec.UnpackConcat` | src/Rhaeo.Bits/Rhaeo.Bits/BitSequence.cs:178-184 | unpacking two arrays one after the other is unpacking their concatenation |
| `ByteCodec.Pack` | src/Rhaeo.Bits/Rhaeo.Bits/BitSequence.cs:288-300 | a bit string of whole bytes packs into one byte per 8 bits |
| `ByteCodec.PackUnpack` | src/Rhaeo.Bits/Rhaeo.Bits/BitSequence.cs:288-300 | packing the bits of any byte array gives the array back |
| `ByteCodec.UnpackPack` | src/Rhaeo.Bits/Rhaeo.Bits/BitSequence.cs:288-300 | unpacking the bytes packed from any whole-byte bit string gives the bits back |
| `ByteCodec.LittleEndianBytes` | src/Rhaeo.Bits/Rhaeo.Bits/BitSequence.cs:192-196 | a number's little-endian form has exactly n bytes |
| `ByteCodec.LittleEndianValueOfBytes` | src/Rhaeo.Bits/Rhaeo.Bits/BitSequence.cs:192-196 | joining the n little-endian bytes of a number below 2^(8n) gives the number back |
| `ByteCodec.LittleEndianBytesOfValue` | src/Rhaeo.Bits/Rhaeo.Bits/BitSequence.cs:192-196 | splitting the number that bytes join into gives the same bytes back |
| `ByteCodec.UnpackLittleEndianBytes` | src/Rhaeo.Bits/Rhaeo.Bits/BitSequence.cs:190-229 | the bits of the n little-endian bytes of v are the 8n lowest bits of v: bit i appended is bit i of v, whatever the host's byte order |
| `ByteCodec.LittleEndianRoundTrip` | src/Rhaeo.Bits/Rhaeo.Bits/BitSequence.cs:205-214 | the 8n bits of a number, packed into n bytes and read as a little-endian number, give the number |
| `BitSequences.TruncatingDiv8` | src/Rhaeo.Bits/Rhaeo.Bits/BitSequence.cs:262 | C#'s `count / 8` rounds toward zero, for negative counts too |
| `BitSequences.Reversed` | src/Rhaeo.Bits/Rhaeo.Bits/BitSequence.cs:168 | `bytes.Reverse()` keeps the length and puts byte j at slot length-1-j |
| `BitSequences.ReversedTwice` | src/Rhaeo.Bits/Rhaeo.Bits/BitSequence.cs:168 | reversing twice gives the array back, so no byte is lost or duplicated |
| `BitSequences.UnpackReversed` | src/Rhaeo.Bits/Rhaeo.Bits/BitSequence.cs:168 | with BigEndian the j-th appended byte is the j-th byte from the end |
| `BitSequences.PackFault` | src/Rhaeo.Bits/Rhaeo.Bits/BitSequence.cs:263-269 | the packing loop over n bits fails exactly when n exceeds the bits available or the array's 8 bits per byte |
| `BitSequences.PackInto` | src/Rhaeo.Bits/Rhaeo.Bits/BitSequence.cs:291-297 | the packing loop fails with the exception of the first out-of-range read, and on whole bytes leaves the array equal to `Pack` of the bits |
| `BitSequences.Digit` | src/Rhaeo.Bits/Rhaeo.Bits/BitSequence.cs:306 | a bit is drawn as '1' exactly when it is on and as '0' exactly when it is off |
| `BitSequences.Render` | src/Rhaeo.Bits/Rhaeo.Bits/BitSequence.cs:306 | the debug string has one character per bit plus one space per pair of bits |
| `BitSequences.RenderDigitAt` | src/Rhaeo.Bits/Rhaeo.Bits/BitSequence.cs:306 | bit i is drawn as '1' or '0' at position i + i/2 + 1 |
| `BitSequences.RenderSpaceAt` | src/Rhaeo.Bits/Rhaeo.Bits/BitSequence.cs:306 | a space precedes every even-indexed bit, at position 3m for bit 2m |
| `BitSequences.BitSequence.constructor` | src/Rhaeo.Bits/Rhaeo.Bits/BitSequence.cs:23-26 | a new sequence is empty and its ByteOrdering is the default, BigEndian |
| `BitSequences.BitSequence.WithCapacity` | src/Rhaeo.Bits/Rhaeo.Bits/BitSequence.cs:32-35 | the capacity has no visible effect: the sequence is empty |
| `BitSequences.BitSequence.FromBits` | src/Rhaeo.Bits/Rhaeo.Bits/BitSequence.cs:41-44 | the sequence holds the given bits in order |
| `BitSequences.BitSequence.FromBytes` | src/Rhaeo.Bits/Rhaeo.Bits/BitSequence.cs:51-63 | the sequence holds the bytes' bits in array order whatever the ordering, which is only stored |
| `BitSequences.BitSequence.BitCount` | src/Rhaeo.Bits/Rhaeo.Bits/BitSequence.cs:77 | the number of bits held |
| `BitSequences.BitSequence.ByteCount` | src/Rhaeo.Bits/Rhaeo.Bits/BitSequence.cs:82 | the number of whole bytes among the bits; a partial trailing byte is not counted |
| `BitSequences.BitSequence.AppendOnBit` | src/Rhaeo.Bits/Rhaeo.Bits/BitSequence.cs:91-94 | the bits are the old bits followed by an on bit |
| `BitSequences.BitSequence.AppendOffBit` | src/Rhaeo.Bits/Rhaeo.Bits/BitSequence.cs:99-102 | the bits are the old bits followed by an off bit |
| `BitSequences.BitSequence.AppendBit` | src/Rhaeo.Bits/Rhaeo.Bits/BitSequence.cs:111-114 | the bits are the old bits followed by the given bit |
| `BitSequences.BitSequence.AppendBits` | src/Rhaeo.Bits/Rhaeo.Bits/BitSequence.cs:120-132 | the bits are the old bits followed by the given bits in order |
| `BitSequences.BitSequence.AppendBitSequence` | src/Rhaeo.Bits/Rhaeo.Bits/BitSequence.cs:138-141 | the bits are the old bits followed by a copy of the other sequence's bits, and the other sequence is unchanged |
| `BitSequences.BitSequence.AppendByte` | src/Rhaeo.Bits/Rhaeo.Bits/BitSequence.cs:147-154 | exactly the 8 bits of the byte are appended, least significant first |
| `BitSequences.BitSequence.AppendBytes` | src/Rhaeo.Bits/Rhaeo.Bits/BitSequence.cs:161-172 | the bytes' bits are appended in array order for LittleEndian and in reverse byte order for BigEndian |
| `BitSequences.BitSequence.AppendLittleEndianBytes` | src/Rhaeo.Bits/Rhaeo.Bits/BitSequence.cs:178-184 | the bytes' bits are appended in array order |
| `BitSequences.BitSequence.AppendLittleEndianUInt16Bytes` | src/Rhaeo.Bits/Rhaeo.Bits/BitSequence.cs:190-199 | exactly 16 bits are appended, bit i being bit i of the value |
| `BitSequences.BitSequence.AppendLittleEndianUInt32Bytes` | src/Rhaeo.Bits/Rhaeo.Bits/BitSequence.cs:205-214 | exactly 32 bits are appended, bit i being bit i of the value |
| `BitSequences.BitSequence.AppendLittleEndianUInt64Bytes` | src/Rhaeo.Bits/Rhaeo.Bits/BitSequence.cs:220-229 | exactly 64 bits are appended, bit i being bit i of the value |
| `BitSequences.BitSequence.Pop` | src/Rhaeo.Bits/Rhaeo.Bits/BitSequence.cs:235-240 | on an empty sequence it fails and changes nothing; otherwise it returns the first bit and leaves the rest |
| `BitSequences.BitSequence.PopBits` | src/Rhaeo.Bits/Rhaeo.Bits/BitSequence.cs:247-253 | a negative count or one past the end fails and removes nothing; otherwise the first count bits move, in order, into a new sequence whose ordering is the default BigEndian |
| `BitSequences.BitSequence.PopLittleEndianBytes` | src/Rhaeo.Bits/Rhaeo.Bits/BitSequence.cs:260-273 | as written: only count 0 succeeds (with no bytes); every other count fails, with the exception it throws, and removes nothing |
| `BitSequences.BitSequence.PopLittleEndianBytesFixed` | src/Rhaeo.Bits/Rhaeo.Bits/BitSequence.cs:260-273 | as documented: removes the first 8·count bits and returns them packed into count bytes, or fails and removes nothing |
| `BitSequences.BitSequence.ToBitArray` | src/Rhaeo.Bits/Rhaeo.Bits/BitSequence.cs:279-282 | a fresh array holding the bits in order |
| `BitSequences.BitSequence.ToLittleEndianByteArray` | src/Rhaeo.Bits/Rhaeo.Bits/BitSequence.cs:288-300 | on whole bytes, a fresh array equal to `Pack` of the bits; otherwise an index-out-of-range failure; never a change to the sequence |
| `BitSequences.BitSequence.ToString` | src/Rhaeo.Bits/Rhaeo.Bits/BitSequence.cs:306 | the debug rendering of the bits |
| `Scenarios.AppendBitThenPop` | src/Rhaeo.Bits/Rhaeo.Bits.Tests/UnitTest.cs:12-21 | a bit appended to an empty sequence pops back unchanged |
| `Scenarios.AppendOnOffBits` | src/Rhaeo.Bits/Rhaeo.Bits.Tests/UnitTest.cs:24-41 | AppendOnBit and AppendOffBit add true and false after the existing bit |
| `Scenarios.AppendBitSequenceConcatenates` | src/Rhaeo.Bits/Rhaeo.Bits.Tests/UnitTest.cs:55-63 | appending bits and then another sequence gives the concatenation and leaves the other sequence as it was |
| `Scenarios.ByteBitsTestVectors` | src/Rhaeo.Bits/Rhaeo.Bits.Tests/UnitTest.cs:66-90 | the nine byte patterns the AppendByte test expects |
| `Scenarios.AppendByteSequence` | src/Rhaeo.Bits/Rhaeo.Bits.Tests/UnitTest.cs:66-90 | appending bytes one by one lays their 8-bit patterns end to end |
| `Scenarios.ByteArrayRoundTrip` | src/Rhaeo.Bits/Rhaeo.Bits/BitSequence.cs:51-63 | a byte array read into a sequence, with either ordering, exports as the same array |
| `Scenarios.UInt32RoundTrip` | src/Rhaeo.Bits/Rhaeo.Bits/BitSequence.cs:205-214 | a 32-bit value appended and popped as four bytes reads back as the value |
| `Scenarios.UInt32RoundTripAsWritten` | src/Rhaeo.Bits/Rhaeo.Bits/BitSequence.cs:260-273 | the same round trip through PopLittleEndianBytes as written throws an index-out-of-range exception |
| `Scenarios.PopTooManyBits` | src/Rhaeo.Bits/Rhaeo.Bits/BitSequence.cs:247-253 | popping more bits than there are fails with an argument exception and leaves the bits as they were |

## Findings

| source | as written | input that shows it | evidently intended | confidence | as-written member | corrected member |
|---|---|---|---|---|---|---|
| src/Rhaeo.Bits/Rhaeo.Bits/BitSequence.cs:262 | `new byte[count / 8]` while the loop packs `count * 8` bits into `byteArray[index / 8]` | a sequence holding the 32 bits of a `uint`, then `PopLittleEndianBytes(4)`: index 0 already writes byte 0 of an empty array | `new byte[count]`, so that `count` bytes are returned and `count * 8` bits removed | not executed; high (the doc comment and the loop both treat `count` as a byte count) | `BitSequences.BitSequence.PopLittleEndianBytes`, `Scenarios.UInt32RoundTripAsWritten` | `BitSequences.BitSequence.PopLittleEndianBytesFixed`, `Scenarios.UInt32RoundTrip` |

## Left out

- `WithCapacity`: takes a `nat`; a negative capacity, which makes `List<bool>` throw, is not modelled, and the capacity has no other observable effect.
- `FromBytes`: the default argument `ByteOrdering.LittleEndian` is not modelled; callers pass the ordering.
- `AppendBytes`: the `ArgumentException` for an ordering that is neither BigEndian nor LittleEndian cannot occur, because `ByteOrdering` here has exactly two values (a C# enum can hold any integer).
- `AppendBits`: the `params bool[]` and `IEnumerable<bool>` overloads are one method over a finite `seq<bool>`; lazy or infinite enumerables are not modelled.
- `PopLittleEndianBytes`: 32-bit wrap-around of `count * 8` (and of `bytes.Length * 8` in `FromBytes`) is not modelled; counts are unbounded integers.
- `BitConverter.GetBytes` and `BitConverter.IsLittleEndian` are host-dependent library calls; only their normalised result, the little-endian bytes of the value, is modelled (`LittleEndianBytes`).
- Null arguments are not modelled: `seq` parameters and `BitSequence` references cannot be null here, so the `ArgumentNullException` of `new BitSequence((bool[])null)` and `AppendBits(null)` (lines 43, 122, 131) and the `NullReferenceException` of the byte constructor, `AppendBitSequence`, `AppendBytes` and `AppendLittleEndianBytes` with null (lines 53, 140, 168, 180) have no `Error` value.
- `PopBits`: the `OutOfMemoryException` that `new bool[count]` (line 249) throws for a count beyond the runtime's array-length limit, before `CopyTo` can throw its `ArgumentException`, is not modelled; every count above the length is reported as `Argument`.
- The exceptions' messages and parameter names are not modelled, only their types.
- Growth and capacity of the `List<bool>`, and thread safety, are not modelled.
- The test project's UWP host (UnitTestApp.xaml.cs) is not part of this model.
