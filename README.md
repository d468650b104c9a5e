# Cayd.Uuid in Dafny

A verified model of the core of Cayd.Uuid. The library is a C# library that generates RFC 9562 UUIDs as .NET `Guid` values. The model covers:

- **The byte-order codec** (`uuid_codec.dfy`, module `UuidCodec`). It converts between the order in which a `Guid` keeps its bytes and the RFC 9562 octet order, using four in-place swaps. It also trims buffers longer than 16 bytes and defines the `Max` and `Empty` sentinels. A `Guid` is a datatype over its 16 `ToByteArray` bytes.
- **Version and variant stamping** (`version_field.dfy`, module `VersionField`). This is the rule every generator repeats: the version goes in the high nibble of octet 6, and the bits `10` go at the top of octet 8.
- **The generators**:
  - v3 (`v3.dfy`) and v5 (`v5.dfy`), over the shared hash input of `name_based.dfy`: namespace octets followed by name octets. MD5 and SHA-1 are parameters.
  - v4 (`v4.dfy`): a random buffer, stamped.
  - v7 (`v7.dfy`): a 48-bit millisecond prefix over a random buffer.
  - v8 (`v8.dfy`): a caller payload, with its length check and the three-segment assembler.
  - v1 (`v1.dfy`): the three static fields `_lastTimestamp`, `_clockSequence` and `_nodeId` become the fields of the class `UuidV1.ClockState`.
- **Shared number helpers** (`numbers.dfy`, module `Numbers`). These cover the .NET `byte`, `ushort` and `long` types and the idiom `(byte)((x >> n) & 0xFF)` on two's-complement integers. They also give a big-endian encoding with its round trip and its order-preservation lemma.

Randomness, clock readings, digests and the list of hardware addresses are parameters. Every generator is a method that follows the source's buffer writes. Each one is proved equal to a pure function of its inputs, and the lemmas state their properties about those functions.

Where the code departs from RFC 9562, the model follows the code:

- Section 5.1 of RFC 9562 counts the v1 timestamp in 100 ns intervals and gives a 14-bit clock sequence. `Uuid.V1.cs` multiplies the ticks by 10, so its unit is 10 ns. Its clock sequence has 8 bits (see Findings).
- `GenerateGuidFromBytes` throws for a buffer shorter than 16 bytes, and `UuidCodec.FromBytes` models those errors.
- The three-segment v8 assembler is modelled as written, by `UuidV8.Assembled`. `UuidV8.IntendedAssembly` states the layout A, B, C documented at Uuid.V8.cs:68-70, and "## Findings" compares the two.

## Model

| member | source | states |
|---|---|---|
| UuidCodec.Swap | src/Cayd.Uuid/Uuid.cs:95-100 | the two cells are exchanged and every other cell is kept |
| UuidCodec.SwapBytes | src/Cayd.Uuid/Uuid.cs:95-100 | the array is swapped at the two indices exactly when both lie inside it; an index fault leaves it untouched |
| UuidCodec.Reorder | src/Cayd.Uuid/Uuid.cs:32-35 | octets 0-7 become in[3],in[2],in[1],in[0],in[5],in[4],in[7],in[6]; bytes 8 and later stay put |
| UuidCodec.ReorderInvolution | src/Cayd.Uuid/Uuid.cs:32-55 | the four-swap permutation applied twice is the identity |
| UuidCodec.ReorderPrefix | src/Cayd.Uuid/Uuid.cs:57-62 | reordering and trimming to 16 bytes commute |
| UuidCodec.SwapsUntilFault | src/Cayd.Uuid/Uuid.cs:52-55 | the caller's buffer after the swaps: fully reordered for 8 bytes or more, unchanged below 4 |
| UuidCodec.ToOctets | src/Cayd.Uuid/Uuid.cs:28-38 | the RFC octets of a Guid, field by field from its memory order |
| UuidCodec.FromOctets | src/Cayd.Uuid/Uuid.cs:50-64 | the Guid built from 16 RFC octets gives those octets back |
| UuidCodec.ToOctetsInjective | src/Cayd.Uuid/Uuid.cs:28-38 | distinct Guids have distinct octets, and conversely |
| UuidCodec.FromBytes | src/Cayd.Uuid/Uuid.cs:50-65 | succeeds exactly for 16 bytes or more, with octets equal to the first 16; otherwise it is an index fault below 8 bytes and the 16-byte constructor error from 8 to 15 |
| UuidCodec.OctetsRoundTrip | src/Cayd.Uuid/Uuid.cs:28-65 | decoding a Guid's octets gives the Guid back |
| UuidCodec.TrailingBytesIgnored | src/Cayd.Uuid/Uuid.cs:57-62 | two long buffers give the same Guid if and only if their first 16 bytes agree |
| UuidCodec.SentinelOctets | src/Cayd.Uuid/Uuid.cs:13-17 | the octets of Max are sixteen 0xFF and those of Empty sixteen 0x00 |
| UuidCodec.ToByteArray | src/Cayd.Uuid/Uuid.cs:30 | a fresh array holding the Guid's memory bytes |
| UuidCodec.BlockCopy | src/Cayd.Uuid/Uuid.cs:60 | the destination range is overwritten by the source range and everything else is kept |
| UuidCodec.GetBytesOfGuid | src/Cayd.Uuid/Uuid.cs:28-38 | a fresh array holding exactly the RFC octets |
| UuidCodec.GenerateGuidFromBytes | src/Cayd.Uuid/Uuid.cs:50-65 | returns FromBytes of the input and leaves the caller's buffer holding the swapped order |
| VersionField.Stamped | src/Cayd.Uuid/Versions/Uuid.V4.cs:30-34 | the stamped buffer carries the version and the RFC variant and keeps every other payload bit |
| VersionField.StampIdempotent | src/Cayd.Uuid/Versions/Uuid.V8.cs:28-32 | stamping twice is stamping once |
| VersionField.StampFixedPoint | src/Cayd.Uuid/Versions/Uuid.V8.cs:28-32 | stamping leaves a buffer alone if and only if it already carries the version and the variant |
| VersionField.VersionByteEqual | src/Cayd.Uuid/Versions/Uuid.V8.cs:29 | two version bytes agree if and only if their low nibbles do |
| VersionField.VariantByteEqual | src/Cayd.Uuid/Versions/Uuid.V8.cs:32 | two variant bytes agree if and only if their low six bits do |
| VersionField.StampEqualIff | src/Cayd.Uuid/Versions/Uuid.V4.cs:30-34 | two buffers stamp alike if and only if they agree outside the six stamped bits |
| VersionField.StampPrefix | src/Cayd.Uuid/Versions/Uuid.V5.cs:57-64 | stamping commutes with trimming to 16 bytes |
| VersionField.Stamp | src/Cayd.Uuid/Versions/Uuid.V8.cs:28-32 | the array afterwards holds the stamped buffer |
| NameBased.HashInput | src/Cayd.Uuid/Versions/Uuid.V3.cs:47-52 | the hash input is 16 namespace octets followed by the name, with length 16 plus the name's |
| NameBased.HashInputInjective | src/Cayd.Uuid/Versions/Uuid.V3.cs:47-52 | equal hash inputs come from equal (namespace, name) pairs only |
| NameBased.DistinctNamespacesDistinctInputs | src/Cayd.Uuid/Versions/Uuid.V5.cs:44-49 | different namespaces with one name feed the digest different bytes |
| NameBased.ConcatNamespaceAndName | src/Cayd.Uuid/Versions/Uuid.V5.cs:44-49 | the two block copies produce exactly the hash input |
| UuidV3.NamespaceOctets | src/Cayd.Uuid/Versions/Uuid.V3.cs:25-37 | the namespace family's octet 3 is its parameter |
| UuidV3.NamespaceMemory | src/Cayd.Uuid/Versions/Uuid.V3.cs:25-37 | in the Guid's memory order the varying octet is byte 0, followed by fixed bytes |
| UuidV3.NamespaceFamily | src/Cayd.Uuid/Versions/Uuid.V3.cs:25-37 | two namespaces of the family are equal if and only if their octet 3 is; the other fifteen memory bytes agree |
| UuidV3.NamespacesDistinct | src/Cayd.Uuid/Versions/Uuid.V3.cs:25-37 | the DNS, URL, OID and X.500 namespaces are pairwise distinct |
| UuidV3.FromDigest | src/Cayd.Uuid/Versions/Uuid.V3.cs:54-70 | version 3, RFC variant, and every other bit equal to the MD5 digest |
| UuidV3.Generate | src/Cayd.Uuid/Versions/Uuid.V3.cs:45-71 | the result is FromDigest of MD5 over the hash input, so equal pairs give equal Guids |
| UuidV5.SameNamespacesAsV3 | src/Cayd.Uuid/Versions/Uuid.V5.cs:22-34 | the v5 namespace constants equal the v3 ones |
| UuidV5.FromDigest | src/Cayd.Uuid/Versions/Uuid.V5.cs:51-67 | version 5, RFC variant, and every other bit equal to the first 16 digest bytes |
| UuidV5.DigestTailIgnored | src/Cayd.Uuid/Versions/Uuid.V5.cs:54-67 | two digests give one Guid if and only if their first 16 bytes agree off the stamped bits; bytes 16-19 never matter |
| UuidV5.Generate | src/Cayd.Uuid/Versions/Uuid.V5.cs:42-68 | the result is FromDigest of SHA-1 over the hash input |
| UuidV4.FromRandom | src/Cayd.Uuid/Versions/Uuid.V4.cs:17-41 | version 4, RFC variant, the other 122 bits from the random buffer, memory = codec swap of the stamped buffer |
| UuidV4.RandomCollisions | src/Cayd.Uuid/Versions/Uuid.V4.cs:30-34 | two random buffers give one Guid if and only if they differ in the stamped bits only |
| UuidV4.EveryV4Reachable | src/Cayd.Uuid/Versions/Uuid.V4.cs:30-34 | every Guid with version 4 and the RFC variant is produced by some random buffer |
| UuidV4.Generate | src/Cayd.Uuid/Versions/Uuid.V4.cs:17-41 | the result is FromRandom of the random fill |
| UuidV7.TimestampBytes | src/Cayd.Uuid/Versions/Uuid.V7.cs:45-51 | six shifted-and-masked octets |
| UuidV7.TimestampBytesBigEndian | src/Cayd.Uuid/Versions/Uuid.V7.cs:45-51 | they are the 48-bit big-endian encoding of the timestamp |
| UuidV7.V7Octets | src/Cayd.Uuid/Versions/Uuid.V7.cs:32-57 | octets 0-5 big-endian time, version 7, RFC variant, other bits from the random fill |
| UuidV7.FromTimestamp | src/Cayd.Uuid/Versions/Uuid.V7.cs:30-64 | the Guid's octets are V7Octets |
| UuidV7.TimestampRecoverable | src/Cayd.Uuid/Versions/Uuid.V7.cs:43-51 | the first six octets decode to the timestamp modulo 2^48 |
| UuidV7.RandomKept | src/Cayd.Uuid/Versions/Uuid.V7.cs:32-57 | low nibble of octet 6, octet 7, low six bits of octet 8 and octets 9-15 are the random input |
| UuidV7.TimeOrdered | src/Cayd.Uuid/Versions/Uuid.V7.cs:9-11 | for 0 <= t1 < t2 < 2^48 the prefix, and so the whole octet string, of t1 is lexicographically smaller, whatever the random bytes |
| UuidV7.WriteTimestamp | src/Cayd.Uuid/Versions/Uuid.V7.cs:45-51 | octets 0-5 are written and the rest kept |
| UuidV7.GenerateGuid | src/Cayd.Uuid/Versions/Uuid.V7.cs:30-64 | the result is FromTimestamp of the millisecond value and the random fill |
| UuidV8.FromPayload | src/Cayd.Uuid/Versions/Uuid.V8.cs:23-35 | fails with the length error exactly when the payload is not 16 bytes; otherwise version 8, RFC variant, other 122 bits kept |
| UuidV8.RegenerateIsIdentity | src/Cayd.Uuid/Versions/Uuid.V8.cs:28-32 | feeding a v8 Guid's octets back in gives the same Guid |
| UuidV8.PayloadCollisions | src/Cayd.Uuid/Versions/Uuid.V8.cs:28-32 | two payloads give one Guid if and only if they differ in the stamped bits only |
| UuidV8.Generate | src/Cayd.Uuid/Versions/Uuid.V8.cs:23-35 | returns FromPayload; a wrong-length buffer is left untouched, a right one ends stamped and swapped |
| UuidV8.CopyInto | src/Cayd.Uuid/Versions/Uuid.V8.cs:83-85 | the copied range holds the source and the rest of the destination is kept |
| UuidV8.Assembled | src/Cayd.Uuid/Versions/Uuid.V8.cs:82-85 | as written: bytes 0-3 from A, bytes 4-11 from C, bytes 12-15 zero |
| UuidV8.SegmentBLost | src/Cayd.Uuid/Versions/Uuid.V8.cs:84-85 | as written, B and bytes 4-5 of A never reach the buffer |
| UuidV8.IntendedAssembly | src/Cayd.Uuid/Versions/Uuid.V8.cs:68-70 | the documented layout A, B, C |
| UuidV8.IntendedSegmentsKept | src/Cayd.Uuid/Versions/Uuid.V8.cs:68-70 | with it all 48 bits of A, 12 of B and 62 of C reach the Guid |
| UuidV8.FromSegments | src/Cayd.Uuid/Versions/Uuid.V8.cs:73-88 | checks A = 6, B = 2, C = 8 in that order (the B error naming customA); Ok exactly when all fit, with version 8 over Assembled |
| UuidV8.SegmentBErrorNamesA | src/Cayd.Uuid/Versions/Uuid.V8.cs:77-78 | a wrong-length B is reported under the name customA |
| UuidV8.IntendedFromSegments | src/Cayd.Uuid/Versions/Uuid.V8.cs:68-80 | each error names its own segment and the payload is A, B, C |
| UuidV8.GenerateFromSegments | src/Cayd.Uuid/Versions/Uuid.V8.cs:73-88 | the result is FromSegments of the three arrays |
| UuidV1.GenerateClockSequence | src/Cayd.Uuid/Versions/Uuid.V1.cs:95-109 | as written the clock sequence equals the second random byte, so it never exceeds 0xFF |
| UuidV1.ClockSequenceIgnoresFirstByte | src/Cayd.Uuid/Versions/Uuid.V1.cs:108 | bytes 0x3F, 0x00 give 0 as written and 0x3F00 under the 14-bit rule |
| UuidV1.IntendedClockSequence | src/Cayd.Uuid/Versions/Uuid.V1.cs:108 | the 14-bit rule: the high byte is the low six bits of b0, the low byte is b1 |
| UuidV1.IntendedClockSequenceCoversFourteenBits | src/Cayd.Uuid/Versions/Uuid.V1.cs:108 | every value below 2^14 is reached |
| UuidV1.ChosenNodeId | src/Cayd.Uuid/Versions/Uuid.V1.cs:111-138 | six bytes, either the random fallback or one of the addresses |
| UuidV1.ChosenNodeIdIsFirstAddress | src/Cayd.Uuid/Versions/Uuid.V1.cs:119-137 | the first six-byte address when there is one, the random bytes otherwise |
| UuidV1.GetNodeId | src/Cayd.Uuid/Versions/Uuid.V1.cs:111-138 | the loop returns ChosenNodeId |
| UuidV1.TimeOctets | src/Cayd.Uuid/Versions/Uuid.V1.cs:62-77 | eight octets with version 1 in the high nibble of octet 6 |
| UuidV1.ClockSequenceOctets | src/Cayd.Uuid/Versions/Uuid.V1.cs:79-84 | the variant bits 10 over bits 8-13 of the clock sequence, then its low byte; 0x80 for a sequence up to 0xFF |
| UuidV1.IntendedClockSequenceOctets | src/Cayd.Uuid/Versions/Uuid.V1.cs:79-84 | with the 14-bit rule octet 8 carries the low six bits of b0 under the variant and octet 9 carries b1 |
| UuidV1.V1Octets | src/Cayd.Uuid/Versions/Uuid.V1.cs:62-90 | version 1, RFC variant, bits 8-13 of the clock sequence in the low six bits of octet 8, its low byte in octet 9, octets 10-15 the node |
| UuidV1.TimestampRecoverable | src/Cayd.Uuid/Versions/Uuid.V1.cs:62-77 | time_high, time_mid and time_low read back give the timestamp modulo 2^60 |
| UuidV1.V1OctetsDetermineFields | src/Cayd.Uuid/Versions/Uuid.V1.cs:62-90 | equal octets mean equal timestamp modulo 2^60, equal node and equal low clock-sequence byte |
| UuidV1.WriteTimeLow | src/Cayd.Uuid/Versions/Uuid.V1.cs:62-66 | octets 0-3 written, the rest kept |
| UuidV1.WriteTimeMidAndHigh | src/Cayd.Uuid/Versions/Uuid.V1.cs:68-77 | octets 4-7 written, the rest kept |
| UuidV1.WriteTime | src/Cayd.Uuid/Versions/Uuid.V1.cs:62-77 | octets 0-7 are TimeOctets, the rest kept |
| UuidV1.WriteClockSequence | src/Cayd.Uuid/Versions/Uuid.V1.cs:79-84 | octets 8-9 are ClockSequenceOctets, the rest kept |
| UuidV1.WriteFields | src/Cayd.Uuid/Versions/Uuid.V1.cs:50-90 | a fresh buffer holding V1Octets, the node bytes copied by the loop |
| UuidV1.ClockState.constructor | src/Cayd.Uuid/Versions/Uuid.V1.cs:13-17 | last timestamp 0, a drawn clock sequence, the chosen node id |
| UuidV1.ClockState.RefreshNodeId | src/Cayd.Uuid/Versions/Uuid.V1.cs:37-46 | node and sequence unchanged when the node id is the same; both replaced otherwise; the timestamp kept |
| UuidV1.ClockState.GenerateGuid | src/Cayd.Uuid/Versions/Uuid.V1.cs:48-93 | a new clock sequence exactly when the clock went backwards, the timestamp recorded in every case, the node kept, octets = V1Octets, octet 8 exactly 0x80 |

## Left out

- Random number generation: the random fill of v4 and v7, the clock-sequence bytes and the fallback node id are parameters.
- MD5 and SHA-1: each is a function parameter, required to return 16 or 20 bytes.
- `Encoding.UTF8.GetBytes`: the name is taken as its UTF-8 bytes.
- Clock readings: `DateTime.UtcNow`, `DateTimeOffset.ToUnixTimeMilliseconds` and the v1 conversion `(UtcNow - GregorianReformDate).Ticks * 10` are left out. The timestamp they produce is a parameter. The factor 10 yields 10 ns units rather than the 100 ns of RFC 9562; a `long` overflow of that product is not modelled.
- `NetworkInterface` enumeration: the addresses of the interfaces that are up are a parameter of `GetNodeId`.
- `Generate(useLock)` and `lock (_lockObj)` in Uuid.V1.cs: concurrency. Only the sequential `GenerateGuid` is modelled.
- The `Span<byte>` overloads of `GenerateGuidFromBytes`, `SwapBytes` and the single-payload v8 `Generate` repeat the array logic, so only the array forms are modelled.
- The three-segment `Span` overload of v8 (Uuid.V8.cs:102-117) is not modelled. It copies `customA` into the 2-byte and 8-byte slices, so the library's `CopyTo` throws for every valid input.
- The exception types are modelled as values of `UuidCodec.Error`.
- Index faults are modelled only in `GenerateGuidFromBytes`. `Buffer.BlockCopy` is modelled for in-range copies only, which is how the core calls it.
- Guid string parsing and the `Guid(uint, ushort, ...)` constructor are not modelled. The namespace constants and the sentinels are written as their octets.
- `Uuid.V2.cs` is an empty class, and the v6 generator is not part of this model.
- The probabilistic uniqueness of v1 and `Guid.CompareTo` order are left out. `UuidV7.TimeOrdered` states the order on RFC octets instead.
- UuidV1.ClockState: uses the as-written `GenerateClockSequence`, because the model follows the code; the 14-bit rule is stated separately by `UuidV1.IntendedClockSequence`.

## Findings

| source | as written | input that shows it | evidently intended | confidence | as-written member | corrected member |
|---|---|---|---|---|---|---|
| src/Cayd.Uuid/Versions/Uuid.V1.cs:108 | the 0x3F mask is applied after shifting b0 left by 8, so b0 is cleared and the clock sequence is b1 alone | random bytes 0x3F, 0x00 give clock sequence 0 | a 14-bit sequence: the low six bits of b0 above b1 | high; not executed | UuidV1.ClockSequenceIgnoresFirstByte | UuidV1.IntendedClockSequence |
| src/Cayd.Uuid/Versions/Uuid.V8.cs:85 | segment C is copied at offset 2·\|B\| = 4, over bytes 4-5 of A and all of B | any A, B1, B2, C: the buffers for B1 and B2 are identical | C at offset \|A\| + \|B\| = 8, giving the layout A, B, C | high; not executed | UuidV8.SegmentBLost | UuidV8.IntendedAssembly |
| src/Cayd.Uuid/Versions/Uuid.V8.cs:78 | the error for a wrong-length B names `customA` | A of six bytes, B empty, C of eight bytes | the error names `customB` | high; not executed | UuidV8.SegmentBErrorNamesA | UuidV8.IntendedFromSegments |
