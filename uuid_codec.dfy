/**
 * The byte-order codec of Cayd.Uuid (Uuid.cs): conversion between the order in
 * which a .NET `Guid` keeps its bytes and the RFC 9562 octet order (section 4 of
 * RFC 9562), together with the `Max` and `Empty` sentinels.
 *
 * A .NET `Guid` stores its first three fields little-endian, so `ToByteArray`
 * yields `[3][2][1][0]-[5][4]-[7][6]-[8-15]` against the RFC octets. The codec
 * converts by four in-place swaps, one permutation that is its own inverse.
 */
module UuidCodec {
  import opened Numbers

  /** A buffer of exactly the 16 bytes of a Guid. */
  type Bytes16 = s: seq<byte> | |s| == 16 witness [0, 0, 0, 0, 0, 0, 0, 0, 0, 0, 0, 0, 0, 0, 0, 0]

  /**
   * A .NET `Guid`, given by the bytes `ToByteArray` returns (its in-memory order):
   * `new Guid(b)` for a 16-byte `b` is `Guid(b)`, and `g.ToByteArray()` is `g.memory`.
   */
  datatype Guid = Guid(memory: Bytes16)

  /** The exceptions the core raises. */
  datatype Error =
    | WrongDataLength(name: string, length: int)  // Cayd.Uuid.Exceptions.WrongDataLengthException
    | IndexOutOfRange                             // an index past the end of the caller's array
    | GuidNotSixteenBytes                         // the ArgumentException of `new Guid(byte[])`

  datatype Result<T> = Ok(value: T) | Err(error: Error)

  /** 'ffffffff-ffff-ffff-ffff-ffffffffffff'. */
  const Max: Guid := Guid(seq(16, _ => 0xFF))

  /** '00000000-0000-0000-0000-000000000000'. */
  const Empty: Guid := Guid(seq(16, _ => 0x00))

  /** `s` with the bytes at `i` and `j` exchanged and every other byte left alone. */
  function Swap(s: seq<byte>, i: nat, j: nat): (r: seq<byte>)
    requires i < |s| && j < |s|
    ensures |r| == |s| && r[i] == s[j] && r[j] == s[i]
    ensures forall k :: 0 <= k < |s| && k != i && k != j ==> r[k] == s[k]
  {
    s[i := s[j]][j := s[i]]
  }

  /**
   * The four swaps 0<->3, 1<->2, 4<->5 and 6<->7 that `GetBytesOfGuid` and
   * `GenerateGuidFromBytes` apply: the first eight bytes are reversed field by
   * field and everything from byte 8 on stays where it is.
   */
  function Reorder(s: seq<byte>): (r: seq<byte>)
    requires |s| >= 8
    ensures |r| == |s|
    ensures r[0] == s[3] && r[1] == s[2] && r[2] == s[1] && r[3] == s[0]
    ensures r[4] == s[5] && r[5] == s[4] && r[6] == s[7] && r[7] == s[6]
    ensures forall k :: 8 <= k < |s| ==> r[k] == s[k]
  {
    Swap(Swap(Swap(Swap(s, 0, 3), 1, 2), 4, 5), 6, 7)
  }

  /** The byte-order conversion is an involution: applying it twice gives back the buffer. */
  lemma ReorderInvolution(s: seq<byte>)
    requires |s| >= 8
    ensures Reorder(Reorder(s)) == s
  {
    var r := Reorder(Reorder(s));
    assert forall k :: 0 <= k < |s| ==> r[k] == s[k];
  }

  /** Reordering commutes with cutting a buffer down to its first 16 bytes. */
  lemma ReorderPrefix(s: seq<byte>)
    requires |s| >= 16
    ensures Reorder(s)[..16] == Reorder(s[..16])
  {
    var a, b := Reorder(s)[..16], Reorder(s[..16]);
    assert forall k :: 0 <= k < 16 ==> a[k] == b[k];
  }

  /**
   * What a buffer holds after `GenerateGuidFromBytes` has run its swaps: every
   * swap whose indices lie inside the buffer, up to the first one that does not
   * (that one throws before it writes).
   */
  function SwapsUntilFault(s: seq<byte>): (r: seq<byte>)
    ensures |r| == |s|
    ensures |s| >= 8 ==> r == Reorder(s)
    ensures |s| < 4 ==> r == s
  {
    if |s| < 4 then s
    else if |s| < 6 then Swap(Swap(s, 0, 3), 1, 2)
    else if |s| < 8 then Swap(Swap(Swap(s, 0, 3), 1, 2), 4, 5)
    else Reorder(s)
  }

  /** The RFC 9562 octets of `g`, as `GetBytesOfGuid` returns them. */
  function ToOctets(g: Guid): (o: Bytes16)
    ensures o[0] == g.memory[3] && o[1] == g.memory[2] && o[2] == g.memory[1] && o[3] == g.memory[0]
    ensures o[4] == g.memory[5] && o[5] == g.memory[4] && o[6] == g.memory[7] && o[7] == g.memory[6]
    ensures o[8..] == g.memory[8..]
  {
    Reorder(g.memory)
  }

  /** The Guid whose RFC 9562 octets are `o`. */
  function FromOctets(o: Bytes16): (g: Guid)
    ensures ToOctets(g) == o
  {
    ReorderInvolution(o);
    Guid(Reorder(o))
  }

  /** `GetBytesOfGuid` is one-to-one: distinct Guids have distinct RFC octets. */
  lemma ToOctetsInjective(g1: Guid, g2: Guid)
    ensures ToOctets(g1) == ToOctets(g2) <==> g1 == g2
  {
    if ToOctets(g1) == ToOctets(g2) {
      ReorderInvolution(g1.memory);
      ReorderInvolution(g2.memory);
    }
  }

  /**
   * What `GenerateGuidFromBytes` returns for a buffer holding `s`: a buffer of
   * 16 bytes or more gives the Guid whose RFC octets are its first 16 bytes; a
   * shorter one fails, with an index fault when a swap reaches past its end.
   */
  function FromBytes(s: seq<byte>): (r: Result<Guid>)
    ensures r.Ok? <==> |s| >= 16
    ensures r.Ok? ==> ToOctets(r.value) == s[..16]
    ensures r.Err? ==> r.error == if |s| < 8 then IndexOutOfRange else GuidNotSixteenBytes
  {
    if |s| < 8 then Err(IndexOutOfRange)
    else if |s| < 16 then Err(GuidNotSixteenBytes)
    else Ok(FromOctets(s[..16]))
  }

  /** Decoding the octets of a Guid gives the Guid back. */
  lemma OctetsRoundTrip(g: Guid)
    ensures FromBytes(ToOctets(g)) == Ok(g)
  {
    var o := ToOctets(g);
    assert o[..16] == o;
    ToOctetsInjective(FromOctets(o), g);
  }

  /** Bytes past the sixteenth never reach the Guid. */
  lemma TrailingBytesIgnored(s: seq<byte>, t: seq<byte>)
    requires |s| >= 16 && |t| >= 16
    ensures FromBytes(s) == FromBytes(t) <==> s[..16] == t[..16]
  {
    if FromBytes(s) == FromBytes(t) {
      assert ToOctets(FromBytes(s).value) == ToOctets(FromBytes(t).value);
    }
  }

  /** The sentinels: `GetBytesOfGuid(Max)` is sixteen 0xFF and `GetBytesOfGuid(Empty)` sixteen 0x00. */
  lemma SentinelOctets()
    ensures ToOctets(Max) == seq(16, _ => 0xFF)
    ensures ToOctets(Empty) == seq(16, _ => 0x00)
  {
    var m, e := ToOctets(Max), ToOctets(Empty);
    assert forall k :: 0 <= k < 16 ==> m[k] == 0xFF;
    assert forall k :: 0 <= k < 16 ==> e[k] == 0x00;
  }

  /** `SwapBytes`: exchange two cells of the array; an index past the end throws before anything is written. */
  method SwapBytes(bytes: array<byte>, leftIndex: nat, rightIndex: nat) returns (ok: bool)
    modifies bytes
    ensures ok <==> leftIndex < bytes.Length && rightIndex < bytes.Length
    ensures ok ==> bytes[..] == Swap(old(bytes[..]), leftIndex, rightIndex)
    ensures !ok ==> bytes[..] == old(bytes[..])
  {
    if leftIndex >= bytes.Length || rightIndex >= bytes.Length {
      return false;
    }
    var temp := bytes[leftIndex];
    bytes[leftIndex] := bytes[rightIndex];
    bytes[rightIndex] := temp;
    return true;
  }

  /** `Guid.ToByteArray`: a fresh array holding the Guid's in-memory bytes. */
  method ToByteArray(guid: Guid) returns (bytes: array<byte>)
    ensures fresh(bytes) && bytes[..] == guid.memory
  {
    bytes := new byte[16](i requires 0 <= i < 16 => guid.memory[i]);
  }

  /** `Buffer.BlockCopy(src, srcOffset, dst, dstOffset, count)` for ranges inside both buffers. */
  method BlockCopy(src: seq<byte>, srcOffset: nat, dst: array<byte>, dstOffset: nat, count: nat)
    requires srcOffset + count <= |src| && dstOffset + count <= dst.Length
    modifies dst
    ensures dst[..] == old(dst[..dstOffset]) + src[srcOffset..srcOffset + count] + old(dst[dstOffset + count..])
  {
    forall k | 0 <= k < count {
      dst[dstOffset + k] := src[srcOffset + k];
    }
  }

  /** `GetBytesOfGuid`: the RFC 9562 octets of a Guid, in a fresh array. */
  method GetBytesOfGuid(guid: Guid) returns (bytes: array<byte>)
    ensures fresh(bytes) && bytes[..] == ToOctets(guid)
  {
    bytes := ToByteArray(guid);
    var _ := SwapBytes(bytes, 0, 3);
    var _ := SwapBytes(bytes, 1, 2);
    var _ := SwapBytes(bytes, 4, 5);
    var _ := SwapBytes(bytes, 6, 7);
  }

  /**
   * `GenerateGuidFromBytes`: the Guid whose RFC octets are the first 16 bytes of
   * the buffer. The swaps happen in the caller's buffer, which afterwards holds
   * the Guid byte order; a buffer longer than 16 bytes is trimmed into a new one.
   */
  method GenerateGuidFromBytes(bytes: array<byte>) returns (r: Result<Guid>)
    modifies bytes
    ensures bytes[..] == SwapsUntilFault(old(bytes[..]))
    ensures r == FromBytes(old(bytes[..]))
  {
    ghost var original := bytes[..];
    var ok := SwapBytes(bytes, 0, 3);
    if !ok {
      return Err(IndexOutOfRange);
    }
    ok := SwapBytes(bytes, 1, 2);
    ok := SwapBytes(bytes, 4, 5);
    if !ok {
      return Err(IndexOutOfRange);
    }
    ok := SwapBytes(bytes, 6, 7);
    if !ok {
      return Err(IndexOutOfRange);
    }
    assert bytes[..] == Reorder(original);
    if bytes.Length > 16 {
      var trimmedBytes := new byte[16];
      BlockCopy(bytes[..], 0, trimmedBytes, 0, 16);
      ReorderPrefix(original);
      assert trimmedBytes[..] == Reorder(original[..16]);
      return Ok(Guid(trimmedBytes[..]));
    }
    if bytes.Length != 16 {
      return Err(GuidNotSixteenBytes);
    }
    assert original[..16] == original;
    return Ok(Guid(bytes[..]));
  }
}
