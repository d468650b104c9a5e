/**
 * UUIDv7 (Uuid.V7.cs, section 5.7 of RFC 9562): the Unix time in milliseconds
 * as a 48-bit big-endian prefix over a random buffer, stamped with version 7
 * and the RFC variant. The clock reading and the random bytes are parameters;
 * both public `Generate` overloads reduce to `GenerateGuid`.
 */
module UuidV7 {
  import opened Numbers
  import opened UuidCodec
  import opened VersionField

  /** The six `unix_ts_ms` octets: `(byte)((t >> 40) & 0xFF)` down to `(byte)(t & 0xFF)`. */
  function TimestampBytes(t: long): (s: seq<byte>)
    ensures |s| == 6
  {
    [LowByte(Shr(t as int, 40)), LowByte(Shr(t as int, 32)), LowByte(Shr(t as int, 24)),
     LowByte(Shr(t as int, 16)), LowByte(Shr(t as int, 8)), LowByte(t as int)]
  }

  /** The six shifted-and-masked octets are the 48-bit big-endian encoding of the timestamp. */
  lemma TimestampBytesBigEndian(t: long)
    ensures TimestampBytes(t) == BigEndian(t as int, 6)
  {
    var s, e := TimestampBytes(t), BigEndian(t as int, 6);
    BigEndianAt(t as int, 6, 0);
    BigEndianAt(t as int, 6, 1);
    BigEndianAt(t as int, 6, 2);
    BigEndianAt(t as int, 6, 3);
    BigEndianAt(t as int, 6, 4);
    BigEndianAt(t as int, 6, 5);
    assert forall k :: 0 <= k < 6 ==> s[k] == e[k];
  }

  /** The RFC octets of the v7 Guid for time `t` and random fill `random`. */
  function V7Octets(t: long, random: Bytes16): (o: Bytes16)
    ensures o[..6] == BigEndian(t as int, 6)
    ensures HasVersion(o, 7) && HasRfcVariant(o)
    ensures SamePayload(o, BigEndian(t as int, 6) + random[6..])
  {
    TimestampBytesBigEndian(t);
    Stamped(TimestampBytes(t) + random[6..], 7)
  }

  /** The v7 Guid for millisecond time `t` and random fill `random`. */
  function FromTimestamp(t: long, random: Bytes16): (g: Guid)
    ensures ToOctets(g) == V7Octets(t, random)
  {
    FromOctets(V7Octets(t, random))
  }

  /** The first six octets decode to the timestamp modulo 2^48: its low 48 bits, for a negative one too. */
  lemma TimestampRecoverable(t: long, random: Bytes16)
    ensures BigEndianValue(ToOctets(FromTimestamp(t, random))[..6]) == t as int % 0x1_0000_0000_0000
  {
    BigEndianRoundTrip(t as int, 6);
    assert Pow256(6) == 0x1_0000_0000_0000;
  }

  /** The random bits outside the prefix and the stamped bits survive. */
  lemma RandomKept(t: long, random: Bytes16)
    ensures var o := ToOctets(FromTimestamp(t, random));
      o[6] & 0x0F == random[6] & 0x0F && o[7] == random[7] && o[8] & 0x3F == random[8] & 0x3F && o[9..] == random[9..]
  {
    var o := ToOctets(FromTimestamp(t, random));
    var p := BigEndian(t as int, 6) + random[6..];
    assert p[6] == random[6] && p[7] == random[7] && p[8] == random[8];
    assert forall k :: 9 <= k < 16 ==> o[k] == p[k] == random[k];
  }

  lemma LexLessPrefix(a: seq<byte>, b: seq<byte>, n: nat)
    requires n <= |a| == |b| && LexLess(a[..n], b[..n])
    ensures LexLess(a, b)
  {
    var i :| 0 <= i < n && a[..n][..i] == b[..n][..i] && a[..n][i] < b[..n][i];
    assert a[..i] == a[..n][..i] && b[..i] == b[..n][..i];
  }

  /**
   * v7 Guids sort by time: for timestamps in the 48-bit range, an earlier time
   * gives lexicographically smaller RFC octets, whatever the random bytes.
   */
  lemma TimeOrdered(t1: long, t2: long, r1: Bytes16, r2: Bytes16)
    requires 0 <= t1 < t2 < 0x1_0000_0000_0000
    ensures LexLess(ToOctets(FromTimestamp(t1, r1))[..6], ToOctets(FromTimestamp(t2, r2))[..6])
    ensures LexLess(ToOctets(FromTimestamp(t1, r1)), ToOctets(FromTimestamp(t2, r2)))
  {
    assert Pow256(6) == 0x1_0000_0000_0000;
    BigEndianOrdered(t1 as int, t2 as int, 6);
    LexLessPrefix(ToOctets(FromTimestamp(t1, r1)), ToOctets(FromTimestamp(t2, r2)), 6);
  }

  /** The `unix_ts_ms` assignments of `GenerateGuid`: octets 0 to 5 of the buffer. */
  method WriteTimestamp(bytes: array<byte>, timestamp: long)
    requires bytes.Length == 16
    modifies bytes
    ensures bytes[..6] == TimestampBytes(timestamp) && bytes[6..] == old(bytes[6..])
  {
    var x := timestamp as int;
    bytes[0] := LowByte(Shr(x, 40));
    bytes[1] := LowByte(Shr(x, 32));
    bytes[2] := LowByte(Shr(x, 24));
    bytes[3] := LowByte(Shr(x, 16));
    bytes[4] := LowByte(Shr(x, 8));
    bytes[5] := LowByte(x);
  }

  /** `GenerateGuid(offset)`, given `offset.ToUnixTimeMilliseconds()` and the random fill. */
  method GenerateGuid(unixTimeMilliseconds: long, random: Bytes16) returns (g: Guid)
    ensures g == FromTimestamp(unixTimeMilliseconds, random)
  {
    var bytes := new byte[16](i requires 0 <= i < 16 => random[i]);
    assert bytes[6..] == random[6..];
    // 'unix_ts_ms' bits
    WriteTimestamp(bytes, unixTimeMilliseconds);
    assert bytes[..] == bytes[..6] + bytes[6..];
    Stamp(bytes, 7);
    ghost var stamped := bytes[..];
    assert stamped[..16] == stamped;
    var r := GenerateGuidFromBytes(bytes);
    g := r.value;
  }
}
