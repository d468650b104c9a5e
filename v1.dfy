/**
 * UUIDv1 (Uuid.V1.cs, section 5.1 of RFC 9562): a 60-bit timestamp, a clock
 * sequence and a node id, kept in three static fields that `GenerateGuid` and
 * `RefreshNodeId` update. The static fields become the fields of a
 * `ClockState` object; the clock reading, the random bytes and the list of
 * hardware addresses are parameters.
 */
module UuidV1 {
  import opened Numbers
  import opened UuidCodec
  import opened VersionField

  /**
   * `GenerateClockSequence` as written: `((b0 << 8) & 0x3F) | b1`. The mask is
   * applied after the shift, so the bits of b0 are always cleared and the clock
   * sequence is just b1.
   */
  function GenerateClockSequence(random: seq<byte>): (cs: ushort)
    requires |random| == 2
    ensures cs == random[1] as ushort
    ensures cs as int <= 0xFF
  {
    (((random[0] as ushort) << 8) & 0x3F) | random[1] as ushort
  }

  /**
   * The first random byte never influences the clock sequence as written: the
   * bytes 0x3F, 0x00 give clock sequence 0, where the 14-bit rule gives 0x3F00.
   */
  lemma ClockSequenceIgnoresFirstByte()
    ensures GenerateClockSequence([0x3F, 0x00]) == GenerateClockSequence([0x00, 0x00]) == 0
    ensures IntendedClockSequence([0x3F, 0x00]) == 0x3F00
  {
  }

  /**
   * The clock sequence the RFC describes: 14 bits, the low six bits of b0 above
   * the eight bits of b1 (from `(b0 & 0x3F) << 8 | b1`).
   */
  function IntendedClockSequence(random: seq<byte>): (cs: ushort)
    requires |random| == 2
    ensures cs as int < 0x4000
    ensures (cs >> 8) as byte == random[0] & 0x3F && (cs & 0xFF) as byte == random[1]
  {
    (((random[0] & 0x3F) as ushort) << 8) | random[1] as ushort
  }

  /** Every 14-bit value is the intended clock sequence of some pair of random bytes. */
  lemma IntendedClockSequenceCoversFourteenBits(v: ushort)
    requires v as int < 0x4000
    ensures IntendedClockSequence([(v >> 8) as byte, (v & 0xFF) as byte]) == v
  {
  }

  /** The node id `GetNodeId` picks: the first address of six bytes, or else the random bytes. */
  function ChosenNodeId(macAddresses: seq<seq<byte>>, randomBytes: seq<byte>): (node: seq<byte>)
    requires |randomBytes| == 6
    ensures |node| == 6
    ensures node == randomBytes || node in macAddresses
  {
    if macAddresses == [] then randomBytes
    else if |macAddresses[0]| == 6 then macAddresses[0]
    else ChosenNodeId(macAddresses[1..], randomBytes)
  }

  /** Whether address i is the first one of six bytes. */
  ghost predicate FirstSixByteAddress(macAddresses: seq<seq<byte>>, i: int)
  {
    0 <= i < |macAddresses| && |macAddresses[i]| == 6 && forall j :: 0 <= j < i ==> |macAddresses[j]| != 6
  }

  /**
   * The choice, stated outright: with no address of six bytes the node id is
   * the random fallback, and otherwise it is the first address of six bytes.
   */
  lemma {:induction false} ChosenNodeIdIsFirstAddress(macAddresses: seq<seq<byte>>, randomBytes: seq<byte>)
    requires |randomBytes| == 6
    ensures (forall i :: 0 <= i < |macAddresses| ==> |macAddresses[i]| != 6) ==> ChosenNodeId(macAddresses, randomBytes) == randomBytes
    ensures forall i :: FirstSixByteAddress(macAddresses, i) ==> ChosenNodeId(macAddresses, randomBytes) == macAddresses[i]
    decreases |macAddresses|
  {
    if macAddresses != [] && |macAddresses[0]| != 6 {
      var rest := macAddresses[1..];
      ChosenNodeIdIsFirstAddress(rest, randomBytes);
      forall i | FirstSixByteAddress(macAddresses, i)
        ensures ChosenNodeId(macAddresses, randomBytes) == macAddresses[i]
      {
        assert i > 0;
        assert FirstSixByteAddress(rest, i - 1) by {
          forall j | 0 <= j < i - 1 ensures |rest[j]| != 6 {
            assert rest[j] == macAddresses[j + 1];
          }
        }
      }
      if forall i :: 0 <= i < |macAddresses| ==> |macAddresses[i]| != 6 {
        assert forall i :: 0 <= i < |rest| ==> |rest[i]| != 6 by {
          forall i | 0 <= i < |rest| ensures |rest[i]| != 6 {
            assert rest[i] == macAddresses[i + 1];
          }
        }
      }
    }
  }

  /** `GetNodeId`, over the addresses of the interfaces that are up and the random fallback bytes. */
  method GetNodeId(macAddresses: seq<seq<byte>>, randomBytes: seq<byte>) returns (nodeId: seq<byte>)
    requires |randomBytes| == 6
    ensures nodeId == ChosenNodeId(macAddresses, randomBytes)
  {
    var i := 0;
    while i < |macAddresses|
      invariant 0 <= i <= |macAddresses|
      invariant ChosenNodeId(macAddresses[i..], randomBytes) == ChosenNodeId(macAddresses, randomBytes)
    {
      var bytes := macAddresses[i];
      if |bytes| == 6 {
        return bytes;
      }
      assert macAddresses[i..][1..] == macAddresses[i + 1..];
      i := i + 1;
    }
    return randomBytes;
  }

  /**
   * Octets 0 to 7 that `GenerateGuid` writes for timestamp `t`: time_low,
   * time_mid, and version 1 over time_high.
   */
  function TimeOctets(t: long): (h: seq<byte>)
    ensures |h| == 8 && h[6] >> 4 == 1
  {
    VersionNibble(LowNibble(Shr(t as int, 56)));
    [LowByte(Shr(t as int, 24)), LowByte(Shr(t as int, 16)), LowByte(Shr(t as int, 8)), LowByte(t as int),
     LowByte(Shr(t as int, 40)), LowByte(Shr(t as int, 32)), 0x10 | LowNibble(Shr(t as int, 56)), LowByte(Shr(t as int, 48))]
  }

  lemma VersionNibble(n: byte)
    requires n < 16
    ensures (0x10 | n) >> 4 == 1
  {
  }

  /** Octets 8 and 9: the variant over the high bits of the clock sequence, then its low byte. */
  function ClockSequenceOctets(cs: ushort): (h: seq<byte>)
    ensures |h| == 2 && h[0] >> 6 == 2 && h[1] == (cs & 0xFF) as byte
    ensures h[0] & 0x3F == ((cs >> 8) & 0x3F) as byte
    ensures cs as int <= 0xFF ==> h[0] == 0x80
  {
    [0x80 | ((cs >> 8) & 0x3F) as byte, (cs & 0xFF) as byte]
  }

  /**
   * Under the 14-bit rule, octets 8 and 9 would carry both random bytes: the
   * low six bits of b0 below the variant, then b1.
   */
  lemma IntendedClockSequenceOctets(random: seq<byte>)
    requires |random| == 2
    ensures ClockSequenceOctets(IntendedClockSequence(random)) == [0x80 | (random[0] & 0x3F), random[1]]
  {
    var cs := IntendedClockSequence(random);
    assert ((cs >> 8) & 0x3F) as byte == random[0] & 0x3F;
  }

  /** The RFC octets of the v1 Guid for timestamp `t`, clock sequence `cs` and node `node`. */
  function V1Octets(t: long, cs: ushort, node: seq<byte>): (o: Bytes16)
    requires |node| == 6
    ensures HasVersion(o, 1) && HasRfcVariant(o)
    ensures o[8] & 0x3F == ((cs >> 8) & 0x3F) as byte && o[9] == (cs & 0xFF) as byte && o[10..] == node
    ensures cs as int <= 0xFF ==> o[8] == 0x80
  {
    TimeOctets(t) + ClockSequenceOctets(cs) + node
  }

  /** The 60-bit timestamp the RFC octets carry: time_high (12 bits), time_mid, time_low. */
  function TimeField(o: Bytes16): (v: int)
  {
    ((o[6] & 0x0F) as int) * 0x100_0000_0000_0000 + (o[7] as int) * 0x1_0000_0000_0000
    + (o[4] as int) * 0x100_0000_0000 + (o[5] as int) * 0x1_0000_0000
    + (o[0] as int) * 0x100_0000 + (o[1] as int) * 0x1_0000 + (o[2] as int) * 0x100 + (o[3] as int)
  }

  lemma LowBits60(t: int)
    ensures t % 0x1000_0000_0000_0000
         == ((t / 0x100_0000_0000_0000) % 16) * 0x100_0000_0000_0000
          + ((t / 0x1_0000_0000_0000) % 256) * 0x1_0000_0000_0000
          + ((t / 0x100_0000_0000) % 256) * 0x100_0000_0000
          + ((t / 0x1_0000_0000) % 256) * 0x1_0000_0000
          + ((t / 0x100_0000) % 256) * 0x100_0000
          + ((t / 0x1_0000) % 256) * 0x1_0000
          + ((t / 0x100) % 256) * 0x100
          + t % 256
  {
    DivModNested(t, 1, 256);
    DivModNested(t, 0x100, 256);
    DivModNested(t, 0x1_0000, 256);
    DivModNested(t, 0x100_0000, 256);
    DivModNested(t, 0x1_0000_0000, 256);
    DivModNested(t, 0x100_0000_0000, 256);
    DivModNested(t, 0x1_0000_0000_0000, 256);
    DivModNested(t, 0x100_0000_0000_0000, 16);
  }

  lemma CombineFields(t: int, nib: int, b7: int, b4: int, b5: int, b0: int, b1: int, b2: int, b3: int)
    requires nib == (t / 0x100_0000_0000_0000) % 16
    requires b7 == (t / 0x1_0000_0000_0000) % 256 && b4 == (t / 0x100_0000_0000) % 256
    requires b5 == (t / 0x1_0000_0000) % 256 && b0 == (t / 0x100_0000) % 256
    requires b1 == (t / 0x1_0000) % 256 && b2 == (t / 0x100) % 256 && b3 == t % 256
    ensures nib * 0x100_0000_0000_0000 + b7 * 0x1_0000_0000_0000 + b4 * 0x100_0000_0000
      + b5 * 0x1_0000_0000 + b0 * 0x100_0000 + b1 * 0x1_0000 + b2 * 0x100 + b3 == t % 0x1000_0000_0000_0000
  {
    LowBits60(t);
  }

  lemma ShiftsAreLiteral()
    ensures Pow256(1) == 0x100 && Pow256(2) == 0x1_0000 && Pow256(3) == 0x100_0000
    ensures Pow256(4) == 0x1_0000_0000 && Pow256(5) == 0x100_0000_0000
    ensures Pow256(6) == 0x1_0000_0000_0000 && Pow256(7) == 0x100_0000_0000_0000
  {
  }

  /**
   * The octets keep the low 60 bits of the timestamp: time_low holds bits 0 to
   * 31, time_mid bits 32 to 47 and the low nibble of octet 6 with octet 7 bits
   * 48 to 59, so reading the fields back gives the timestamp modulo 2^60.
   */
  lemma TimestampRecoverable(t: long, cs: ushort, node: seq<byte>)
    requires |node| == 6
    ensures TimeField(V1Octets(t, cs, node)) == t as int % 0x1000_0000_0000_0000
  {
    var o, x := V1Octets(t, cs, node), t as int;
    ShiftsAreLiteral();
    var nib := (x / 0x100_0000_0000_0000) % 16;
    assert (o[6] & 0x0F) as int == nib by {
      var n8 := LowNibble(Shr(x, 56));
      LowNibbleValue(Shr(x, 56));
      assert n8 as int == nib;
      assert (0x10 | n8) & 0x0F == n8;
    }
    LowByteValue(x / 0x100_0000);
    LowByteValue(x / 0x1_0000);
    LowByteValue(x / 0x100);
    LowByteValue(x);
    LowByteValue(x / 0x100_0000_0000);
    LowByteValue(x / 0x1_0000_0000);
    LowByteValue(x / 0x1_0000_0000_0000);
    CombineFields(x, nib, o[7] as int, o[4] as int, o[5] as int, o[0] as int, o[1] as int, o[2] as int, o[3] as int);
  }

  /**
   * The octets determine the timestamp modulo 2^60, the node and the low byte
   * of the clock sequence: two v1 Guids that agree are from the same tick of the
   * same node with the same sequence byte.
   */
  lemma V1OctetsDetermineFields(t1: long, cs1: ushort, n1: seq<byte>, t2: long, cs2: ushort, n2: seq<byte>)
    requires |n1| == 6 && |n2| == 6
    requires V1Octets(t1, cs1, n1) == V1Octets(t2, cs2, n2)
    ensures t1 as int % 0x1000_0000_0000_0000 == t2 as int % 0x1000_0000_0000_0000
    ensures n1 == n2 && cs1 & 0xFF == cs2 & 0xFF
  {
    TimestampRecoverable(t1, cs1, n1);
    TimestampRecoverable(t2, cs2, n2);
    var a, b := cs1 & 0xFF, cs2 & 0xFF;
    assert a as byte == b as byte;
    assert a < 0x100 && b < 0x100;
  }

  /** The byte assignments of `GenerateGuid`: fields in RFC octet order into a fresh buffer. */
  method WriteFields(timestamp: long, clockSequence: ushort, nodeId: seq<byte>) returns (bytes: array<byte>)
    requires |nodeId| == 6
    ensures fresh(bytes) && bytes[..] == V1Octets(timestamp, clockSequence, nodeId)
  {
    bytes := new byte[16](_ => 0);
    WriteTime(bytes, timestamp);
    WriteClockSequence(bytes, clockSequence);
    ghost var header := bytes[..10];
    assert header == TimeOctets(timestamp) + ClockSequenceOctets(clockSequence);
    // 'node' bytes
    for i := 0 to 6
      invariant bytes[..10] == header
      invariant forall k :: 0 <= k < i ==> bytes[10 + k] == nodeId[k]
    {
      bytes[i + 10] := nodeId[i];
    }
    assert bytes[..] == header + nodeId;
  }

  /** The 'time_low' bytes 0 to 3 of `GenerateGuid`. */
  method WriteTimeLow(bytes: array<byte>, x: int)
    requires bytes.Length == 16
    modifies bytes
    ensures bytes[..4] == [LowByte(Shr(x, 24)), LowByte(Shr(x, 16)), LowByte(Shr(x, 8)), LowByte(x)]
    ensures bytes[4..] == old(bytes[4..])
  {
    bytes[0] := LowByte(Shr(x, 24));
    bytes[1] := LowByte(Shr(x, 16));
    bytes[2] := LowByte(Shr(x, 8));
    bytes[3] := LowByte(x);
  }

  /** The 'time_mid' bytes 4 and 5 and the 'ver' and 'time_high' bytes 6 and 7 of `GenerateGuid`. */
  method WriteTimeMidAndHigh(bytes: array<byte>, x: int)
    requires bytes.Length == 16
    modifies bytes
    ensures bytes[..4] == old(bytes[..4]) && bytes[8..] == old(bytes[8..])
    ensures bytes[4..8] == [LowByte(Shr(x, 40)), LowByte(Shr(x, 32)), 0x10 | LowNibble(Shr(x, 56)), LowByte(Shr(x, 48))]
  {
    bytes[4] := LowByte(Shr(x, 40));
    bytes[5] := LowByte(Shr(x, 32));
    bytes[6] := 0x10;
    bytes[6] := bytes[6] | LowNibble(Shr(x, 56));
    bytes[7] := LowByte(Shr(x, 48));
  }

  /** The timestamp bytes 0 to 7 of `GenerateGuid`. */
  method WriteTime(bytes: array<byte>, timestamp: long)
    requires bytes.Length == 16
    modifies bytes
    ensures bytes[..8] == TimeOctets(timestamp) && bytes[8..] == old(bytes[8..])
  {
    var x := timestamp as int;
    WriteTimeLow(bytes, x);
    WriteTimeMidAndHigh(bytes, x);
    assert bytes[..8] == bytes[..4] + bytes[4..8];
  }

  /** The clock-sequence bytes 8 and 9 of `GenerateGuid`. */
  method WriteClockSequence(bytes: array<byte>, clockSequence: ushort)
    requires bytes.Length == 16
    modifies bytes
    ensures bytes[..8] == old(bytes[..8]) && bytes[8..10] == ClockSequenceOctets(clockSequence)
    ensures bytes[10..] == old(bytes[10..])
  {
    // 'var' bytes, then 'clock_seq' bytes
    bytes[8] := 0x80;
    assert bytes[8] == 0x80;
    bytes[8] := bytes[8] | ((clockSequence >> 8) & 0x3F) as byte;
    bytes[9] := (clockSequence & 0xFF) as byte;
  }

  /** The three static fields of `Uuid.V1`. */
  class ClockState {
    var lastTimestamp: long
    var clockSequence: ushort
    var nodeId: seq<byte>

    /** The node id has six bytes, and the clock sequence, as written, fits in one. */
    predicate Valid()
      reads this
    {
      |nodeId| == 6 && clockSequence as int <= 0xFF
    }

    /** The static initialisers: a clock sequence, then a node id; `_lastTimestamp` starts at 0. */
    constructor(clockRandom: seq<byte>, macAddresses: seq<seq<byte>>, nodeRandom: seq<byte>)
      requires |clockRandom| == 2 && |nodeRandom| == 6
      ensures Valid()
      ensures lastTimestamp == 0
      ensures clockSequence == GenerateClockSequence(clockRandom)
      ensures nodeId == ChosenNodeId(macAddresses, nodeRandom)
    {
      lastTimestamp := 0;
      clockSequence := GenerateClockSequence(clockRandom);
      nodeId := ChosenNodeId(macAddresses, nodeRandom);
    }

    /**
     * `RefreshNodeId`: look the node id up again; only when it changed are the
     * node id and the clock sequence replaced.
     */
    method RefreshNodeId(macAddresses: seq<seq<byte>>, nodeRandom: seq<byte>, clockRandom: seq<byte>)
      requires Valid() && |nodeRandom| == 6 && |clockRandom| == 2
      modifies this
      ensures Valid()
      ensures lastTimestamp == old(lastTimestamp)
      ensures ChosenNodeId(macAddresses, nodeRandom) == old(nodeId) ==>
        nodeId == old(nodeId) && clockSequence == old(clockSequence)
      ensures ChosenNodeId(macAddresses, nodeRandom) != old(nodeId) ==>
        nodeId == ChosenNodeId(macAddresses, nodeRandom) && clockSequence == GenerateClockSequence(clockRandom)
    {
      var currentNodeId := GetNodeId(macAddresses, nodeRandom);
      var isNodeIdSame := currentNodeId == nodeId;
      if !isNodeIdSame {
        nodeId := currentNodeId;
        clockSequence := GenerateClockSequence(clockRandom);
      }
    }

    /**
     * `GenerateGuid`, given the timestamp `(DateTime.UtcNow - GregorianReformDate).Ticks * 10`
     * and the random bytes a new clock sequence would be drawn from. A clock that
     * went backwards draws a new clock sequence; the timestamp is recorded in
     * either case.
     */
    method GenerateGuid(timestamp: long, clockRandom: seq<byte>) returns (guid: Guid)
      requires Valid() && |clockRandom| == 2
      modifies this
      ensures Valid()
      ensures timestamp < old(lastTimestamp) ==> clockSequence == GenerateClockSequence(clockRandom)
      ensures timestamp >= old(lastTimestamp) ==> clockSequence == old(clockSequence)
      ensures lastTimestamp == timestamp && nodeId == old(nodeId)
      ensures ToOctets(guid) == V1Octets(timestamp, clockSequence, nodeId)
      ensures ToOctets(guid)[8] == 0x80
    {
      if timestamp < lastTimestamp {
        clockSequence := GenerateClockSequence(clockRandom);
      }
      lastTimestamp := timestamp;
      var bytes := WriteFields(timestamp, clockSequence, nodeId);
      ghost var filled := bytes[..];
      assert filled[..16] == filled;
      var r := GenerateGuidFromBytes(bytes);
      guid := r.value;
    }
  }
}
