/**
 * UUIDv8 (Uuid.V8.cs, section 5.8 of RFC 9562): a caller-supplied payload
 * stamped with version 8 and the RFC variant, either as one 16-byte buffer or
 * assembled from three segments A (6 bytes), B (2) and C (8).
 */
module UuidV8 {
  import opened Numbers
  import opened UuidCodec
  import opened VersionField

  /** The Guid for a single payload, or the length error `Generate(customData)` throws. */
  function FromPayload(customData: seq<byte>): (r: Result<Guid>)
    ensures r.Err? <==> |customData| != 16
    ensures r.Err? ==> r.error == WrongDataLength("customData", 16)
    ensures r.Ok? ==> HasVersion(ToOctets(r.value), 8) && HasRfcVariant(ToOctets(r.value))
    ensures r.Ok? ==> SamePayload(ToOctets(r.value), customData)
  {
    if |customData| != 16 then Err(WrongDataLength("customData", 16))
    else Ok(FromOctets(Stamped(customData, 8)))
  }

  /** Feeding a v8 Guid's own octets back in gives the same Guid: stamping twice is stamping once. */
  lemma RegenerateIsIdentity(customData: seq<byte>)
    requires |customData| == 16
    ensures FromPayload(ToOctets(FromPayload(customData).value)) == FromPayload(customData)
  {
    StampIdempotent(customData, 8);
  }

  /** Two payloads give the same Guid exactly when they differ in the stamped bits only. */
  lemma PayloadCollisions(p1: seq<byte>, p2: seq<byte>)
    requires |p1| == 16 && |p2| == 16
    ensures FromPayload(p1) == FromPayload(p2) <==> SamePayload(p1, p2)
  {
    StampEqualIff(p1, p2, 8);
    if FromPayload(p1) == FromPayload(p2) {
      assert ToOctets(FromPayload(p1).value) == ToOctets(FromPayload(p2).value);
    }
  }

  /**
   * `Generate(customData)`. A buffer of the wrong length is rejected before it
   * is touched; otherwise it is stamped and then swapped into Guid order in place.
   */
  method Generate(customData: array<byte>) returns (r: Result<Guid>)
    modifies customData
    ensures r == FromPayload(old(customData[..]))
    ensures customData.Length != 16 ==> customData[..] == old(customData[..])
    ensures customData.Length == 16 ==> customData[..] == Reorder(Stamped(old(customData[..]), 8))
  {
    if customData.Length != 16 {
      return Err(WrongDataLength("customData", 16));
    }
    Stamp(customData, 8);
    ghost var stamped := customData[..];
    assert stamped[..16] == stamped;
    r := GenerateGuidFromBytes(customData);
  }

  /** `dst` with `src` written over it from `offset` on: what `Buffer.BlockCopy(src, 0, dst, offset, |src|)` leaves. */
  function CopyInto(dst: seq<byte>, src: seq<byte>, offset: nat): (r: seq<byte>)
    requires offset + |src| <= |dst|
    ensures |r| == |dst| && r[offset..offset + |src|] == src
    ensures forall k :: 0 <= k < |dst| && !(offset <= k < offset + |src|) ==> r[k] == dst[k]
  {
    dst[..offset] + src + dst[offset + |src|..]
  }

  const Zeros: Bytes16 := [0, 0, 0, 0, 0, 0, 0, 0, 0, 0, 0, 0, 0, 0, 0, 0]

  /**
   * The buffer the segmented `Generate` builds, as written: A at offset 0, B at
   * offset |A| = 6, and C at offset |B| + |B| = 4, so C overwrites the last two
   * bytes of A and all of B.
   */
  function Assembled(a: seq<byte>, b: seq<byte>, c: seq<byte>): (s: Bytes16)
    requires |a| == 6 && |b| == 2 && |c| == 8
    ensures s[..4] == a[..4] && s[4..12] == c && s[12..] == [0, 0, 0, 0]
  {
    var withA := CopyInto(Zeros, a, 0);
    var withB := CopyInto(withA, b, |a|);
    var s := CopyInto(withB, c, |b| + |b|);
    assert s[..4] == withB[..4] == withA[..4] == a[..4];
    assert s[12..] == withB[12..] == withA[12..] == Zeros[12..];
    s
  }

  /** As written, segment B never reaches the Guid, and neither do bytes 4 and 5 of A. */
  lemma SegmentBLost(a: seq<byte>, b1: seq<byte>, b2: seq<byte>, c: seq<byte>)
    requires |a| == 6 && |b1| == 2 && |b2| == 2 && |c| == 8
    ensures Assembled(a, b1, c) == Assembled(a, b2, c)
    ensures Assembled(a, b1, c) == Assembled(a[4 := 0][5 := 0], b1, c)
  {
    var s1, s2, s3 := Assembled(a, b1, c), Assembled(a, b2, c), Assembled(a[4 := 0][5 := 0], b1, c);
    assert forall k :: 0 <= k < 4 ==> s1[k] == a[k] && s2[k] == a[k] && s3[k] == a[k];
    assert forall k :: 4 <= k < 12 ==> s1[k] == c[k - 4] && s2[k] == c[k - 4] && s3[k] == c[k - 4];
    assert forall k :: 12 <= k < 16 ==> s1[k] == 0 && s2[k] == 0 && s3[k] == 0;
  }

  /** The documented layout: A in bytes 0 to 5, B in 6 and 7, C in 8 to 15, the offsets |A| and |A| + |B|. */
  function IntendedAssembly(a: seq<byte>, b: seq<byte>, c: seq<byte>): (s: Bytes16)
    requires |a| == 6 && |b| == 2 && |c| == 8
    ensures s == a + b + c
  {
    var withA := CopyInto(Zeros, a, 0);
    var withB := CopyInto(withA, b, |a|);
    var s := CopyInto(withB, c, |a| + |b|);
    assert s[..6] == withB[..6] == withA[..6] == a;
    assert s[6..8] == withB[6..8] == b;
    assert s == a + b + c;
    s
  }

  /**
   * With the documented layout every segment bit the format leaves free reaches
   * the Guid: all 48 bits of A, the low 12 bits of B (12 after the version) and
   * the low 62 bits of C (62 after the variant).
   */
  lemma IntendedSegmentsKept(a: seq<byte>, b: seq<byte>, c: seq<byte>)
    requires |a| == 6 && |b| == 2 && |c| == 8
    ensures var o := ToOctets(FromPayload(IntendedAssembly(a, b, c)).value);
      && o[..6] == a
      && o[6] & 0x0F == b[0] & 0x0F && o[7] == b[1]
      && o[8] & 0x3F == c[0] & 0x3F && o[9..] == c[1..]
  {
    var o := ToOctets(FromPayload(IntendedAssembly(a, b, c)).value);
    var s := a + b + c;
    assert SamePayload(o, s);
    assert forall k :: 0 <= k < 6 ==> o[k] == s[k] == a[k];
    assert s[6] == b[0] && s[7] == b[1] && s[8] == c[0];
    assert forall k :: 9 <= k < 16 ==> o[k] == s[k] == c[k - 8];
  }

  /**
   * The segmented `Generate(customA, customB, customC)`, as written: the lengths
   * are checked in the order A, B, C, and the error for a bad B names `customA`.
   */
  function FromSegments(a: seq<byte>, b: seq<byte>, c: seq<byte>): (r: Result<Guid>)
    ensures |a| != 6 ==> r == Err(WrongDataLength("customA", 6))
    ensures |a| == 6 && |b| != 2 ==> r == Err(WrongDataLength("customA", 2))
    ensures |a| == 6 && |b| == 2 && |c| != 8 ==> r == Err(WrongDataLength("customC", 8))
    ensures r.Ok? <==> |a| == 6 && |b| == 2 && |c| == 8
    ensures r.Ok? ==> HasVersion(ToOctets(r.value), 8) && HasRfcVariant(ToOctets(r.value))
    ensures r.Ok? ==> SamePayload(ToOctets(r.value), Assembled(a, b, c))
  {
    if |a| != 6 then Err(WrongDataLength("customA", 6))
    else if |b| != 2 then Err(WrongDataLength("customA", 2))
    else if |c| != 8 then Err(WrongDataLength("customC", 8))
    else FromPayload(Assembled(a, b, c))
  }

  /** A wrong-length B is reported under A's name: with A valid, both bad lengths give errors naming `customA`. */
  lemma SegmentBErrorNamesA()
    ensures FromSegments([0, 0, 0, 0, 0, 0], [], [0, 0, 0, 0, 0, 0, 0, 0]) == Err(WrongDataLength("customA", 2))
    ensures FromSegments([], [0, 0], [0, 0, 0, 0, 0, 0, 0, 0]).error.name == FromSegments([0, 0, 0, 0, 0, 0], [], [0, 0, 0, 0, 0, 0, 0, 0]).error.name
  {
  }

  /** The segmented form as documented: each error names its own segment and the layout is A, B, C. */
  function IntendedFromSegments(a: seq<byte>, b: seq<byte>, c: seq<byte>): (r: Result<Guid>)
    ensures |a| != 6 ==> r == Err(WrongDataLength("customA", 6))
    ensures |a| == 6 && |b| != 2 ==> r == Err(WrongDataLength("customB", 2))
    ensures |a| == 6 && |b| == 2 && |c| != 8 ==> r == Err(WrongDataLength("customC", 8))
    ensures r.Ok? <==> |a| == 6 && |b| == 2 && |c| == 8
    ensures r.Ok? ==> SamePayload(ToOctets(r.value), a + b + c)
  {
    if |a| != 6 then Err(WrongDataLength("customA", 6))
    else if |b| != 2 then Err(WrongDataLength("customB", 2))
    else if |c| != 8 then Err(WrongDataLength("customC", 8))
    else FromPayload(IntendedAssembly(a, b, c))
  }

  /**
   * `Generate(customA, customB, customC)`: the length checks, then a fresh
   * zeroed 16-byte buffer filled by three `Buffer.BlockCopy` calls, then the
   * single-payload `Generate`. The caller's arrays are not modified.
   */
  method GenerateFromSegments(customA: array<byte>, customB: array<byte>, customC: array<byte>) returns (r: Result<Guid>)
    ensures r == FromSegments(customA[..], customB[..], customC[..])
  {
    if customA.Length != 6 {
      return Err(WrongDataLength("customA", 6));
    }
    if customB.Length != 2 {
      return Err(WrongDataLength("customA", 2));
    }
    if customC.Length != 8 {
      return Err(WrongDataLength("customC", 8));
    }
    var bytes := new byte[16](_ => 0);
    assert bytes[..] == Zeros;
    BlockCopy(customA[..], 0, bytes, 0, customA.Length);
    ghost var withA := CopyInto(Zeros, customA[..], 0);
    assert bytes[..] == withA;
    BlockCopy(customB[..], 0, bytes, customA.Length, customB.Length);
    ghost var withB := CopyInto(withA, customB[..], 6);
    assert bytes[..] == withB;
    BlockCopy(customC[..], 0, bytes, customB.Length + customB.Length, customC.Length);
    assert bytes[..] == CopyInto(withB, customC[..], 4);
    assert bytes[..] == Assembled(customA[..], customB[..], customC[..]);
    r := Generate(bytes);
  }
}
