/**
 * The version and variant stamping every generator of Cayd.Uuid repeats
 * (sections 4.1 and 4.2 of RFC 9562), on a buffer in RFC octet order: the
 * high nibble of octet 6 becomes the version and keeps the low nibble, and
 * the top two bits of octet 8 become `10`, keeping the low six bits. The
 * generators write this rule out inline; here it is one method and one
 * function, and the generators call it.
 */
module VersionField {
  import opened Numbers

  /** Byte 6 after stamping version `version`. */
  function VersionByte(b: byte, version: byte): byte
    requires version < 16
  {
    (version << 4) | (b & 0x0F)
  }

  /** Byte 8 after stamping the RFC 9562 variant. */
  function VariantByte(b: byte): byte
  {
    0x80 | (b & 0x3F)
  }

  /** The high nibble of octet 6, the version field, is `version`. */
  predicate HasVersion(o: seq<byte>, version: byte)
    requires |o| >= 9
  {
    o[6] >> 4 == version
  }

  /** The top two bits of octet 8, the variant field, are `10`. */
  predicate HasRfcVariant(o: seq<byte>)
    requires |o| >= 9
  {
    o[8] >> 6 == 2
  }

  /**
   * `s` and `t` carry the same payload: they agree on every bit except the
   * version nibble (high half of octet 6) and the variant bits (top two of octet 8).
   */
  predicate SamePayload(s: seq<byte>, t: seq<byte>)
  {
    && |s| == |t| >= 9
    && s[6] & 0x0F == t[6] & 0x0F
    && s[8] & 0x3F == t[8] & 0x3F
    && forall k :: 0 <= k < |s| && k != 6 && k != 8 ==> s[k] == t[k]
  }

  /** The buffer `s` after stamping: it carries the version and the variant and keeps the rest of the payload. */
  function Stamped(s: seq<byte>, version: byte): (r: seq<byte>)
    requires |s| >= 9 && version < 16
    ensures |r| == |s|
    ensures HasVersion(r, version) && HasRfcVariant(r)
    ensures SamePayload(r, s)
  {
    s[6 := VersionByte(s[6], version)][8 := VariantByte(s[8])]
  }

  /** Stamping an already stamped buffer changes nothing. */
  lemma StampIdempotent(s: seq<byte>, version: byte)
    requires |s| >= 9 && version < 16
    ensures Stamped(Stamped(s, version), version) == Stamped(s, version)
  {
    var once := Stamped(s, version);
    assert forall k :: 0 <= k < |s| ==> Stamped(once, version)[k] == once[k];
  }

  /** A buffer is left alone by stamping exactly when it already carries the version and the variant. */
  lemma StampFixedPoint(s: seq<byte>, version: byte)
    requires |s| >= 9 && version < 16
    ensures Stamped(s, version) == s <==> HasVersion(s, version) && HasRfcVariant(s)
  {
    if HasVersion(s, version) && HasRfcVariant(s) {
      var r := Stamped(s, version);
      assert r[6] == s[6] && r[8] == s[8];
      assert forall k :: 0 <= k < |s| ==> r[k] == s[k];
    }
  }

  /** The version byte keeps exactly the low nibble. */
  lemma VersionByteEqual(x: byte, y: byte, version: byte)
    requires version < 16
    ensures VersionByte(x, version) == VersionByte(y, version) <==> x & 0x0F == y & 0x0F
  {
  }

  /** The variant byte keeps exactly the low six bits. */
  lemma VariantByteEqual(x: byte, y: byte)
    ensures VariantByte(x) == VariantByte(y) <==> x & 0x3F == y & 0x3F
  {
  }

  /**
   * Stamping forgets exactly the six stamped bits: two buffers stamp to the same
   * result if and only if they agree on all the other bits.
   */
  lemma StampEqualIff(s: seq<byte>, t: seq<byte>, version: byte)
    requires |s| >= 9 && |s| == |t| && version < 16
    ensures Stamped(s, version) == Stamped(t, version) <==> SamePayload(s, t)
  {
    if SamePayload(s, t) {
      SamePayloadStampsEqual(s, t, version);
    }
    if Stamped(s, version) == Stamped(t, version) {
      StampsEqualSamePayload(s, t, version);
    }
  }

  lemma SamePayloadStampsEqual(s: seq<byte>, t: seq<byte>, version: byte)
    requires |s| >= 9 && |s| == |t| && version < 16 && SamePayload(s, t)
    ensures Stamped(s, version) == Stamped(t, version)
  {
    var a, b := Stamped(s, version), Stamped(t, version);
    VersionByteEqual(s[6], t[6], version);
    VariantByteEqual(s[8], t[8]);
    assert forall k :: 0 <= k < |s| ==> a[k] == b[k];
  }

  lemma StampsEqualSamePayload(s: seq<byte>, t: seq<byte>, version: byte)
    requires |s| >= 9 && |s| == |t| && version < 16 && Stamped(s, version) == Stamped(t, version)
    ensures SamePayload(s, t)
  {
    var a := Stamped(s, version);
    VersionByteEqual(s[6], t[6], version);
    VariantByteEqual(s[8], t[8]);
    assert a[6] == VersionByte(s[6], version) == VersionByte(t[6], version);
    assert a[8] == VariantByte(s[8]) == VariantByte(t[8]);
  }

  /** Stamping touches only octets 6 and 8, so it commutes with cutting the buffer to its first 16 bytes. */
  lemma StampPrefix(s: seq<byte>, version: byte)
    requires |s| >= 16 && version < 16
    ensures Stamped(s, version)[..16] == Stamped(s[..16], version)
  {
    var a, b := Stamped(s, version)[..16], Stamped(s[..16], version);
    assert forall k :: 0 <= k < 16 ==> a[k] == b[k];
  }

  /** The stamping code of the generators, applied in place to the buffer. */
  method Stamp(bytes: array<byte>, version: byte)
    requires bytes.Length >= 9 && version < 16
    modifies bytes
    ensures bytes[..] == Stamped(old(bytes[..]), version)
  {
    // 'ver' bits
    bytes[6] := (version << 4) | (bytes[6] & 0x0F);
    // 'var' bits
    bytes[8] := 0x80 | (bytes[8] & 0x3F);
  }
}
