/**
 * UUIDv5 (Uuid.V5.cs, section 5.5 of RFC 9562): the SHA-1 digest of namespace
 * octets followed by name octets, stamped with version 5 and the RFC variant.
 * The digest has 20 bytes; the codec keeps the first 16.
 */
module UuidV5 {
  import opened Numbers
  import opened UuidCodec
  import opened VersionField
  import opened NameBased
  import UuidV3

  /** 6ba7b810-9dad-11d1-80b4-00c04fd430c8, the namespace of DNS names. */
  const DnsNamespaceId: Guid := FromOctets([0x6b, 0xa7, 0xb8, 0x10, 0x9d, 0xad, 0x11, 0xd1, 0x80, 0xb4, 0x00, 0xc0, 0x4f, 0xd4, 0x30, 0xc8])
  /** 6ba7b811-9dad-11d1-80b4-00c04fd430c8, the namespace of URLs. */
  const UrlNamespaceId: Guid := FromOctets([0x6b, 0xa7, 0xb8, 0x11, 0x9d, 0xad, 0x11, 0xd1, 0x80, 0xb4, 0x00, 0xc0, 0x4f, 0xd4, 0x30, 0xc8])
  /** 6ba7b812-9dad-11d1-80b4-00c04fd430c8, the namespace of ISO OIDs. */
  const OidNamespaceId: Guid := FromOctets([0x6b, 0xa7, 0xb8, 0x12, 0x9d, 0xad, 0x11, 0xd1, 0x80, 0xb4, 0x00, 0xc0, 0x4f, 0xd4, 0x30, 0xc8])
  /** 6ba7b814-9dad-11d1-80b4-00c04fd430c8, the namespace of X.500 distinguished names. */
  const X500NamespaceId: Guid := FromOctets([0x6b, 0xa7, 0xb8, 0x14, 0x9d, 0xad, 0x11, 0xd1, 0x80, 0xb4, 0x00, 0xc0, 0x4f, 0xd4, 0x30, 0xc8])

  /** The namespaces of UUIDv5 are the very Guids of UUIDv3. */
  lemma SameNamespacesAsV3()
    ensures DnsNamespaceId == UuidV3.DnsNamespaceId && UrlNamespaceId == UuidV3.UrlNamespaceId
    ensures OidNamespaceId == UuidV3.OidNamespaceId && X500NamespaceId == UuidV3.X500NamespaceId
  {
  }

  /** The Guid made from a 20-byte SHA-1 digest: its RFC octets are the first 16 digest bytes, stamped with version 5. */
  function FromDigest(digest: seq<byte>): (g: Guid)
    requires |digest| == 20
    ensures HasVersion(ToOctets(g), 5) && HasRfcVariant(ToOctets(g))
    ensures SamePayload(ToOctets(g), digest[..16])
  {
    StampPrefix(digest, 5);
    FromOctets(Stamped(digest, 5)[..16])
  }

  /**
   * Two digests give the same Guid exactly when their first 16 bytes agree
   * outside the stamped bits: digest bytes 16 to 19 never reach the result.
   */
  lemma DigestTailIgnored(d1: seq<byte>, d2: seq<byte>)
    requires |d1| == 20 && |d2| == 20
    ensures FromDigest(d1) == FromDigest(d2) <==> SamePayload(d1[..16], d2[..16])
  {
    StampPrefix(d1, 5);
    StampPrefix(d2, 5);
    StampEqualIff(d1[..16], d2[..16], 5);
    if FromDigest(d1) == FromDigest(d2) {
      assert ToOctets(FromDigest(d1)) == ToOctets(FromDigest(d2));
    }
  }

  /**
   * `Generate(namespaceId, name)`, with the name already UTF-8 encoded and SHA-1
   * as a parameter. The result is a function of (namespace, name).
   */
  method Generate(namespaceId: Guid, name: seq<byte>, sha1: Digest) returns (g: Guid)
    requires forall data :: |sha1(data)| == 20
    ensures g == FromDigest(sha1(HashInput(namespaceId, name)))
  {
    var data := ConcatNamespaceAndName(namespaceId, name);
    var digest := sha1(data[..]);
    var bytes := new byte[20](i requires 0 <= i < 20 => digest[i]);
    assert bytes[..] == digest;
    Stamp(bytes, 5);
    var r := GenerateGuidFromBytes(bytes);
    g := r.value;
  }
}
