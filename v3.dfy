/**
 * UUIDv3 (Uuid.V3.cs, section 5.3 of RFC 9562): the MD5 digest of namespace
 * octets followed by name octets, stamped with version 3 and the RFC variant.
 */
module UuidV3 {
  import opened Numbers
  import opened UuidCodec
  import opened VersionField
  import opened NameBased

  /**
   * The RFC octets of the four predefined namespaces of section 6.6 of RFC 9562,
   * 6ba7b8XX-9dad-11d1-80b4-00c04fd430c8: they differ only in octet 3, the last
   * of time_low.
   */
  function NamespaceOctets(timeLowLast: byte): (o: Bytes16)
    ensures o[3] == timeLowLast
  {
    [0x6b, 0xa7, 0xb8, timeLowLast, 0x9d, 0xad, 0x11, 0xd1, 0x80, 0xb4, 0x00, 0xc0, 0x4f, 0xd4, 0x30, 0xc8]
  }

  /** 6ba7b810-9dad-11d1-80b4-00c04fd430c8, the namespace of DNS names. */
  const DnsNamespaceId: Guid := FromOctets(NamespaceOctets(0x10))
  /** 6ba7b811-9dad-11d1-80b4-00c04fd430c8, the namespace of URLs. */
  const UrlNamespaceId: Guid := FromOctets(NamespaceOctets(0x11))
  /** 6ba7b812-9dad-11d1-80b4-00c04fd430c8, the namespace of ISO OIDs. */
  const OidNamespaceId: Guid := FromOctets(NamespaceOctets(0x12))
  /** 6ba7b814-9dad-11d1-80b4-00c04fd430c8, the namespace of X.500 distinguished names. */
  const X500NamespaceId: Guid := FromOctets(NamespaceOctets(0x14))

  /** In the Guid's own byte order, octet 3 of such a namespace is its first byte. */
  lemma NamespaceMemory(a: byte)
    ensures FromOctets(NamespaceOctets(a)).memory
      == [a, 0xb8, 0xa7, 0x6b, 0xad, 0x9d, 0xd1, 0x11, 0x80, 0xb4, 0x00, 0xc0, 0x4f, 0xd4, 0x30, 0xc8]
  {
    var o := NamespaceOctets(a);
    var m := FromOctets(o).memory;
    var lit: seq<byte> := [a, 0xb8, 0xa7, 0x6b, 0xad, 0x9d, 0xd1, 0x11, 0x80, 0xb4, 0x00, 0xc0, 0x4f, 0xd4, 0x30, 0xc8];
    assert m == Reorder(o);
    assert m[..8] == lit[..8];
    assert m[8..] == o[8..] == lit[8..];
    assert m == m[..8] + m[8..];
  }

  /**
   * Two namespaces of this family are equal exactly when their octet 3 is, and
   * the other fifteen bytes of the Guid agree.
   */
  lemma NamespaceFamily(a: byte, b: byte)
    ensures FromOctets(NamespaceOctets(a)) == FromOctets(NamespaceOctets(b)) <==> a == b
    ensures FromOctets(NamespaceOctets(a)).memory[1..] == FromOctets(NamespaceOctets(b)).memory[1..]
  {
    NamespaceMemory(a);
    NamespaceMemory(b);
  }

  /** The four predefined namespaces are pairwise distinct. */
  lemma NamespacesDistinct()
    ensures DnsNamespaceId != UrlNamespaceId && DnsNamespaceId != OidNamespaceId && DnsNamespaceId != X500NamespaceId
    ensures UrlNamespaceId != OidNamespaceId && UrlNamespaceId != X500NamespaceId && OidNamespaceId != X500NamespaceId
  {
    NamespaceFamily(0x10, 0x11);
    NamespaceFamily(0x10, 0x12);
    NamespaceFamily(0x10, 0x14);
    NamespaceFamily(0x11, 0x12);
    NamespaceFamily(0x11, 0x14);
    NamespaceFamily(0x12, 0x14);
  }

  /** The Guid made from a 16-byte MD5 digest: its RFC octets are the digest, stamped with version 3. */
  function FromDigest(digest: seq<byte>): (g: Guid)
    requires |digest| == 16
    ensures HasVersion(ToOctets(g), 3) && HasRfcVariant(ToOctets(g))
    ensures SamePayload(ToOctets(g), digest)
  {
    FromOctets(Stamped(digest, 3))
  }

  /**
   * `Generate(namespaceId, name)`, with the name already UTF-8 encoded and MD5
   * as a parameter. The result is a function of (namespace, name), so equal
   * pairs give equal Guids.
   */
  method Generate(namespaceId: Guid, name: seq<byte>, md5: Digest) returns (g: Guid)
    requires forall data :: |md5(data)| == 16
    ensures g == FromDigest(md5(HashInput(namespaceId, name)))
    ensures ToOctets(g) == Stamped(md5(HashInput(namespaceId, name)), 3)
  {
    var data := ConcatNamespaceAndName(namespaceId, name);
    var digest := md5(data[..]);
    var bytes := new byte[16](i requires 0 <= i < 16 => digest[i]);
    assert bytes[..] == digest;
    Stamp(bytes, 3);
    ghost var stamped := bytes[..];
    assert stamped[..16] == stamped;
    var r := GenerateGuidFromBytes(bytes);
    g := r.value;
  }
}
