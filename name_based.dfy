/**
 * The hash input shared by the name-based generators (Uuid.V3.cs and
 * Uuid.V5.cs, sections 5.3 and 5.5 of RFC 9562): the namespace identifier's
 * RFC octets followed by the octets of the name. Both files build it with the
 * same two `Buffer.BlockCopy` calls; it is defined once here.
 */
module NameBased {
  import opened Numbers
  import opened UuidCodec

  /**
   * A message digest (MD5 or SHA-1), taken as a parameter: a total function
   * from byte strings to byte strings. Each generator requires the digest
   * length its algorithm has.
   */
  type Digest = seq<byte> -> seq<byte>

  /** The bytes hashed for `namespaceId` and the UTF-8 bytes `name` of a name: namespace first, then name. */
  function HashInput(namespaceId: Guid, name: seq<byte>): (data: seq<byte>)
    ensures |data| == 16 + |name|
    ensures data[..16] == ToOctets(namespaceId) && data[16..] == name
  {
    ToOctets(namespaceId) + name
  }

  /**
   * The hash input determines both the namespace and the name: equal inputs
   * come from equal pairs only, so two namespaces never feed the digest the
   * same bytes for one name.
   */
  lemma HashInputInjective(ns1: Guid, name1: seq<byte>, ns2: Guid, name2: seq<byte>)
    ensures HashInput(ns1, name1) == HashInput(ns2, name2) <==> ns1 == ns2 && name1 == name2
  {
    if HashInput(ns1, name1) == HashInput(ns2, name2) {
      ToOctetsInjective(ns1, ns2);
    }
  }

  /** Different namespaces with the same name give different hash inputs. */
  lemma DistinctNamespacesDistinctInputs(ns1: Guid, ns2: Guid, name: seq<byte>)
    requires ns1 != ns2
    ensures HashInput(ns1, name) != HashInput(ns2, name)
  {
    HashInputInjective(ns1, name, ns2, name);
  }

  /** The concatenation code of both generators, in a fresh array. */
  method ConcatNamespaceAndName(namespaceId: Guid, nameBytes: seq<byte>) returns (data: array<byte>)
    ensures fresh(data) && data[..] == HashInput(namespaceId, nameBytes)
  {
    var namespaceBytes := GetBytesOfGuid(namespaceId);
    data := new byte[namespaceBytes.Length + |nameBytes|];
    BlockCopy(namespaceBytes[..], 0, data, 0, namespaceBytes.Length);
    BlockCopy(nameBytes, 0, data, namespaceBytes.Length, |nameBytes|);
  }
}
