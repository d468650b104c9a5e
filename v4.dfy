/**
 * UUIDv4 (Uuid.V4.cs, section 5.4 of RFC 9562): sixteen random bytes stamped
 * with version 4 and the RFC variant. The random bytes are a parameter.
 */
module UuidV4 {
  import opened Numbers
  import opened UuidCodec
  import opened VersionField

  /** The Guid made from the random buffer `random`. */
  function FromRandom(random: Bytes16): (g: Guid)
    ensures HasVersion(ToOctets(g), 4) && HasRfcVariant(ToOctets(g))
    ensures SamePayload(ToOctets(g), random)
    ensures g.memory == Reorder(Stamped(random, 4))
  {
    ReorderInvolution(Stamped(random, 4));
    FromOctets(Stamped(random, 4))
  }

  /** Two random buffers give the same Guid exactly when they differ in the stamped bits only. */
  lemma RandomCollisions(r1: Bytes16, r2: Bytes16)
    ensures FromRandom(r1) == FromRandom(r2) <==> SamePayload(r1, r2)
  {
    StampEqualIff(r1, r2, 4);
    if FromRandom(r1) == FromRandom(r2) {
      assert ToOctets(FromRandom(r1)) == ToOctets(FromRandom(r2));
    }
  }

  /** Every Guid that carries version 4 and the RFC variant is produced by some random buffer: itself. */
  lemma EveryV4Reachable(g: Guid)
    requires HasVersion(ToOctets(g), 4) && HasRfcVariant(ToOctets(g))
    ensures FromRandom(ToOctets(g)) == g
  {
    StampFixedPoint(ToOctets(g), 4);
    ToOctetsInjective(FromRandom(ToOctets(g)), g);
  }

  /** `Generate()`, with the random fill passed in. */
  method Generate(random: Bytes16) returns (g: Guid)
    ensures g == FromRandom(random)
  {
    var bytes := new byte[16](i requires 0 <= i < 16 => random[i]);
    assert bytes[..] == random;
    Stamp(bytes, 4);
    ghost var stamped := bytes[..];
    assert stamped[..16] == stamped;
    var r := GenerateGuidFromBytes(bytes);
    g := r.value;
  }
}
