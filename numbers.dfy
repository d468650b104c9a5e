/**
 * The fixed-width integers of .NET that the UUID generators work with, and the
 * shift-and-mask idiom `(byte)((x >> n) & 0xFF)` they use to cut a `long` into
 * octets, stated on unbounded integers.
 */
module Numbers {

  /** A .NET `byte`. Bit-vectors give `&`, `|`, `<<` and `>>` the meaning C# gives them. */
  type byte = bv8

  /** A .NET `ushort` (the type of the v1 clock sequence). */
  type ushort = bv16

  /** A .NET `long`: a 64-bit two's-complement integer. */
  newtype long = x: int | -0x8000_0000_0000_0000 <= x < 0x8000_0000_0000_0000

  /** 256 to the power k. */
  function Pow256(k: nat): (p: nat)
    ensures p > 0
  {
    if k == 0 then 1 else 256 * Pow256(k - 1)
  }

  /**
   * `x >> n` on a two's-complement integer, for the whole-byte shift amounts the
   * source uses: an arithmetic shift is division rounding toward minus infinity,
   * which is what Dafny's `/` does for a positive divisor.
   */
  function Shr(x: int, n: nat): int
    requires n % 8 == 0
  {
    x / Pow256(n / 8)
  }

  /** `(byte)(x & 0xFF)`: the low eight bits of a two's-complement integer. */
  function LowByte(x: int): byte
  {
    (x % 256) as byte
  }

  /** `(byte)(x & 0x0F)`: the low four bits of a two's-complement integer. */
  function LowNibble(x: int): byte
  {
    (x % 16) as byte
  }

  /** The low `n` octets of `x`, most significant first. */
  function BigEndian(x: int, n: nat): (s: seq<byte>)
    ensures |s| == n
    decreases n
  {
    if n == 0 then [] else BigEndian(x / 256, n - 1) + [LowByte(x)]
  }

  /** The number an octet string denotes, most significant octet first. */
  function BigEndianValue(s: seq<byte>): (v: nat)
  {
    if s == [] then 0 else BigEndianValue(s[..|s| - 1]) * 256 + s[|s| - 1] as int
  }

  /** Lexicographic order on octet strings of equal length: the first octet that differs is smaller in `a`. */
  ghost predicate LexLess(a: seq<byte>, b: seq<byte>)
  {
    |a| == |b| && exists i :: 0 <= i < |a| && a[..i] == b[..i] && a[i] < b[i]
  }

  /** A number below 256 survives the trip to a byte and back. */
  lemma ByteRoundTrip(r: int)
    requires 0 <= r < 256
    ensures (r as byte) as int == r
  {
    if r < 128 {
      if r < 64 { } else { }
    } else {
      if r < 192 { } else { }
    }
  }

  lemma LowByteValue(x: int)
    ensures LowByte(x) as int == x % 256
  {
    ByteRoundTrip(x % 256);
  }

  lemma LowNibbleValue(x: int)
    ensures LowNibble(x) as int == x % 16
  {
    ByteRoundTrip(x % 16);
  }

  lemma MulAtLeast(a: int, n: int)
    requires a >= 1 && n > 0
    ensures a * n >= n
  {
  }

  /** Quotient and remainder are unique. */
  lemma DivModUnique(t: int, n: int, q: int, r: int)
    requires n > 0 && t == q * n + r && 0 <= r < n
    ensures t / n == q && t % n == r
  {
    var q0, r0 := t / n, t % n;
    assert (q - q0) * n == r0 - r;
    if q - q0 >= 1 {
      MulAtLeast(q - q0, n);
    } else if q0 - q >= 1 {
      MulAtLeast(q0 - q, n);
    }
  }

  lemma Regroup(q2: int, m: int, r2: int, d: int, r: int)
    ensures (q2 * m + r2) * d + r == q2 * (d * m) + (r2 * d + r)
  {
  }

  lemma MulBelow(r2: int, m: int, d: int)
    requires 0 <= r2 < m && d > 0
    ensures r2 * d + d <= d * m
  {
    assert (m - r2) * d >= d by {
      MulAtLeast(m - r2, d);
    }
  }

  /** Dividing by d and then by m is dividing by d * m; the remainders combine likewise. */
  lemma DivModNested(t: int, d: int, m: int)
    requires d > 0 && m > 0
    ensures t / d / m == t / (d * m)
    ensures t % (d * m) == ((t / d) % m) * d + t % d
  {
    var q, r := t / d, t % d;
    var q2, r2 := q / m, q % m;
    Regroup(q2, m, r2, d, r);
    MulBelow(r2, m, d);
    assert d * m > 0 by {
      MulAtLeast(m, d);
    }
    DivModUnique(t, d * m, q2, r2 * d + r);
  }

  /** Octet k of `BigEndian(x, n)` is `(x >> 8 * (n - 1 - k)) & 0xFF`. */
  lemma {:induction false} BigEndianAt(x: int, n: nat, k: nat)
    requires k < n
    ensures BigEndian(x, n)[k] == LowByte(x / Pow256(n - 1 - k))
    decreases n
  {
    if k < n - 1 {
      BigEndianAt(x / 256, n - 1, k);
      DivModNested(x, 256, Pow256(n - 2 - k));
    }
  }

  /** `BigEndian` and `BigEndianValue` are inverse up to the width: the octets keep x modulo 256^n. */
  lemma {:induction false} BigEndianRoundTrip(x: int, n: nat)
    ensures BigEndianValue(BigEndian(x, n)) == x % Pow256(n)
    decreases n
  {
    if n > 0 {
      var s, p := BigEndian(x, n), Pow256(n - 1);
      assert s[..n - 1] == BigEndian(x / 256, n - 1);
      BigEndianRoundTrip(x / 256, n - 1);
      var high := BigEndianValue(s[..n - 1]);
      assert high == (x / 256) % p;
      assert s[n - 1] == LowByte(x);
      LowByteValue(x);
      assert BigEndianValue(s) == high * 256 + x % 256;
      DivModNested(x, 256, p);
      assert Pow256(n) == 256 * p;
    }
  }

  lemma LexLessExtend(a: seq<byte>, b: seq<byte>, c: byte, d: byte)
    requires LexLess(a, b)
    ensures LexLess(a + [c], b + [d])
  {
    var i :| 0 <= i < |a| && a[..i] == b[..i] && a[i] < b[i];
    assert (a + [c])[..i] == a[..i] && (b + [d])[..i] == b[..i];
  }

  lemma LowByteLess(x: int, y: int)
    requires x % 256 < y % 256
    ensures LowByte(x) < LowByte(y)
  {
    LowByteValue(x);
    LowByteValue(y);
    ByteLessFromInt(LowByte(x), LowByte(y));
  }

  lemma ByteLessFromInt(a: byte, b: byte)
    requires a as int < b as int
    ensures a < b
  {
  }

  lemma LexLessLast(a: seq<byte>, c: byte, d: byte)
    requires c < d
    ensures LexLess(a + [c], a + [d])
  {
    assert (a + [c])[..|a|] == a == (a + [d])[..|a|];
  }

  /** For values that fit in n octets, the big-endian encoding is strictly monotone in lexicographic order. */
  lemma {:induction false} BigEndianOrdered(x: int, y: int, n: nat)
    requires 0 <= x < y < Pow256(n)
    ensures LexLess(BigEndian(x, n), BigEndian(y, n))
    decreases n
  {
    DivModNested(y, 256, Pow256(n - 1));
    if x / 256 < y / 256 {
      BigEndianOrdered(x / 256, y / 256, n - 1);
      LexLessExtend(BigEndian(x / 256, n - 1), BigEndian(y / 256, n - 1), LowByte(x), LowByte(y));
    } else {
      assert x / 256 == y / 256 && x % 256 < y % 256;
      LowByteLess(x, y);
      LexLessLast(BigEndian(x / 256, n - 1), LowByte(x), LowByte(y));
    }
  }
}
