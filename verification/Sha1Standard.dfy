/** SHA-1 as in FIPS 180-4: the functions and constants of section 4, the padding of 5.1.1, the computation of 6.1.2. */
module Sha1Standard {
  type Byte = b: int | 0 <= b < 256
  type Bytes = seq<Byte>

  datatype Digest = Digest(a: bv32, b: bv32, c: bv32, d: bv32, e: bv32)

  const INITIAL := Digest(0x67452301, 0xEFCDAB89, 0x98BADCFE, 0x10325476, 0xC3D2E1F0)

  function Rotl(x: bv32, n: nat): bv32
    requires 0 < n < 32
  {
    (x << n) | (x >> (32 - n))
  }

  function Ch(x: bv32, y: bv32, z: bv32): bv32 { (x & y) ^ (!x & z) }

  function Parity(x: bv32, y: bv32, z: bv32): bv32 { x ^ y ^ z }

  function Maj(x: bv32, y: bv32, z: bv32): bv32 { (x & y) ^ (x & z) ^ (y & z) }

  function F(t: nat, x: bv32, y: bv32, z: bv32): bv32 {
    if t < 20 then Ch(x, y, z) else if 40 <= t < 60 then Maj(x, y, z) else Parity(x, y, z)
  }

  function K(t: nat): bv32 {
    if t < 20 then 0x5A827999 else if t < 40 then 0x6ED9EBA1 else if t < 60 then 0x8F1BBCDC else 0xCA62C1D6
  }

  /** Four bytes, the first one the most significant. */
  function Word(b0: Byte, b1: Byte, b2: Byte, b3: Byte): bv32 {
    (b0 as bv32 << 24) | (b1 as bv32 << 16) | (b2 as bv32 << 8) | b3 as bv32
  }

  function Xor(u: bv32, v: bv32, x: bv32, y: bv32): bv32 { u ^ v ^ x ^ y }

  /** The message schedule of a block. */
  function W(block: Bytes, t: nat): bv32
    requires |block| == 64
  {
    if t < 16 then Word(block[4 * t], block[4 * t + 1], block[4 * t + 2], block[4 * t + 3])
    else Rotl(Xor(W(block, t - 3), W(block, t - 8), W(block, t - 14), W(block, t - 16)), 1)
  }

  /** The sum of five words, modulo 2^32. */
  function Sum(u: bv32, v: bv32, x: bv32, y: bv32, z: bv32): bv32 { u + v + x + y + z }

  function T(h: Digest, t: nat, w: bv32): bv32 { Sum(Rotl(h.a, 5), F(t, h.b, h.c, h.d), h.e, K(t), w) }

  function Round(h: Digest, t: nat, w: bv32): Digest { Digest(T(h, t, w), h.a, Rotl(h.b, 30), h.c, h.d) }

  function Rounds(h: Digest, block: Bytes, t: nat): Digest
    requires |block| == 64
  {
    if t == 0 then h else Round(Rounds(h, block, t - 1), t - 1, W(block, t - 1))
  }

  /** Addition modulo 2^32. */
  function Add(x: bv32, y: bv32): bv32 { x + y }

  function Plus(h: Digest, g: Digest): Digest {
    Digest(Add(h.a, g.a), Add(h.b, g.b), Add(h.c, g.c), Add(h.d, g.d), Add(h.e, g.e))
  }

  function Compress(h: Digest, block: Bytes): Digest
    requires |block| == 64
  {
    Plus(h, Rounds(h, block, 80))
  }

  /** The hash value after a message of whole blocks. */
  function HashBlocks(m: Bytes): Digest
    requires |m| % 64 == 0
  {
    if m == [] then INITIAL else Compress(HashBlocks(m[..|m| - 64]), m[|m| - 64..])
  }

  function Zeros(n: nat): Bytes { if n == 0 then [] else Zeros(n - 1) + [0] }

  /** n as k bytes, the first one the most significant. */
  function BigEndian(n: nat, k: nat): Bytes {
    if k == 0 then [] else BigEndian(n / 256, k - 1) + [n % 256]
  }

  /** The number of zero bytes between the one bit and the length. */
  function ZeroBytes(n: nat): nat { (55 - n) % 64 }

  /** What is appended to a message of n bytes: a one bit, zeros, and the length in bits as a 64-bit number. */
  function Padding(n: nat): Bytes { [0x80] + Zeros(ZeroBytes(n)) + BigEndian(8 * n, 8) }

  lemma {:induction false} ZerosLength(n: nat)
    ensures |Zeros(n)| == n && forall k :: 0 <= k < n ==> Zeros(n)[k] == 0
  {
    if n > 0 { ZerosLength(n - 1); }
  }

  lemma {:induction false} BigEndianLength(n: nat, k: nat)
    ensures |BigEndian(n, k)| == k
  {
    if k > 0 { BigEndianLength(n / 256, k - 1); }
  }

  lemma ZeroBytesFromRemainder(n: nat)
    ensures ZeroBytes(n) == if n % 64 <= 55 then 55 - n % 64 else 119 - n % 64
  {
    assert n == 64 * (n / 64) + n % 64;
  }

  lemma PaddingEndsABlock(n: nat)
    ensures |Padding(n)| == 9 + ZeroBytes(n) && (n + |Padding(n)|) % 64 == 0
  {
    ZerosLength(ZeroBytes(n));
    BigEndianLength(8 * n, 8);
    EndOfBlock(n);
    hide ZeroBytes, BigEndian, Zeros;
  }

  lemma EndOfBlock(n: nat)
    ensures (n + 9 + ZeroBytes(n)) % 64 == 0
  {
    ZeroBytesFromRemainder(n);
    hide ZeroBytes;
    assert n == 64 * (n / 64) + n % 64;
    assert n + 9 + ZeroBytes(n) == 64 * (n / 64 + if n % 64 <= 55 then 1 else 2);
  }

  /** The padding has the least number of zeros with which the length ends a block. */
  lemma PaddingIsLeast(n: nat, z: nat)
    requires (n + 1 + z + 8) % 64 == 0
    ensures ZeroBytes(n) <= z
  {
    ZeroBytesFromRemainder(n);
    assert n == 64 * (n / 64) + n % 64;
    var blocks := (n + 1 + z + 8) / 64;
    assert n % 64 + z + 9 == 64 * (blocks - n / 64);
  }

  function Sha1(m: Bytes): Digest {
    PaddingEndsABlock(|m|);
    assert |m + Padding(|m|)| == |m| + |Padding(|m|)|;
    HashBlocks(m + Padding(|m|))
  }
}
