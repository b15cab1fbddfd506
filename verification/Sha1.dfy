/** The hash object: bytes go into a 64-byte block that is compressed whenever it is full. */
module Sha1 {
  import opened Sha1Standard

  const TWO_TO_THE_64 := 0x1_0000_0000_0000_0000

  function LeftRotate(value: bv32, count: nat): bv32
    requires 0 < count < 32
  {
    (value << count) ^ (value >> (32 - count))
  }

  lemma RotateOne(x: bv32)
    ensures LeftRotate(x, 1) == Rotl(x, 1)
  {
  }

  lemma RotateFive(x: bv32)
    ensures LeftRotate(x, 5) == Rotl(x, 5)
  {
  }

  lemma RotateThirty(x: bv32)
    ensures LeftRotate(x, 30) == Rotl(x, 30)
  {
  }

  function Choice(b: bv32, c: bv32, d: bv32): bv32 { (b & c) | (!b & d) }

  lemma ChoiceIsCh(b: bv32, c: bv32, d: bv32)
    ensures Choice(b, c, d) == Ch(b, c, d)
  {
    ChoiceBits(b, c, d);
  }

  lemma ChoiceBits(b: bv32, c: bv32, d: bv32)
    ensures (b & c) | (!b & d) == (b & c) ^ (!b & d)
  {
  }

  function Majority(b: bv32, c: bv32, d: bv32): bv32 { (b & c) | (b & d) | (c & d) }

  lemma MajorityIsMaj(b: bv32, c: bv32, d: bv32)
    ensures Majority(b, c, d) == Maj(b, c, d)
  {
    MajorityBits(b, c, d);
  }

  lemma MajorityBits(b: bv32, c: bv32, d: bv32)
    ensures (b & c) | (b & d) | (c & d) == (b & c) ^ (b & d) ^ (c & d)
  {
  }

  /** What the object appends to n bytes: the length is written as four zero bytes and the low 32 bits. */
  function CodePadding(n: nat): Bytes {
    [0x80] + Zeros(ZeroBytes(n)) + Zeros(4) + BigEndian(8 * n, 4)
  }

  lemma CodePaddingEndsABlock(n: nat)
    ensures (n + |CodePadding(n)|) % 64 == 0
  {
    PaddingEndsABlock(n);
    ZerosLength(ZeroBytes(n));
    ZerosLength(4);
    BigEndianLength(8 * n, 4);
    BigEndianLength(8 * n, 8);
    assert |CodePadding(n)| == |Padding(n)|;
  }

  function Hash(m: Bytes): Digest {
    CodePaddingEndsABlock(|m|);
    assert |m + CodePadding(|m|)| == |m| + |CodePadding(|m|)|;
    HashBlocks(m + CodePadding(|m|))
  }

  class Hasher {
    const digest: array<bv32>
    const block: array<Byte>
    var blockByteIndex: nat
    var byteCount: nat
    // For the proofs: every byte since the last reset.
    ghost var fed: Bytes

    ghost predicate Valid()
      reads this, digest, block
    {
      && digest.Length == 5 && block.Length == 64
      && blockByteIndex == |fed| % 64
      && byteCount == |fed| % TWO_TO_THE_64
      && block[..blockByteIndex] == fed[|fed| - blockByteIndex..]
      && Value() == HashBlocks(fed[..|fed| - blockByteIndex])
    }

    ghost function Value(): Digest
      requires digest.Length == 5
      reads digest
    {
      Digest(digest[0], digest[1], digest[2], digest[3], digest[4])
    }

    constructor ()
      ensures Valid() && fed == [] && fresh(digest) && fresh(block)
    {
      digest := new bv32[5];
      block := new Byte[64];
      blockByteIndex, byteCount, fed := 0, 0, [];
      new;
      Reset();
    }

    method Reset()
      requires digest.Length == 5 && block.Length == 64
      modifies this, digest
      ensures Valid() && fed == []
    {
      digest[0] := 0x67452301;
      digest[1] := 0xEFCDAB89;
      digest[2] := 0x98BADCFE;
      digest[3] := 0x10325476;
      digest[4] := 0xC3D2E1F0;
      blockByteIndex := 0;
      byteCount := 0;
      fed := [];
    }

    method ProcessByte(octet: Byte)
      requires Valid()
      modifies this, digest, block
      ensures Valid() && fed == old(fed) + [octet]
      ensures blockByteIndex == if old(blockByteIndex) == 63 then 0 else old(blockByteIndex) + 1
    {
      hide HashBlocks, Compress;
      ghost var was, filled := block[..], blockByteIndex;
      block[blockByteIndex] := octet;
      blockByteIndex := blockByteIndex + 1;
      byteCount := (byteCount + 1) % TWO_TO_THE_64;
      OneMore(was, fed, filled, octet);
      assert block[..] == was[filled := octet];
      assert block[..blockByteIndex] == block[..][..blockByteIndex];
      fed := fed + [octet];
      if blockByteIndex == 64 {
        BlockIsFull();
      }
    }

    /** The block is full. */
    method BlockIsFull()
      requires digest.Length == 5 && block.Length == 64 && blockByteIndex == 64
      requires |fed| >= 64 && |fed| % 64 == 0 && byteCount == |fed| % TWO_TO_THE_64
      requires block[..64] == fed[|fed| - 64..] && Value() == HashBlocks(fed[..|fed| - 64])
      modifies `blockByteIndex, digest
      ensures Valid() && blockByteIndex == 0
    {
      hide HashBlocks, Compress;
      blockByteIndex := 0;
      WholeBlock(fed);
      assert block[..] == block[..64];
      ProcessBlock();
    }

    static lemma OneMore(block: Bytes, fed: Bytes, filled: nat, octet: Byte)
      requires |block| == 64 && filled == |fed| % 64 && block[..filled] == fed[|fed| - filled..]
      ensures var more := fed + [octet];
              && block[filled := octet][..filled + 1] == more[|more| - filled - 1..]
              && more[..|more| - filled - 1] == fed[..|fed| - filled]
              && |more| % 64 == (filled + 1) % 64
              && (|fed| % TWO_TO_THE_64 + 1) % TWO_TO_THE_64 == |more| % TWO_TO_THE_64
    {
    }

    static lemma WholeBlock(m: Bytes)
      requires |m| >= 64 && |m| % 64 == 0
      ensures HashBlocks(m) == Compress(HashBlocks(m[..|m| - 64]), m[|m| - 64..]) && m[..|m|] == m
    {
      hide Compress;
    }

    method ProcessBytes(data: Bytes)
      requires Valid()
      modifies this, digest, block
      ensures Valid() && fed == old(fed) + data
    {
      hide Valid;
      var begin := 0;
      while begin != |data|
        invariant begin <= |data|
        invariant Valid() && fed == old(fed) + data[..begin]
      {
        ProcessByte(data[begin]);
        begin := begin + 1;
      }
    }

    /** Compresses the full block into the digest. */
    method ProcessBlock()
      requires digest.Length == 5 && block.Length == 64
      modifies digest
      ensures Value() == Compress(old(Value()), old(block[..]))
    {
      hide Plus, Rounds;
      var w := Schedule();
      var a, b, c, d, e := Mix(w);
      AddToDigest(a, b, c, d, e);
    }

    method AddToDigest(a: bv32, b: bv32, c: bv32, d: bv32, e: bv32)
      requires digest.Length == 5
      modifies digest
      ensures Value() == Plus(old(Value()), Digest(a, b, c, d, e))
    {
      hide Add;
      digest[0] := Add(digest[0], a);
      digest[1] := Add(digest[1], b);
      digest[2] := Add(digest[2], c);
      digest[3] := Add(digest[3], d);
      digest[4] := Add(digest[4], e);
    }

    /** The eighty rounds over a scheduled block. */
    method Mix(w: array<bv32>) returns (a: bv32, b: bv32, c: bv32, d: bv32, e: bv32)
      requires digest.Length == 5 && block.Length == 64
      requires w.Length == 80 && forall t :: 0 <= t < 80 ==> w[t] == W(block[..], t)
      ensures Digest(a, b, c, d, e) == Rounds(Value(), block[..], 80)
    {
      hide W, Round;
      a, b, c, d, e := digest[0], digest[1], digest[2], digest[3], digest[4];
      var i := 0;
      while i < 80
        invariant i <= 80 && Digest(a, b, c, d, e) == Rounds(Value(), block[..], i)
      {
        a, b, c, d, e := Step(a, b, c, d, e, i, w[i]);
        i := i + 1;
      }
    }

    static method Step(a: bv32, b: bv32, c: bv32, d: bv32, e: bv32, i: nat, w: bv32)
      returns (a': bv32, b': bv32, c': bv32, d': bv32, e': bv32)
      requires i < 80
      ensures Digest(a', b', c', d', e') == Round(Digest(a, b, c, d, e), i, w)
    {
      hide Rotl, LeftRotate, F, K, Sum;
      var f, k := Choose(b, c, d, i);
      RotateFive(a);
      var temp := Sum(LeftRotate(a, 5), f, e, k, w);
      RotateThirty(b);
      e' := d;
      d' := c;
      c' := LeftRotate(b, 30);
      b' := a;
      a' := temp;
    }

    static method Choose(b: bv32, c: bv32, d: bv32, i: nat) returns (f: bv32, k: bv32)
      requires i < 80
      ensures f == F(i, b, c, d) && k == K(i)
    {
      hide Ch, Maj, Parity, Choice, Majority;
      f, k := 0, 0;
      if i < 20 {
        f := Choice(b, c, d);
        ChoiceIsCh(b, c, d);
        k := 0x5A827999;
      } else if i < 40 {
        f := Parity(b, c, d);
        k := 0x6ED9EBA1;
      } else if i < 60 {
        f := Majority(b, c, d);
        MajorityIsMaj(b, c, d);
        k := 0x8F1BBCDC;
      } else {
        f := Parity(b, c, d);
        k := 0xCA62C1D6;
      }
    }

    method Schedule() returns (w: array<bv32>)
      requires block.Length == 64
      ensures fresh(w) && w.Length == 80 && forall t :: 0 <= t < 80 ==> w[t] == W(block[..], t)
    {
      hide W, Rotl, LeftRotate, Xor;
      w := new bv32[80];
      var i := 0;
      while i < 16
        invariant i <= 16 && forall t :: 0 <= t < i ==> w[t] == W(block[..], t)
      {
        w[i] := WordOf(i);
        i := i + 1;
      }
      while i < 80
        invariant 16 <= i <= 80 && forall t :: 0 <= t < i ==> w[t] == W(block[..], t)
      {
        ScheduleStep(block[..], i);
        RotateOne(Xor(w[i - 3], w[i - 8], w[i - 14], w[i - 16]));
        w[i] := LeftRotate(Xor(w[i - 3], w[i - 8], w[i - 14], w[i - 16]), 1);
        i := i + 1;
      }
    }

    static lemma ScheduleStep(m: Bytes, t: nat)
      requires |m| == 64 && t >= 16
      ensures W(m, t) == Rotl(Xor(W(m, t - 3), W(m, t - 8), W(m, t - 14), W(m, t - 16)), 1)
    {
      hide Rotl, Xor;
    }

    method WordOf(i: nat) returns (w: bv32)
      requires block.Length == 64 && i < 16
      ensures w == W(block[..], i)
    {
      hide Word;
      w := BigEndianWord(block[i * 4 + 0], block[i * 4 + 1], block[i * 4 + 2], block[i * 4 + 3]);
    }

    static method BigEndianWord(b0: Byte, b1: Byte, b2: Byte, b3: Byte) returns (w: bv32)
      ensures w == Word(b0, b1, b2, b3)
    {
      w := b0 as bv32 << 24;
      w := w | (b1 as bv32 << 16);
      w := w | (b2 as bv32 << 8);
      w := w | b3 as bv32;
    }

    /** The digest of everything that was fed.  The padding stays in the object. */
    method GetDigest() returns (result: Digest)
      requires Valid()
      modifies this, digest, block
      ensures Valid() && fed == old(fed) + CodePadding(|old(fed)|)
      ensures result == Hash(old(fed))
      ensures |old(fed)| < 0x2000_0000 ==> result == Sha1Standard.Sha1(old(fed))
    {
      ghost var m := fed;
      var bitCount := byteCount * 8 % TWO_TO_THE_64;
      LengthField(|m|, bitCount);
      PadTo56();
      WriteLength(bitCount);
      Padded(m, fed);
      result := Digest(digest[0], digest[1], digest[2], digest[3], digest[4]);
      CodePaddingEndsABlock(|m|);
      AtBlockEnd();
      hide Valid, CodePadding, HashBlocks;
      if |m| < 0x2000_0000 { PaddingIsStandard(|m|); }
    }

    static lemma Regroup(m: Bytes, one: Bytes, zeros: Bytes, fill: Bytes, length: Bytes)
      ensures m + one + zeros + fill + length == m + (one + zeros + fill + length)
    {
    }

    static lemma Padded(m: Bytes, all: Bytes)
      requires all == m + [0x80] + Zeros(ZeroBytes(|m|)) + [0, 0, 0, 0] + BigEndian(8 * |m|, 4)
      ensures all == m + CodePadding(|m|)
    {
      FourZeros();
      hide ZeroBytes, BigEndian, Zeros;
      Regroup(m, [0x80], Zeros(ZeroBytes(|m|)), [0, 0, 0, 0], BigEndian(8 * |m|, 4));
    }

    static lemma FourZeros()
      ensures Zeros(4) == [0, 0, 0, 0]
    {
      ZerosLength(4);
    }

    lemma AtBlockEnd()
      requires Valid() && blockByteIndex == 0
      ensures |fed| % 64 == 0 && Value() == HashBlocks(fed)
    {
      assert fed[..|fed|] == fed;
    }

    method WriteLength(bitCount: nat)
      requires Valid() && blockByteIndex == 56
      modifies this, digest, block
      ensures Valid() && blockByteIndex == 0
      ensures fed == old(fed) + [0, 0, 0, 0] + [(bitCount / 0x100_0000) % 0x100, (bitCount / 0x1_0000) % 0x100,
                                                (bitCount / 0x100) % 0x100, bitCount % 0x100]
    {
      hide Valid;
      ProcessByte(0);
      ProcessByte(0);
      ProcessByte(0);
      ProcessByte(0);
      ProcessByte((bitCount / 0x100_0000) % 0x100);
      ProcessByte((bitCount / 0x1_0000) % 0x100);
      ProcessByte((bitCount / 0x100) % 0x100);
      ProcessByte(bitCount % 0x100);
    }

    lemma ZeroBytesFromIndex()
      requires Valid()
      ensures blockByteIndex < 64
      ensures ZeroBytes(|fed|) == if blockByteIndex <= 55 then 55 - blockByteIndex else 119 - blockByteIndex
    {
      ZeroBytesFromRemainder(|fed|);
    }

    /** A zero byte more. */
    method PadByte(ghost start: Bytes, ghost z: nat)
      requires Valid() && fed == start + Zeros(z)
      modifies this, digest, block
      ensures Valid() && fed == start + Zeros(z + 1)
      ensures blockByteIndex == if old(blockByteIndex) == 63 then 0 else old(blockByteIndex) + 1
    {
      hide Valid;
      ProcessByte(0);
    }

    /** Zeros up to an index of the block: 0 stands for its end. */
    method PadTo(target: nat, ghost start: Bytes, ghost zeros: nat) returns (ghost z: nat)
      requires Valid() && fed == start + Zeros(zeros) && target < 64 && (target == 0 || blockByteIndex <= target)
      requires target == 0 ==> 0 < blockByteIndex
      modifies this, digest, block
      ensures Valid() && fed == start + Zeros(z) && blockByteIndex == target
      ensures z == zeros + (if target == 0 then 64 else target) - old(blockByteIndex)
    {
      z := zeros;
      assert blockByteIndex < 64;
      hide Valid, Zeros;
      ghost var from := blockByteIndex;
      while blockByteIndex != target
        invariant Valid() && fed == start + Zeros(z) && zeros <= z
        invariant if target == 0 then blockByteIndex == (if from + z - zeros == 64 then 0 else from + z - zeros) < 64
                  else blockByteIndex == from + z - zeros <= target
        decreases (if target == 0 then 64 else target) - from - (z - zeros)
      {
        PadByte(start, z);
        z := z + 1;
      }
    }

    /** A one bit and zeros, up to the length field. */
    method PadTo56()
      requires Valid()
      modifies this, digest, block
      ensures Valid() && fed == old(fed) + [0x80] + Zeros(ZeroBytes(|old(fed)|)) && blockByteIndex == 56
    {
      ghost var needed := ZeroBytes(|fed|);
      ZeroBytesFromIndex();
      hide Valid, ZeroBytes, Zeros;
      ProcessByte(0x80);
      ghost var z := PadZeros();
      assert z == needed;
    }

    method PadZeros() returns (ghost z: nat)
      requires Valid()
      modifies this, digest, block
      ensures Valid() && fed == old(fed) + Zeros(z) && blockByteIndex == 56
      ensures z == if old(blockByteIndex) > 56 then 120 - old(blockByteIndex) else 56 - old(blockByteIndex)
    {
      assert blockByteIndex < 64;
      hide Valid, Zeros;
      ghost var start := fed;
      z := 0;
      assert start + Zeros(0) == start by { NoZeros(); }
      if blockByteIndex > 56 {
        z := PadTo(0, start, z);
      }
      z := PadTo(56, start, z);
    }
  }

  lemma NoZeros()
    ensures Zeros(0) == []
  {
  }

  lemma LengthField(n: nat, bitCount: nat)
    requires bitCount == (n % TWO_TO_THE_64) * 8 % TWO_TO_THE_64
    ensures BigEndian(8 * n, 4) == [(bitCount / 0x100_0000) % 0x100, (bitCount / 0x1_0000) % 0x100,
                                    (bitCount / 0x100) % 0x100, bitCount % 0x100]
  {
    BigEndianFour(8 * n);
    BigEndianFour(bitCount);
    var k := LowBits(n, bitCount);
    ShiftedBytes(bitCount, k);
  }

  lemma LowBits(n: nat, bitCount: nat) returns (k: nat)
    requires bitCount == (n % TWO_TO_THE_64) * 8 % TWO_TO_THE_64
    ensures 8 * n == bitCount + 0x1_0000_0000 * k
  {
    var q := n / TWO_TO_THE_64;
    var q' := (n % TWO_TO_THE_64) * 8 / TWO_TO_THE_64;
    k := (8 * q + q') * 0x1_0000_0000;
    assert n == q * TWO_TO_THE_64 + n % TWO_TO_THE_64;
    assert (n % TWO_TO_THE_64) * 8 == q' * TWO_TO_THE_64 + bitCount;
  }

  /** The four low bytes do not depend on what is above them. */
  lemma ShiftedBytes(low: nat, k: nat)
    ensures var n := low + 0x1_0000_0000 * k;
            && n % 0x100 == low % 0x100
            && (n / 0x100) % 0x100 == (low / 0x100) % 0x100
            && (n / 0x1_0000) % 0x100 == (low / 0x1_0000) % 0x100
            && (n / 0x100_0000) % 0x100 == (low / 0x100_0000) % 0x100
  {
    var n := low + 0x1_0000_0000 * k;
    assert n / 0x100 == low / 0x100 + 0x100_0000 * k;
    assert n / 0x1_0000 == low / 0x1_0000 + 0x1_0000 * k;
    assert n / 0x100_0000 == low / 0x100_0000 + 0x100 * k;
  }

  lemma BigEndianStep(n: nat, k: nat)
    requires k > 0
    ensures BigEndian(n, k) == BigEndian(n / 256, k - 1) + [n % 256]
  {
  }

  lemma BigEndianFour(n: nat)
    ensures BigEndian(n, 4) == [(n / 0x100_0000) % 0x100, (n / 0x1_0000) % 0x100, (n / 0x100) % 0x100, n % 0x100]
  {
    BigEndianStep(n, 4);
    BigEndianStep(n / 256, 3);
    BigEndianStep(n / 256 / 256, 2);
    BigEndianStep(n / 256 / 256 / 256, 1);
    assert BigEndian(n / 256 / 256 / 256 / 256, 0) == [];
    hide BigEndian;
    assert n / 256 / 256 == n / 0x1_0000 && n / 256 / 256 / 256 == n / 0x100_0000;
  }

  function Drop(n: nat, k: nat): nat { if k == 0 then n else Drop(n / 256, k - 1) }

  lemma {:induction false} BigEndianConcat(n: nat, j: nat, k: nat)
    ensures BigEndian(n, j + k) == BigEndian(Drop(n, k), j) + BigEndian(n, k)
  {
    if k > 0 {
      BigEndianConcat(n / 256, j, k - 1);
    } else {
      assert BigEndian(n, 0) == [];
    }
  }

  lemma BigEndianSplit(n: nat)
    ensures BigEndian(n, 8) == BigEndian(n / 0x1_0000_0000, 4) + BigEndian(n, 4)
  {
    BigEndianConcat(n, 4, 4);
    hide BigEndian;
    assert Drop(n, 4) == Drop(n / 256, 3);
    assert Drop(n / 256, 3) == Drop(n / 256 / 256, 2);
    assert Drop(n / 256 / 256, 2) == Drop(n / 256 / 256 / 256, 1) == n / 256 / 256 / 256 / 256;
  }

  /** The object's padding is the standard's padding exactly for messages shorter than 2^29 bytes. */
  lemma PaddingIsStandard(n: nat)
    requires n < 0x2000_0000_0000_0000
    ensures CodePadding(n) == Padding(n) <==> n < 0x2000_0000
  {
    var high := 8 * n / 0x1_0000_0000;
    var start := [0x80] + Zeros(ZeroBytes(n));
    BigEndianSplit(8 * n);
    BigEndianLength(high, 4);
    BigEndianLength(8 * n, 4);
    ZerosLength(4);
    hide ZeroBytes;
    assert Padding(n) == start + (BigEndian(high, 4) + BigEndian(8 * n, 4));
    assert CodePadding(n) == start + (Zeros(4) + BigEndian(8 * n, 4));
    HighBytes(high);
    if BigEndian(high, 4) != Zeros(4) {
      var k :| 0 <= k < 4 && BigEndian(high, 4)[k] != Zeros(4)[k];
      assert Padding(n)[|start| + k] != CodePadding(n)[|start| + k];
    }
  }

  lemma HighBytes(high: nat)
    requires high < 0x1_0000_0000
    ensures BigEndian(high, 4) == Zeros(4) <==> high == 0
  {
    BigEndianFour(high);
    ZerosLength(4);
    HighDigits(high, high / 0x100_0000 % 0x100, high / 0x1_0000 % 0x100, high / 0x100 % 0x100, high % 0x100);
    if BigEndian(high, 4) == Zeros(4) {
      assert BigEndian(high, 4)[0] == 0 && BigEndian(high, 4)[1] == 0;
      assert BigEndian(high, 4)[2] == 0 && BigEndian(high, 4)[3] == 0;
    }
  }

  lemma HighDigits(high: nat, a: nat, b: nat, c: nat, d: nat)
    requires high < 0x1_0000_0000
    requires a == high / 0x100_0000 % 0x100 && b == high / 0x1_0000 % 0x100 && c == high / 0x100 % 0x100
    requires d == high % 0x100
    ensures high == a * 0x100_0000 + b * 0x1_0000 + c * 0x100 + d
  {
  }

  function Concat(pieces: seq<Bytes>): Bytes {
    if pieces == [] then [] else Concat(pieces[..|pieces| - 1]) + pieces[|pieces| - 1]
  }

  /** However a message shorter than 2^29 bytes is cut into pieces, its digest is the SHA-1 of the whole. */
  method HashPieces(pieces: seq<Bytes>) returns (result: Digest)
    ensures result == Hash(Concat(pieces))
    ensures |Concat(pieces)| < 0x2000_0000 ==> result == Sha1Standard.Sha1(Concat(pieces))
  {
    hide Hash, Sha1Standard.Sha1;
    var hasher := new Hasher();
    var i := 0;
    while i < |pieces|
      invariant i <= |pieces| && fresh(hasher) && fresh(hasher.digest) && fresh(hasher.block)
      invariant hasher.Valid() && hasher.fed == Concat(pieces[..i])
    {
      assert pieces[..i + 1][..i] == pieces[..i];
      hasher.ProcessBytes(pieces[i]);
      i := i + 1;
    }
    assert pieces[..i] == pieces;
    result := hasher.GetDigest();
  }
}
