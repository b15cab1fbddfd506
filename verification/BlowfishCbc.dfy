/**
 The Blowfish block cipher and cipher block chaining in place.  Nothing depends on the tables: deciphering undoes
 enciphering for every S and P, and decrypting a buffer in place restores what was encrypted.
 */
module BlowfishCbc {
  /** The four S-boxes one after the other, and the subkeys. */
  datatype Tables = Tables(s: seq<bv32>, p: seq<bv32>)

  type Context = c: Tables | |c.s| == 1024 && |c.p| == 18 witness Tables(seq(1024, _ => 0), seq(18, _ => 0))

  type Bytes = seq<bv8>

  // ---- The cipher ----

  function Index(x: bv32): nat { (x & 0xFF) as int }

  lemma IndexBelow(x: bv32)
    ensures Index(x) < 256
  {
  }

  function F(c: Context, x: bv32): bv32
  {
    IndexBelow(x >> 24);
    IndexBelow(x >> 16);
    IndexBelow(x >> 8);
    IndexBelow(x);
    ((c.s[Index(x >> 24)] + c.s[256 + Index(x >> 16)]) ^ c.s[512 + Index(x >> 8)]) + c.s[768 + Index(x)]
  }

  /** One round: i is combined with the round function of j and subkey n. */
  function BlfRnd(c: Context, i: bv32, j: bv32, n: nat): bv32
    requires n < 18
  {
    i ^ (F(c, j) ^ c.p[n])
  }

  function Xor32(x: bv32, y: bv32): bv32 { x ^ y }

  /** The two halves after n rounds: odd rounds change the right half, even rounds the left one. */
  function Forward(c: Context, left: bv32, right: bv32, n: nat): (bv32, bv32)
    requires n <= 16
  {
    if n == 0 then (left, right)
    else
      var (l, r) := Forward(c, left, right, n - 1);
      if n % 2 == 1 then (l, BlfRnd(c, r, l, n)) else (BlfRnd(c, l, r, n), r)
  }

  /** The same rounds from n down to 1. */
  function Backward(c: Context, left: bv32, right: bv32, n: nat): (bv32, bv32)
    requires n <= 16
    decreases n
  {
    if n == 0 then (left, right)
    else if n % 2 == 1 then Backward(c, left, BlfRnd(c, right, left, n), n - 1)
    else Backward(c, BlfRnd(c, left, right, n), right, n - 1)
  }

  function Encipher(c: Context, x: (bv32, bv32)): (bv32, bv32)
  {
    var (l, r) := Forward(c, Xor32(x.0, c.p[0]), x.1, 16);
    (Xor32(r, c.p[17]), l)
  }

  function Decipher(c: Context, x: (bv32, bv32)): (bv32, bv32)
  {
    var (l, r) := Backward(c, x.1, Xor32(x.0, c.p[17]), 16);
    (Xor32(l, c.p[0]), r)
  }

  lemma RoundTwice(c: Context, i: bv32, j: bv32, n: nat)
    requires n < 18
    ensures BlfRnd(c, BlfRnd(c, i, j, n), j, n) == i
  {
    XorTwice(i, F(c, j) ^ c.p[n]);
    hide F;
  }

  lemma XorTwice(x: bv32, y: bv32)
    ensures (x ^ y) ^ y == x
  {
  }

  lemma Xor32Twice(x: bv32, y: bv32)
    ensures Xor32(Xor32(x, y), y) == x
  {
    XorTwice(x, y);
  }

  lemma {:induction false} BackwardUndoesForward(c: Context, left: bv32, right: bv32, n: nat)
    requires n <= 16
    ensures var (l, r) := Forward(c, left, right, n);
            Backward(c, l, r, n) == (left, right)
  {
    hide BlfRnd;
    if n > 0 {
      var (l, r) := Forward(c, left, right, n - 1);
      RoundTwice(c, r, l, n);
      RoundTwice(c, l, r, n);
      BackwardUndoesForward(c, left, right, n - 1);
    }
  }

  /** Deciphering inverts the sixteen rounds, whatever the S-boxes and the subkeys. */
  lemma DecipherUndoesEncipher(c: Context, x: (bv32, bv32))
    ensures Decipher(c, Encipher(c, x)) == x
  {
    var (l, r) := Forward(c, Xor32(x.0, c.p[0]), x.1, 16);
    BackwardUndoesForward(c, Xor32(x.0, c.p[0]), x.1, 16);
    Xor32Twice(r, c.p[17]);
    Xor32Twice(x.0, c.p[0]);
    hide Forward, Backward, Xor32;
  }

  method BlowfishEncipher(c: Context, xl: bv32, xr: bv32) returns (yl: bv32, yr: bv32)
    ensures (yl, yr) == Encipher(c, (xl, xr))
  {
    hide Xor32, BlfRnd, Forward;
    var l, r := Xor32(xl, c.p[0]), xr;
    ghost var l0 := l;
    Start(c, l0, xr);
    r := BlfRnd(c, r, l, 1); Odd(c, l0, xr, 1); l := BlfRnd(c, l, r, 2); Even(c, l0, xr, 2);
    r := BlfRnd(c, r, l, 3); Odd(c, l0, xr, 3); l := BlfRnd(c, l, r, 4); Even(c, l0, xr, 4);
    r := BlfRnd(c, r, l, 5); Odd(c, l0, xr, 5); l := BlfRnd(c, l, r, 6); Even(c, l0, xr, 6);
    r := BlfRnd(c, r, l, 7); Odd(c, l0, xr, 7); l := BlfRnd(c, l, r, 8); Even(c, l0, xr, 8);
    r := BlfRnd(c, r, l, 9); Odd(c, l0, xr, 9); l := BlfRnd(c, l, r, 10); Even(c, l0, xr, 10);
    r := BlfRnd(c, r, l, 11); Odd(c, l0, xr, 11); l := BlfRnd(c, l, r, 12); Even(c, l0, xr, 12);
    r := BlfRnd(c, r, l, 13); Odd(c, l0, xr, 13); l := BlfRnd(c, l, r, 14); Even(c, l0, xr, 14);
    r := BlfRnd(c, r, l, 15); Odd(c, l0, xr, 15); l := BlfRnd(c, l, r, 16); Even(c, l0, xr, 16);
    yl := Xor32(r, c.p[17]);
    yr := l;
  }

  lemma Start(c: Context, left: bv32, right: bv32)
    ensures Forward(c, left, right, 0) == (left, right)
  {
  }

  lemma Odd(c: Context, left: bv32, right: bv32, n: nat)
    requires 0 < n <= 16 && n % 2 == 1
    ensures Forward(c, left, right, n)
            == (Forward(c, left, right, n - 1).0,
                BlfRnd(c, Forward(c, left, right, n - 1).1, Forward(c, left, right, n - 1).0, n))
  {
    hide BlfRnd;
  }

  lemma Even(c: Context, left: bv32, right: bv32, n: nat)
    requires 0 < n <= 16 && n % 2 == 0
    ensures Forward(c, left, right, n)
            == (BlfRnd(c, Forward(c, left, right, n - 1).0, Forward(c, left, right, n - 1).1, n),
                Forward(c, left, right, n - 1).1)
  {
    hide BlfRnd;
  }

  method BlowfishDecipher(c: Context, xl: bv32, xr: bv32) returns (yl: bv32, yr: bv32)
    ensures (yl, yr) == Decipher(c, (xl, xr))
  {
    hide Xor32, BlfRnd, Backward;
    var l, r := Xor32(xl, c.p[17]), xr;
    Undo(c, r, l, 16); r := BlfRnd(c, r, l, 16); Undo(c, r, l, 15); l := BlfRnd(c, l, r, 15);
    Undo(c, r, l, 14); r := BlfRnd(c, r, l, 14); Undo(c, r, l, 13); l := BlfRnd(c, l, r, 13);
    Undo(c, r, l, 12); r := BlfRnd(c, r, l, 12); Undo(c, r, l, 11); l := BlfRnd(c, l, r, 11);
    Undo(c, r, l, 10); r := BlfRnd(c, r, l, 10); Undo(c, r, l, 9); l := BlfRnd(c, l, r, 9);
    Undo(c, r, l, 8); r := BlfRnd(c, r, l, 8); Undo(c, r, l, 7); l := BlfRnd(c, l, r, 7);
    Undo(c, r, l, 6); r := BlfRnd(c, r, l, 6); Undo(c, r, l, 5); l := BlfRnd(c, l, r, 5);
    Undo(c, r, l, 4); r := BlfRnd(c, r, l, 4); Undo(c, r, l, 3); l := BlfRnd(c, l, r, 3);
    Undo(c, r, l, 2); r := BlfRnd(c, r, l, 2); Undo(c, r, l, 1); l := BlfRnd(c, l, r, 1);
    Undo(c, r, l, 0);
    yl := Xor32(r, c.p[0]);
    yr := l;
  }

  lemma Undo(c: Context, left: bv32, right: bv32, n: nat)
    requires n <= 16
    ensures Backward(c, left, right, n)
            == if n == 0 then (left, right)
               else if n % 2 == 1 then Backward(c, left, BlfRnd(c, right, left, n), n - 1)
               else Backward(c, BlfRnd(c, left, right, n), right, n - 1)
  {
    hide BlfRnd;
  }

  // ---- Blocks of eight bytes ----

  function Word(a: bv8, b: bv8, c: bv8, d: bv8): bv32 {
    (a as bv32 << 24) | (b as bv32 << 16) | (c as bv32 << 8) | d as bv32
  }

  function Byte(w: bv32, shift: nat): bv8
    requires shift <= 24
  {
    ((w >> shift) & 0xFF) as bv8
  }

  lemma WordOfBytes(w: bv32)
    ensures Word(Byte(w, 24), Byte(w, 16), Byte(w, 8), Byte(w, 0)) == w
  {
  }

  lemma BytesOfWord(a: bv8, b: bv8, c: bv8, d: bv8)
    ensures var w := Word(a, b, c, d);
            Byte(w, 24) == a && Byte(w, 16) == b && Byte(w, 8) == c && Byte(w, 0) == d
  {
  }

  type Block = b: Bytes | |b| == 8 witness [0, 0, 0, 0, 0, 0, 0, 0]

  function Pack(b: Block): (bv32, bv32) { (Word(b[0], b[1], b[2], b[3]), Word(b[4], b[5], b[6], b[7])) }

  function Unpack(x: (bv32, bv32)): Block {
    [Byte(x.0, 24), Byte(x.0, 16), Byte(x.0, 8), Byte(x.0, 0),
     Byte(x.1, 24), Byte(x.1, 16), Byte(x.1, 8), Byte(x.1, 0)]
  }

  lemma PackUnpack(x: (bv32, bv32))
    ensures Pack(Unpack(x)) == x
  {
    WordOfBytes(x.0);
    WordOfBytes(x.1);
    hide Word, Byte;
  }

  lemma UnpackPack(b: Block)
    ensures Unpack(Pack(b)) == b
  {
    BytesOfWord(b[0], b[1], b[2], b[3]);
    BytesOfWord(b[4], b[5], b[6], b[7]);
    hide Word, Byte;
  }

  function Xor8(x: bv8, y: bv8): bv8 { x ^ y }

  lemma Xor8Twice(x: bv8, y: bv8)
    ensures Xor8(Xor8(x, y), y) == x
  {
  }

  function XorBlock(a: Block, b: Block): Block { seq(8, k requires 0 <= k < 8 => Xor8(a[k], b[k])) }

  lemma XorBlockTwice(a: Block, b: Block)
    ensures XorBlock(XorBlock(a, b), b) == a
  {
    forall k | 0 <= k < 8 ensures XorBlock(XorBlock(a, b), b)[k] == a[k] { Xor8Twice(a[k], b[k]); }
  }

  function EncryptBlock(c: Context, b: Block): Block
  {
    Unpack(Encipher(c, Pack(b)))
  }

  function DecryptBlock(c: Context, b: Block): Block
  {
    Unpack(Decipher(c, Pack(b)))
  }

  lemma DecryptUndoesEncrypt(c: Context, b: Block)
    ensures DecryptBlock(c, EncryptBlock(c, b)) == b
  {
    PackUnpack(Encipher(c, Pack(b)));
    DecipherUndoesEncipher(c, Pack(b));
    UnpackPack(b);
    hide Pack, Unpack, Encipher, Decipher;
  }

  // ---- Cipher block chaining ----

  function Cbc(c: Context, iv: Block, data: Bytes): Bytes
    decreases |data|
  {
    if |data| < 8 then []
    else
      var e := EncryptBlock(c, XorBlock(data[..8], iv));
      e + Cbc(c, e, data[8..])
  }

  function Unchain(c: Context, iv: Block, data: Bytes): Bytes
    decreases |data|
  {
    if |data| < 8 then [] else XorBlock(DecryptBlock(c, data[..8]), iv) + Unchain(c, data[..8], data[8..])
  }

  /** Decrypting restores the text, for every key state, initial vector and number of blocks. */
  lemma {:induction false} CbcRoundTrip(c: Context, iv: Block, data: Bytes)
    requires |data| % 8 == 0
    ensures |Cbc(c, iv, data)| == |data| && Unchain(c, iv, Cbc(c, iv, data)) == data
    decreases |data|
  {
    hide EncryptBlock, DecryptBlock, XorBlock;
    if data == [] {
    } else {
      var x := XorBlock(data[..8], iv);
      var e := EncryptBlock(c, x);
      CbcRoundTrip(c, e, data[8..]);
      DecryptUndoesEncrypt(c, x);
      XorBlockTwice(data[..8], iv);
      var all := Cbc(c, iv, data);
      assert all[..8] == e && all[8..] == Cbc(c, e, data[8..]);
      assert data[..8] + data[8..] == data;
    }
  }

  // ---- In place ----

  function BlockAt(data: Bytes, at: nat): Block
    requires at + 8 <= |data|
  {
    data[at..at + 8]
  }

  function Replaced(data: Bytes, at: nat, b: Block): Bytes
    requires at + 8 <= |data|
  {
    data[..at] + b + data[at + 8..]
  }

  lemma ReplacedIs(was: Bytes, at: nat, b: Block, now: Bytes)
    requires at + 8 <= |was| == |now|
    requires forall k :: 0 <= k < |was| ==> now[k] == if at <= k < at + 8 then b[k - at] else was[k]
    ensures now == Replaced(was, at, b)
  {
  }

  lemma ReplacedKeeps(data: Bytes, at: nat, b: Block, j: nat)
    requires j + 8 <= at && at + 8 <= |data|
    ensures |Replaced(data, at, b)| == |data| && BlockAt(Replaced(data, at, b), j) == BlockAt(data, j)
  {
  }

  /** data[at..] is combined with the eight bytes that iv points to, which may lie in data before it. */
  method XorInto(data: array<bv8>, at: nat, iv: array<bv8>, ivAt: nat)
    requires at + 8 <= data.Length && ivAt + 8 <= iv.Length && (iv == data ==> ivAt + 8 <= at)
    modifies data
    ensures data[..] == Replaced(old(data[..]), at, XorBlock(BlockAt(old(data[..]), at), BlockAt(old(iv[..]), ivAt)))
  {
    var j := 0;
    while j < 8
      invariant j <= 8
      invariant forall k :: 0 <= k < data.Length ==>
                  data[k] == if at <= k < at + j then Xor8(old(data[k]), old(iv[ivAt + k - at])) else old(data[k])
    {
      hide Xor8;
      data[at + j] := Xor8(data[at + j], iv[ivAt + j]);
      j := j + 1;
    }
    ReplacedIs(old(data[..]), at, XorBlock(BlockAt(old(data[..]), at), BlockAt(old(iv[..]), ivAt)), data[..]);
  }

  method Load(data: array<bv8>, at: nat) returns (l: bv32, r: bv32)
    requires at + 8 <= data.Length
    ensures (l, r) == Pack(BlockAt(data[..], at))
  {
    hide Word;
    l := Word(data[at], data[at + 1], data[at + 2], data[at + 3]);
    r := Word(data[at + 4], data[at + 5], data[at + 6], data[at + 7]);
  }

  method Store(data: array<bv8>, at: nat, l: bv32, r: bv32)
    requires at + 8 <= data.Length
    modifies data
    ensures data[..] == Replaced(old(data[..]), at, Unpack((l, r)))
  {
    hide Byte;
    data[at] := Byte(l, 24);
    data[at + 1] := Byte(l, 16);
    data[at + 2] := Byte(l, 8);
    data[at + 3] := Byte(l, 0);
    data[at + 4] := Byte(r, 24);
    data[at + 5] := Byte(r, 16);
    data[at + 6] := Byte(r, 8);
    data[at + 7] := Byte(r, 0);
    ReplacedIs(old(data[..]), at, Unpack((l, r)), data[..]);
  }

  method EncipherAt(c: Context, data: array<bv8>, at: nat)
    requires at + 8 <= data.Length
    modifies data
    ensures data[..] == Replaced(old(data[..]), at, EncryptBlock(c, BlockAt(old(data[..]), at)))
  {
    hide Pack, Unpack, Encipher;
    var l, r := Load(data, at);
    l, r := BlowfishEncipher(c, l, r);
    Store(data, at, l, r);
  }

  method DecipherAt(c: Context, data: array<bv8>, at: nat)
    requires at + 8 <= data.Length
    modifies data
    ensures data[..] == Replaced(old(data[..]), at, DecryptBlock(c, BlockAt(old(data[..]), at)))
  {
    hide Pack, Unpack, Decipher;
    var l, r := Load(data, at);
    l, r := BlowfishDecipher(c, l, r);
    Store(data, at, l, r);
  }

  lemma ReplacedTwice(data: Bytes, at: nat, b: Block, d: Block)
    requires at + 8 <= |data|
    ensures |Replaced(data, at, b)| == |data| && BlockAt(Replaced(data, at, b), at) == b
    ensures Replaced(Replaced(data, at, b), at, d) == Replaced(data, at, d)
  {
    var r := Replaced(data, at, b);
    assert r[..at] == data[..at] && r[at + 8..] == data[at + 8..] && r[at..at + 8] == b;
  }

  method EncryptStep(c: Context, data: array<bv8>, at: nat, iv: array<bv8>, ivAt: nat)
    requires at + 8 <= data.Length && ivAt + 8 <= iv.Length && (iv == data ==> ivAt + 8 <= at)
    modifies data
    ensures data[..] == Replaced(old(data[..]), at,
                                 EncryptBlock(c, XorBlock(BlockAt(old(data[..]), at), BlockAt(old(iv[..]), ivAt))))
  {
    hide EncryptBlock, XorBlock, Replaced;
    ghost var was := data[..];
    ghost var x := XorBlock(BlockAt(data[..], at), BlockAt(iv[..], ivAt));
    XorInto(data, at, iv, ivAt);
    ReplacedTwice(was, at, x, EncryptBlock(c, x));
    EncipherAt(c, data, at);
  }

  method DecryptStep(c: Context, data: array<bv8>, at: nat, iv: array<bv8>, ivAt: nat)
    requires at + 8 <= data.Length && ivAt + 8 <= iv.Length && (iv == data ==> ivAt + 8 <= at)
    modifies data
    ensures data[..] == Replaced(old(data[..]), at,
                                 XorBlock(DecryptBlock(c, BlockAt(old(data[..]), at)), BlockAt(old(iv[..]), ivAt)))
  {
    hide DecryptBlock, XorBlock, Replaced;
    ghost var was := data[..];
    ghost var x := DecryptBlock(c, BlockAt(data[..], at));
    ghost var key := BlockAt(iv[..], ivAt);
    ReplacedTwice(was, at, x, XorBlock(x, key));
    if iv == data { ReplacedKeeps(was, at, x, ivAt); }
    DecipherAt(c, data, at);
    XorInto(data, at, iv, ivAt);
  }

  /** The blocks before i are encrypted, and key is the vector of the next one. */
  ghost predicate EncryptedTo(c: Context, iv: Block, was: Bytes, now: Bytes, i: nat, key: Block) {
    && i <= |was| == |now| && now[i..] == was[i..]
    && Cbc(c, iv, was) == now[..i] + Cbc(c, key, was[i..])
  }

  lemma CbcStep(c: Context, iv: Block, was: Bytes, now: Bytes, i: nat, key: Block)
    requires EncryptedTo(c, iv, was, now, i, key) && i + 8 <= |was|
    ensures var e := EncryptBlock(c, XorBlock(BlockAt(now, i), key));
            EncryptedTo(c, iv, was, Replaced(now, i, e), i + 8, e) && BlockAt(Replaced(now, i, e), i) == e
  {
    hide EncryptBlock, XorBlock;
    var e := EncryptBlock(c, XorBlock(BlockAt(now, i), key));
    var after := Replaced(now, i, e);
    assert was[i..][..8] == now[i..][..8] == BlockAt(now, i);
    assert was[i..][8..] == was[i + 8..];
    assert after[..i + 8] == now[..i] + e;
    assert after[i + 8..] == now[i + 8..] == now[i..][8..];
  }

  lemma NothingEncrypted(c: Context, iv: Block, was: Bytes)
    ensures EncryptedTo(c, iv, was, was, 0, iv)
  {
    assert was[..0] == [] && was[0..] == was;
  }

  lemma AllEncrypted(c: Context, iv: Block, was: Bytes, now: Bytes, key: Block)
    requires EncryptedTo(c, iv, was, now, |was|, key)
    ensures now == Cbc(c, iv, was)
  {
    assert was[|was|..] == [] && now[..|was|] == now;
    assert Cbc(c, key, []) == [];
  }

  lemma NextFits(i: nat, n: nat)
    requires i % 8 == 0 && n % 8 == 0 && i < n
    ensures i + 8 <= n && (i + 8) % 8 == 0
  {
  }

  method EncryptNext(c: Context, ghost v: Block, ghost was: Bytes, data: array<bv8>, i: nat, iv: array<bv8>, ivAt: nat)
    requires i + 8 <= data.Length == |was| && ivAt + 8 <= iv.Length && (iv == data ==> ivAt + 8 <= i)
    requires EncryptedTo(c, v, was, data[..], i, BlockAt(iv[..], ivAt))
    modifies data
    ensures EncryptedTo(c, v, was, data[..], i + 8, BlockAt(data[..], i))
  {
    hide EncryptBlock, XorBlock, Replaced, EncryptedTo, BlockAt, Cbc;
    CbcStep(c, v, was, data[..], i, BlockAt(iv[..], ivAt));
    EncryptStep(c, data, i, iv, ivAt);
  }

  /** Encrypts a buffer in place; each block takes the ciphertext before it as its vector. */
  method BlfCbcEncrypt(c: Context, iv: array<bv8>, data: array<bv8>)
    requires iv.Length == 8 && iv != data && data.Length % 8 == 0
    modifies data
    ensures data[..] == Cbc(c, old(iv[..]), old(data[..]))
  {
    ghost var was, v := data[..], iv[..];
    NothingEncrypted(c, v, was);
    assert BlockAt(iv[..], 0) == v;
    hide EncryptBlock, XorBlock, Replaced, EncryptedTo, BlockAt, Cbc;
    var i := 0;
    var p, at := iv, 0;
    while i < data.Length
      invariant i <= data.Length && i % 8 == 0
      invariant (p == iv && at == 0 && i == 0) || (p == data && i >= 8 && at == i - 8)
      invariant EncryptedTo(c, v, was, data[..], i, if i == 0 then v else BlockAt(data[..], i - 8))
      invariant iv[..] == old(iv[..])
    {
      NextFits(i, data.Length);
      EncryptNext(c, v, was, data, i, p, at);
      p, at := data, i;
      i := i + 8;
    }
    AllEncrypted(c, v, was, data[..], if i == 0 then v else BlockAt(data[..], i - 8));
  }

  /** The blocks after i are decrypted. */
  ghost predicate DecryptedFrom(c: Context, was: Bytes, now: Bytes, i: nat) {
    && i + 8 <= |was| == |now| && now[..i + 8] == was[..i + 8]
    && now[i + 8..] == Unchain(c, BlockAt(was, i), was[i + 8..])
  }

  lemma UnchainStep(c: Context, was: Bytes, now: Bytes, i: nat, key: Block)
    requires DecryptedFrom(c, was, now, i)
    ensures var after := Replaced(now, i, XorBlock(DecryptBlock(c, BlockAt(now, i)), key));
            |after| == |was| && after[..i] == was[..i] && after[i..] == Unchain(c, key, was[i..])
  {
    hide DecryptBlock, XorBlock;
    assert BlockAt(now, i) == now[..i + 8][i..] == was[..i + 8][i..] == BlockAt(was, i);
    assert was[i..][..8] == BlockAt(was, i) && was[i..][8..] == was[i + 8..];
    assert now[..i] == now[..i + 8][..i] == was[..i];
  }

  /** Moving on to the block before. */
  lemma UnchainBack(c: Context, was: Bytes, now: Bytes, i: nat)
    requires DecryptedFrom(c, was, now, i) && i >= 8
    ensures BlockAt(now, i - 8) == BlockAt(was, i - 8)
    ensures DecryptedFrom(c, was, Replaced(now, i, XorBlock(DecryptBlock(c, BlockAt(now, i)), BlockAt(now, i - 8))),
                          i - 8)
  {
    assert BlockAt(now, i - 8) == now[..i + 8][i - 8..i] == was[..i + 8][i - 8..i];
    UnchainStep(c, was, now, i, BlockAt(was, i - 8));
    hide DecryptBlock, XorBlock, Unchain, Replaced;
  }

  lemma LastBlock(c: Context, was: Bytes)
    requires |was| >= 8
    ensures DecryptedFrom(c, was, was, |was| - 8)
  {
    assert was[|was| - 8 + 8..] == [];
  }

  /** Decrypts a buffer in place, from the last block to the first. */
  method BlfCbcDecrypt(c: Context, iva: array<bv8>, data: array<bv8>)
    requires iva.Length == 8 && iva != data && data.Length % 8 == 0 && data.Length > 0
    modifies data
    ensures data[..] == Unchain(c, old(iva[..]), old(data[..]))
  {
    hide DecryptBlock, XorBlock, Unchain, Replaced, DecryptedFrom;
    ghost var was := data[..];
    var i := data.Length - 8;
    LastBlock(c, was);
    while i >= 8
      invariant 0 <= i <= data.Length - 8 && i % 8 == 0
      invariant iva[..] == old(iva[..]) && DecryptedFrom(c, was, data[..], i)
    {
      hide BlockAt;
      UnchainBack(c, was, data[..], i);
      DecryptStep(c, data, i, data, i - 8);
      i := i - 8;
    }
    UnchainStep(c, was, data[..], 0, BlockAt(iva[..], 0));
    DecryptStep(c, data, 0, iva, 0);
    assert BlockAt(iva[..], 0) == iva[..] && was[0..] == was && data[..][0..] == data[..];
  }

  /** Encrypting and then decrypting in place restores the buffer. */
  method EncryptThenDecrypt(c: Context, iv: array<bv8>, data: array<bv8>)
    requires iv.Length == 8 && iv != data && data.Length % 8 == 0 && data.Length > 0
    modifies data
    ensures data[..] == old(data[..])
  {
    CbcRoundTrip(c, iv[..], data[..]);
    BlfCbcEncrypt(c, iv, data);
    BlfCbcDecrypt(c, iv, data);
  }
}
