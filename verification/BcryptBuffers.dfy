/** The loops of bcrypt over character buffers, proved to write what Bcrypt.dfy defines. */
module BcryptBuffers {
  import opened Bcrypt
  import opened Buffers

  // ---- Base 64 ----

  lemma EncodeThree(data: Bytes, p: nat)
    requires p + 3 <= |data|
    ensures Encode(data[p..]) == Group(data[p], data[p + 1], data[p + 2]) + Encode(data[p + 3..])
  {
    assert data[p..][3..] == data[p + 3..];
    hide Code, D1, D2, D3, D4;
  }

  /** Writes the characters of data and a zero behind them. */
  method EncodeBase64(buffer: array<char>, at: nat, data: Bytes)
    requires at + |Encode(data)| + 1 <= buffer.Length
    modifies buffer
    ensures buffer[..] == Written(old(buffer[..]), at, Encode(data) + [NUL])
  {
    hide Code, Written;
    ghost var was := buffer[..];
    ghost var out := "";
    var bp, p := at, 0;
    WrittenNothing(was, at);
    while p < |data|
      invariant p <= |data| && bp == at + |out|
      invariant out + Encode(data[p..]) == Encode(data)
      invariant buffer[..] == Written(was, at, out)
      decreases |data| - p
    {
      if p + 3 <= |data| {
        EncodeThree(data, p);
        bp := EncodeGroup(buffer, was, at, out, bp, data[p], data[p + 1], data[p + 2]);
        out := out + Group(data[p], data[p + 1], data[p + 2]);
        p := p + 3;
      } else {
        ghost var tail := Encode(data[p..]);
        bp := EncodeTail(buffer, was, at, out, bp, data[p..]);
        out := out + tail;
        p := |data|;
        assert data[p..] == [];
        assert out + [] == out;
      }
    }
    assert data[p..] == [] && out + [] == out;
    bp := Put(buffer, was, at, out, bp, NUL);
  }

  method EncodeGroup(buffer: array<char>, ghost was: string, at: nat, ghost out: string, bp: nat,
                     a: Byte, b: Byte, c: Byte)
    returns (bp': nat)
    requires |was| == buffer.Length && at + |out| == bp && bp + 4 <= buffer.Length
    requires buffer[..] == Written(was, at, out)
    modifies buffer
    ensures bp' == bp + 4 && buffer[..] == Written(was, at, out + Group(a, b, c))
  {
    hide Code, Written;
    var c1 := a;
    bp' := Put(buffer, was, at, out, bp, Code(c1 / 4));
    c1 := c1 % 4 * 16;
    var c2 := b;
    c1 := c1 + c2 / 16;
    ghost var o := out + [Code(D1(a))];
    bp' := Put(buffer, was, at, o, bp', Code(c1));
    o := o + [Code(D2(a, b))];
    c1 := c2 % 16 * 4;
    c2 := c;
    c1 := c1 + c2 / 64;
    bp' := Put(buffer, was, at, o, bp', Code(c1));
    o := o + [Code(D3(b, c))];
    bp' := Put(buffer, was, at, o, bp', Code(c2 % 64));
    assert o + [Code(D4(c))] == out + Group(a, b, c);
  }

  /** One or two bytes at the end. */
  method EncodeTail(buffer: array<char>, ghost was: string, at: nat, ghost out: string, bp: nat, data: Bytes)
    returns (bp': nat)
    requires 1 <= |data| <= 2 && |was| == buffer.Length && at + |out| == bp && bp + |data| + 1 <= buffer.Length
    requires buffer[..] == Written(was, at, out)
    modifies buffer
    ensures bp' == bp + |Encode(data)| && buffer[..] == Written(was, at, out + Encode(data))
  {
    hide Code, Written;
    var c1: Byte := data[0];
    bp' := Put(buffer, was, at, out, bp, Code(c1 / 4));
    c1 := c1 % 4 * 16;
    ghost var o := out + [Code(D1(data[0]))];
    if |data| == 1 {
      bp' := Put(buffer, was, at, o, bp', Code(c1));
      assert o + [Code(D2(data[0], 0))] == out + Encode(data);
    } else {
      var c2: Byte := data[1];
      c1 := c1 + c2 / 16;
      bp' := Put(buffer, was, at, o, bp', Code(c1));
      o := o + [Code(D2(data[0], c2))];
      c1 := c2 % 16 * 4;
      bp' := Put(buffer, was, at, o, bp', Code(c1));
      assert o + [Code(D3(c2, 0))] == out + Encode(data);
    }
  }

  /** Writes the decoded bytes over the start of the buffer; stops at a character that has no value. */
  method DecodeBase64(buffer: array<Byte>, text: string, from: nat)
    modifies buffer
    ensures buffer[..] == Written(old(buffer[..]), 0, Decode(buffer.Length, text, from))
  {
    hide Written, Char64, At, First, Second, Third;
    ghost var was := buffer[..];
    ghost var out: Bytes := [];
    var bp, p := 0, from;
    WrittenNothing(was, 0);
    var going := true;
    while going && bp < buffer.Length
      invariant bp == |out| <= buffer.Length
      invariant buffer[..] == Written(was, 0, out)
      invariant if going then out + Decode(buffer.Length - bp, text, p) == Decode(buffer.Length, text, from)
                else out == Decode(buffer.Length, text, from)
      decreases buffer.Length - bp, going
    {
      ghost var next := Decode(buffer.Length - bp, text, p);
      ghost var some: Bytes;
      bp, going, some := DecodeGroup(buffer, was, out, bp, text, p);
      if going { Regroup(out, some, Decode(buffer.Length - bp, text, p + 4)); }
      out := out + some;
      p := p + 4;
    }
    assert out + [] == out;
  }

  /** Up to three bytes; whether the loop goes on. */
  method DecodeGroup(buffer: array<Byte>, ghost was: Bytes, ghost out: Bytes, at: nat, text: string, p: nat)
    returns (bp: nat, going: bool, ghost some: Bytes)
    requires |was| == buffer.Length && at == |out| < buffer.Length && buffer[..] == Written(was, 0, out)
    modifies buffer
    ensures bp == at + |some| <= buffer.Length && buffer[..] == Written(was, 0, out + some)
    ensures var n := buffer.Length - at;
            if going then |some| == 3 && Decode(n, text, p) == some + Decode(n - 3, text, p + 4)
            else Decode(n, text, p) == some
  {
    hide Written, Char64, At, First, Second, Third;
    bp, going, some := at, false, [];
    assert out + [] == out;
    var c1, c2 := Char64(At(text, p)), Char64(At(text, p + 1));
    if c1 == 255 || c2 == 255 { return; }
    bp := Put(buffer, was, 0, out, bp, First(c1, c2));
    some := [First(c1, c2)];
    if bp >= buffer.Length { return; }
    var c3 := Char64(At(text, p + 2));
    if c3 == 255 { return; }
    bp := Put(buffer, was, 0, out + some, bp, Second(c2, c3));
    some := [First(c1, c2), Second(c2, c3)];
    assert out + [First(c1, c2)] + [Second(c2, c3)] == out + some;
    if bp >= buffer.Length { return; }
    var c4 := Char64(At(text, p + 3));
    if c4 == 255 { return; }
    bp := Put(buffer, was, 0, out + some, bp, Third(c3, c4));
    some := [First(c1, c2), Second(c2, c3), Third(c3, c4)];
    assert out + [First(c1, c2), Second(c2, c3)] + [Third(c3, c4)] == out + some;
    going := true;
  }

  // ---- The header ----

  /** A string and the zero behind it. */
  method WriteString(buffer: array<char>, at: nat, s: string)
    requires at + |s| + 1 <= buffer.Length
    modifies buffer
    ensures buffer[..] == Written(old(buffer[..]), at, s + [NUL])
  {
    hide Written;
    ghost var was := buffer[..];
    WrittenNothing(was, at);
    var bp, k := at, 0;
    while k < |s|
      invariant k <= |s| && bp == at + k && buffer[..] == Written(was, at, s[..k])
    {
      bp := Put(buffer, was, at, s[..k], bp, s[k]);
      assert s[..k] + [s[k]] == s[..k + 1];
      k := k + 1;
    }
    assert s[..k] == s;
    bp := Put(buffer, was, at, s, bp, NUL);
  }

  /** Text that ends where a zero was written is written over by what comes next. */
  lemma OverZero(was: string, at: nat, s: string, more: string)
    requires at + |s| + |more| <= |was| && |more| > 0
    ensures |Written(was, at, s + [NUL])| == |was|
    ensures Written(Written(was, at, s + [NUL]), at + |s|, more) == Written(was, at, s + more)
  {
    var w := Written(was, at, s + [NUL]);
    assert w[..at + |s|] == was[..at] + s && w[at + |s| + |more|..] == was[at + |s| + |more|..];
  }

  /** The buffer starts with s and a zero behind it. */
  ghost predicate IsCString(buffer: string, s: string) {
    |s| < |buffer| && buffer[..|s|] == s && buffer[|s|] == NUL
  }

  lemma WrittenIsCString(was: string, s: string)
    requires |s| < |was|
    ensures IsCString(Written(was, 0, s + [NUL]), s)
  {
  }

  /** The header and the salt, as a C string at the start of the buffer. */
  method EncodeSalt(salt: array<char>, csalt: Salt, minor: char, logr: nat)
    requires salt.Length >= 30 && minor != NUL
    modifies salt
    ensures IsCString(salt[..], Prefix(minor, logr % 32) + Encode(csalt))
  {
    ghost var was, p := salt[..], Prefix(minor, logr % 32);
    PrefixText(minor, logr % 32);
    EncodeLength(csalt);
    hide Prefix, Written, Encode;
    EncodeHeader(salt, minor, logr);
    EncodeBase64(salt, 7, csalt);
    OverZero(was, 0, p, Encode(csalt) + [NUL]);
    Regroup(p, Encode(csalt), [NUL]);
    WrittenIsCString(was, p + Encode(csalt));
  }

  method EncodeHeader(salt: array<char>, minor: char, logr: nat)
    requires salt.Length >= 8 && minor != NUL && |Prefix(minor, logr % 32)| == 7
    modifies salt
    ensures salt[..] == Written(old(salt[..]), 0, Prefix(minor, logr % 32) + [NUL])
  {
    ghost var was := salt[..];
    hide Written, TwoDigits;
    WrittenNothing(was, 0);
    var bp := Put(salt, was, 0, "", 0, '$');
    bp := Put(salt, was, 0, "$", bp, '2');
    bp := Put(salt, was, 0, "$2", bp, minor);
    bp := Put(salt, was, 0, "$2" + [minor], bp, '$');
    ghost var start := "$2" + [minor] + "$";
    WriteString(salt, bp, TwoDigits(logr % 32) + "$");
    WriteMore(was, 0, start, TwoDigits(logr % 32) + "$" + [NUL]);
    assert start + (TwoDigits(logr % 32) + "$" + [NUL]) == Prefix(minor, logr % 32) + [NUL];
  }

  method BcryptGensalt(minor: char, rounds: nat, seed: Salt, gsalt: array<char>)
    requires gsalt.Length >= 30 && minor != NUL
    modifies gsalt
    ensures IsCString(gsalt[..], GenSalt(minor, rounds, seed))
  {
    var logRounds := rounds % 256;
    if logRounds < 4 {
      logRounds := 4;
    } else if logRounds > 31 {
      logRounds := 31;
    }
    assert logRounds == Clamp(rounds) && logRounds % 32 == logRounds;
    hide IsCString, Prefix, Encode, Clamp;
    EncodeSalt(gsalt, seed, minor, logRounds);
  }

  // ---- The hash ----

  function Zeros(n: nat): string { seq(n, _ => NUL) }

  /** encrypted holds s and then zeros. */
  ghost predicate HoldsOnly(encrypted: string, s: string) {
    |s| < |encrypted| && encrypted == s + Zeros(|encrypted| - |s|)
  }

  lemma WrittenOverZeros(n: nat, s: string, more: string)
    requires |s| + |more| < n
    ensures HoldsOnly(Written(s + Zeros(n - |s|), |s|, more + [NUL]), s + more)
  {
    assert s + more + [NUL] + Zeros(n - |s + more| - 1) == s + more + Zeros(n - |s + more|);
  }

  lemma StrLenIs(text: string, i: nat, n: nat)
    requires i <= n && (forall j :: i <= j < n ==> At(text, j) != NUL) && At(text, n) == NUL
    ensures StrLen(text, i) == n - i
    decreases n - i
  {
    if i < n {
      assert At(text, i) != NUL;
      StrLenIs(text, i + 1, n);
    }
  }

  lemma LengthOfHeld(encrypted: string, s: string)
    requires HoldsOnly(encrypted, s) && forall k :: 0 <= k < |s| ==> s[k] != NUL
    ensures StrLen(encrypted, 0) == |s|
  {
    StrLenIs(encrypted, 0, |s|);
  }

  method Append(encrypted: array<char>, ghost held: string, s: string) returns (length: nat)
    requires HoldsOnly(encrypted[..], held) && |held| + |s| < encrypted.Length
    requires (forall k :: 0 <= k < |held| ==> held[k] != NUL) && (forall k :: 0 <= k < |s| ==> s[k] != NUL)
    modifies encrypted
    ensures HoldsOnly(encrypted[..], held + s) && length == |held + s|
  {
    LengthOfHeld(encrypted[..], held);
    WrittenOverZeros(encrypted.Length, held, s);
    hide Written, HoldsOnly, Zeros;
    length := StrLen(encrypted[..], 0);
    WriteString(encrypted, length, s);
    length := length + |s|;
  }

  lemma NoZeros(minor: char, cost: nat, data: Bytes)
    requires cost < 32
    ensures forall k :: 0 <= k < |Prefix(minor, cost)| ==> Prefix(minor, cost)[k] != NUL
    ensures forall k :: 0 <= k < |Encode(data)| ==> Encode(data)[k] != NUL
  {
    EncodeLength(data);
  }

  lemma NoZerosConcat(s: string, t: string)
    requires (forall k :: 0 <= k < |s| ==> s[k] != NUL) && (forall k :: 0 <= k < |t| ==> t[k] != NUL)
    ensures forall k :: 0 <= k < |s + t| ==> (s + t)[k] != NUL
  {
  }

  /** Reads the header of a salt or a hash; false where the program gives up. */
  method ReadHeader(text: string, before: array<Byte>) returns (ok: bool, minor: char, logr: nat)
    requires before.Length == 16
    modifies before
    ensures match Parse(text, old(before[..]))
            case Malformed => !ok
            case Header(m, cost, salt) => ok && minor == m && logr == cost && before[..] == salt
  {
    hide Decode, Atoi, StrLen, At;
    ok, minor, logr := false, NUL, 0;
    var salt := 1;
    if '2' < At(text, salt) && At(text, salt) as int < 128 { return; }
    if At(text, salt + 1) != '$' {
      if At(text, salt + 1) == 'a' || At(text, salt + 1) == 'b' {
        minor := At(text, salt + 1);
        salt := salt + 1;
      } else {
        return;
      }
    }
    salt := salt + 2;
    if At(text, salt + 2) != '$' { return; }
    var n := Atoi(text, salt);
    if n > 31 || n < 0 { return; }
    if n < 4 { return; }
    logr := n;
    salt := salt + 3;
    if StrLen(text, salt) * 3 / 4 < 16 { return; }
    DecodeBase64(before, text, salt);
    ok := true;
  }

  method NodeBcrypt(key: Bytes, salt: string, csalt: array<Byte>, cipher: Cipher, encrypted: array<char>)
    requires encrypted.Length == 61 && encrypted[..] == Zeros(61) && csalt.Length == 16
    modifies encrypted, csalt
    ensures encrypted[..60] == Padded(Hash(key, salt, old(csalt[..]), cipher))
  {
    ghost var h := Hash(key, salt, csalt[..], cipher);
    var ok, minor, logr := ReadHeader(salt, csalt);
    assert HoldsOnly(encrypted[..], "");
    if !ok {
      var n := Append(encrypted, "", ERROR);
      assert "" + ERROR == h;
      CutTo60(encrypted[..], h);
      return;
    }
    hide HoldsOnly, Parse;
    var ciphertext := cipher(logr, csalt[..], KeyOf(key, minor));
    WriteHash(encrypted, minor, logr, csalt[..], ciphertext);
    assert h == Prefix(minor, logr % 32) + Encode(csalt[..]) + Encode(ciphertext[..23]);
    CutTo60(encrypted[..], h);
  }

  lemma CutTo60(encrypted: string, h: string)
    requires |encrypted| == 61 && HoldsOnly(encrypted, h)
    ensures encrypted[..60] == Padded(h)
  {
  }

  method WriteHash(encrypted: array<char>, minor: char, logr: nat, salt: Salt, ciphertext: Ciphertext)
    requires encrypted.Length == 61 && encrypted[..] == Zeros(61) && logr < 32
    modifies encrypted
    ensures HoldsOnly(encrypted[..], Prefix(minor, logr % 32) + Encode(salt) + Encode(ciphertext[..23]))
  {
    ghost var p := Prefix(minor, logr % 32);
    PrefixText(minor, logr % 32);
    NoZeros(minor, logr % 32, salt);
    NoZeros(minor, logr % 32, ciphertext[..23]);
    EncodeLength(salt);
    EncodeLength(ciphertext[..23]);
    assert HoldsOnly(encrypted[..], "");
    hide HoldsOnly, Encode, TwoDigits;
    var head := "$2" + (if minor == NUL then "" else [minor]) + "$";
    assert head + (TwoDigits(logr % 32) + "$") == p;
    var i := Append(encrypted, "", head);
    assert "" + head == head;
    i := Append(encrypted, head, TwoDigits(logr % 32) + "$");
    AppendBase64(encrypted, p, salt);
    NoZerosConcat(p, Encode(salt));
    AppendBase64(encrypted, p + Encode(salt), ciphertext[..23]);
  }

  /** Encodes data behind what the buffer holds. */
  method AppendBase64(encrypted: array<char>, ghost held: string, data: Bytes)
    requires HoldsOnly(encrypted[..], held) && |held| + |Encode(data)| < encrypted.Length
    requires forall k :: 0 <= k < |held| ==> held[k] != NUL
    modifies encrypted
    ensures HoldsOnly(encrypted[..], held + Encode(data))
  {
    LengthOfHeld(encrypted[..], held);
    WrittenOverZeros(encrypted.Length, held, Encode(data));
    hide Written, HoldsOnly, Zeros;
    EncodeBase64(encrypted, StrLen(encrypted[..], 0), data);
  }

  lemma SaltHasNoZeros(rounds: nat, seed: Salt)
    ensures forall k :: 0 <= k < |GenSalt('b', rounds, seed)| ==> GenSalt('b', rounds, seed)[k] != NUL
  {
    NoZeros('b', Clamp(rounds), seed);
    hide Prefix, Encode;
    NoZerosConcat(Prefix('b', Clamp(rounds)), Encode(seed));
  }

  /** The whole of making a hash, with the random bytes given. */
  method GenerateHashOf(password: Bytes, rounds: nat, seed: Salt, salt: array<char>, csalt: array<Byte>, cipher: Cipher)
    returns (hash: string)
    requires salt.Length == 32 && csalt.Length == 16
    modifies salt, csalt
    ensures hash == GenerateHash(password, rounds, seed, old(csalt[..]), cipher)
  {
    hide Padded, Hash, GenSalt, IsCString;
    BcryptGensalt('b', rounds, seed, salt);
    SaltHasNoZeros(rounds, seed);
    TextOfCString(salt[..], GenSalt('b', rounds, seed));
    var got := new char[61](_ => NUL);
    assert got[..] == Zeros(61);
    NodeBcrypt(password, salt[..StrLen(salt[..], 0)], csalt, cipher, got);
    hash := got[..60];
  }

  method ValidatePasswordAgainst(password: Bytes, hash: string, csalt: array<Byte>, cipher: Cipher)
    returns (valid: bool)
    requires csalt.Length == 16
    modifies csalt
    ensures valid == ValidatePassword(password, hash, old(csalt[..]), cipher)
  {
    hide Padded, Hash;
    var got := new char[61](_ => NUL);
    assert got[..] == Zeros(61);
    NodeBcrypt(password, hash, csalt, cipher, got);
    valid := hash == got[..60];
  }

  lemma TextOfCString(buffer: string, s: string)
    requires IsCString(buffer, s) && forall k :: 0 <= k < |s| ==> s[k] != NUL
    ensures StrLen(buffer, 0) == |s| <= |buffer| && buffer[..StrLen(buffer, 0)] == s
  {
    forall j | 0 <= j < |s| ensures At(buffer, j) != NUL { assert buffer[j] == buffer[..|s|][j]; }
    StrLenIs(buffer, 0, |s|);
  }
}
