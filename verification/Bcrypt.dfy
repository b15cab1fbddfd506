/**
 The text format of bcrypt hashes.  A char stands for one byte.  The cipher is any function of cost, salt and key;
 what is proved is that the header, the cost and the salt survive every print and parse, so that a password always
 validates against its own hash.
 */
module Bcrypt {
  import opened Wrappers

  type Byte = b: int | 0 <= b < 256
  type Bytes = seq<Byte>
  type Salt = s: Bytes | |s| == 16 witness seq(16, _ => 0)
  type Ciphertext = t: Bytes | |t| == 24 witness seq(24, _ => 0)

  /** From cost, salt and key to 24 bytes. */
  type Cipher = (nat, Salt, Bytes) -> Ciphertext

  const NUL := '\0'

  // ---- Base 64 ----

  type Digit = d: int | 0 <= d < 64

  function Code(d: Digit): char {
    if d < 2 then '.' + d as char
    else if d < 28 then 'A' + (d - 2) as char
    else if d < 54 then 'a' + (d - 28) as char
    else '0' + (d - 54) as char
  }

  /** The value of a character, 255 if it has none. */
  function Char64(c: char): Byte {
    if '.' <= c <= '/' then (c - '.') as int
    else if '0' <= c <= '9' then (c - '0') as int + 54
    else if 'A' <= c <= 'Z' then (c - 'A') as int + 2
    else if 'a' <= c <= 'z' then (c - 'a') as int + 28
    else 255
  }

  lemma CodeReadsBack(d: Digit)
    ensures Char64(Code(d)) == d && Code(d) != NUL
  {
  }

  function D1(a: Byte): Digit { a / 4 }

  function D2(a: Byte, b: Byte): Digit { a % 4 * 16 + b / 16 }

  function D3(b: Byte, c: Byte): Digit { b % 16 * 4 + c / 64 }

  function D4(c: Byte): Digit { c % 64 }

  /** Three bytes as four characters; the last group may be shorter. */
  function Encode(data: Bytes): string {
    if data == [] then ""
    else if |data| == 1 then [Code(D1(data[0])), Code(D2(data[0], 0))]
    else if |data| == 2 then [Code(D1(data[0])), Code(D2(data[0], data[1])), Code(D3(data[1], 0))]
    else Group(data[0], data[1], data[2]) + Encode(data[3..])
  }

  function Group(a: Byte, b: Byte, c: Byte): string {
    [Code(D1(a)), Code(D2(a, b)), Code(D3(b, c)), Code(D4(c))]
  }

  /** A C string: the characters, then zeros. */
  function At(text: string, i: nat): char { if i < |text| then text[i] else NUL }

  /** At most n bytes, up to the first character that has no value. */
  function Decode(n: nat, text: string, i: nat): (r: Bytes)
    ensures |r| <= n
  {
    if n == 0 then []
    else
      var c1, c2 := Char64(At(text, i)), Char64(At(text, i + 1));
      var c3, c4 := Char64(At(text, i + 2)), Char64(At(text, i + 3));
      if c1 == 255 || c2 == 255 then []
      else
        var b1 := First(c1, c2);
        if n == 1 || c3 == 255 then [b1]
        else
          var b2 := Second(c2, c3);
          if n == 2 || c4 == 255 then [b1, b2] else [b1, b2, Third(c3, c4)] + Decode(n - 3, text, i + 4)
  }

  function First(c1: Byte, c2: Byte): Byte { c1 * 4 % 256 + c2 / 16 % 4 }

  function Second(c2: Byte, c3: Byte): Byte { c2 % 16 * 16 + c3 / 4 % 16 }

  function Third(c3: Byte, c4: Byte): Byte { c3 % 4 * 64 + c4 % 64 }

  lemma FirstReadsBack(a: Byte, b: Byte)
    ensures First(D1(a), D2(a, b)) == a
  {
    assert (a % 4 * 16 + b / 16) / 16 == a % 4;
  }

  lemma SecondReadsBack(a: Byte, b: Byte, c: Byte)
    ensures Second(D2(a, b), D3(b, c)) == b
  {
    assert (a % 4 * 16 + b / 16) % 16 == b / 16;
    assert (b % 16 * 4 + c / 64) / 4 == b % 16;
  }

  lemma ThirdReadsBack(b: Byte, c: Byte)
    ensures Third(D3(b, c), D4(c)) == c
  {
    assert (b % 16 * 4 + c / 64) % 4 == c / 64;
  }

  lemma {:induction false} EncodeLength(data: Bytes)
    ensures |Encode(data)| == (4 * |data| + 2) / 3
    ensures forall k :: 0 <= k < |Encode(data)| ==> Encode(data)[k] != NUL
  {
    if |data| >= 3 { EncodeLength(data[3..]); }
  }

  /** text holds s at i. */
  ghost predicate Holds(text: string, i: nat, s: string) {
    forall j :: i <= j < i + |s| ==> At(text, j) == s[j - i]
  }

  /** What the next characters decode to, by their values. */
  lemma DecodeStep(n: nat, text: string, i: nat, c1: Digit, c2: Digit, c3: Digit, c4: Digit)
    requires n > 0 && Char64(At(text, i)) == c1 && Char64(At(text, i + 1)) == c2
    requires n > 1 ==> Char64(At(text, i + 2)) == c3
    requires n > 2 ==> Char64(At(text, i + 3)) == c4
    ensures Decode(n, text, i)
            == if n == 1 then [First(c1, c2)]
               else if n == 2 then [First(c1, c2), Second(c2, c3)]
               else [First(c1, c2), Second(c2, c3), Third(c3, c4)] + Decode(n - 3, text, i + 4)
  {
    hide Char64, At, First, Second, Third;
  }

  lemma HeldValue(text: string, i: nat, s: string, k: nat, d: Digit)
    requires Holds(text, i, s) && k < |s| && s[k] == Code(d)
    ensures Char64(At(text, i + k)) == d
  {
    CodeReadsBack(d);
    assert At(text, i + k) == s[k];
    hide Code, Char64, At;
  }

  /** Decoding as many bytes as were encoded gives them back, whatever follows. */
  lemma {:induction false} DecodeEncode(data: Bytes, text: string, i: nat)
    requires Holds(text, i, Encode(data))
    ensures Decode(|data|, text, i) == data
    decreases |data|
  {
    hide Char64, Code, At, First, Second, Third, D1, D2, D3, D4;
    if |data| == 1 {
      DecodeOne(data[0], text, i);
    } else if |data| == 2 {
      DecodeTwo(data[0], data[1], text, i);
    } else if |data| >= 3 {
      DecodeThree(data, text, i);
      HoldsRest(data, text, i);
      hide Encode, Decode, Holds;
      DecodeEncode(data[3..], text, i + 4);
      assert [data[0], data[1], data[2]] + data[3..] == data;
    }
  }

  lemma DecodeOne(a: Byte, text: string, i: nat)
    requires Holds(text, i, [Code(D1(a)), Code(D2(a, 0))])
    ensures Decode(1, text, i) == [a]
  {
    hide Char64, Code, At, First, Second, Third, D1, D2, D3, D4;
    var s := [Code(D1(a)), Code(D2(a, 0))];
    HeldValue(text, i, s, 0, D1(a));
    HeldValue(text, i, s, 1, D2(a, 0));
    DecodeStep(1, text, i, D1(a), D2(a, 0), 0, 0);
    FirstReadsBack(a, 0);
  }

  lemma DecodeTwo(a: Byte, b: Byte, text: string, i: nat)
    requires Holds(text, i, [Code(D1(a)), Code(D2(a, b)), Code(D3(b, 0))])
    ensures Decode(2, text, i) == [a, b]
  {
    hide Char64, Code, At, First, Second, Third, D1, D2, D3, D4;
    var s := [Code(D1(a)), Code(D2(a, b)), Code(D3(b, 0))];
    HeldValue(text, i, s, 0, D1(a));
    HeldValue(text, i, s, 1, D2(a, b));
    HeldValue(text, i, s, 2, D3(b, 0));
    DecodeStep(2, text, i, D1(a), D2(a, b), D3(b, 0), 0);
    FirstReadsBack(a, b);
    SecondReadsBack(a, b, 0);
  }

  lemma DecodeThree(data: Bytes, text: string, i: nat)
    requires |data| >= 3 && Holds(text, i, Encode(data))
    ensures Decode(|data|, text, i) == [data[0], data[1], data[2]] + Decode(|data| - 3, text, i + 4)
  {
    hide Char64, Code, At, First, Second, Third, D1, D2, D3, D4, Decode;
    var a, b, c := data[0], data[1], data[2];
    var s := Encode(data);
    assert s == Group(a, b, c) + Encode(data[3..]);
    HeldValue(text, i, s, 0, D1(a));
    HeldValue(text, i, s, 1, D2(a, b));
    HeldValue(text, i, s, 2, D3(b, c));
    HeldValue(text, i, s, 3, D4(c));
    DecodeStep(|data|, text, i, D1(a), D2(a, b), D3(b, c), D4(c));
    FirstReadsBack(a, b);
    SecondReadsBack(a, b, c);
    ThirdReadsBack(b, c);
  }

  lemma HoldsRest(data: Bytes, text: string, i: nat)
    requires |data| >= 3 && Holds(text, i, Encode(data))
    ensures Holds(text, i + 4, Encode(data[3..]))
  {
    hide At, Code, D1, D2, D3, D4;
    var rest := Encode(data[3..]);
    assert Encode(data) == Group(data[0], data[1], data[2]) + rest;
    forall j | i + 4 <= j < i + 4 + |rest| ensures At(text, j) == rest[j - i - 4] {
      assert At(text, j) == Encode(data)[j - i];
    }
  }

  // ---- The header ----

  function TwoDigits(n: nat): string
    requires n < 32
  {
    ['0' + (n / 10) as char, '0' + (n % 10) as char]
  }

  predicate IsSpace(c: char) { c == ' ' || '\t' <= c <= '\r' }

  predicate IsDigit(c: char) { '0' <= c <= '9' }

  /** The number that the digits from i on stand for, after acc. */
  function Digits(text: string, i: nat, acc: nat): nat
    decreases |text| - i
  {
    if i < |text| && IsDigit(text[i]) then Digits(text, i + 1, acc * 10 + (text[i] - '0') as int) else acc
  }

  /** atoi. */
  function Atoi(text: string, i: nat): int
    decreases |text| - i
  {
    if i < |text| && IsSpace(text[i]) then Atoi(text, i + 1)
    else if At(text, i) == '-' then -(Digits(text, i + 1, 0) as int)
    else if At(text, i) == '+' then Digits(text, i + 1, 0)
    else Digits(text, i, 0)
  }

  function StrLen(text: string, i: nat): nat
    decreases |text| - i
  {
    if i < |text| && text[i] != NUL then 1 + StrLen(text, i + 1) else 0
  }

  /** minor is NUL when the header names none. */
  datatype Parsed = Header(minor: char, cost: nat, salt: Salt) | Malformed

  /** Where the cost stands. */
  function CostAt(text: string): Option<nat> {
    if '2' < At(text, 1) && At(text, 1) as int < 128 then None
    else if At(text, 2) == '$' then Some(3)
    else if At(text, 2) == 'a' || At(text, 2) == 'b' then Some(4)
    else None
  }

  /** before is what the salt buffer held: a salt with a bad character is decoded only up to it. */
  function Parse(text: string, before: Salt): Parsed {
    var at := CostAt(text);
    if at.None? || At(text, at.value + 2) != '$' then Malformed
    else
      var s := at.value;
      var n := Atoi(text, s);
      if n > 31 || n < 4 || StrLen(text, s + 3) * 3 / 4 < 16 then Malformed
      else
        var salt := Decode(16, text, s + 3);
        Header(if s == 3 then NUL else At(text, 2), n, salt + before[|salt|..])
  }

  /** The bytes of the password that count, with the zero behind them. */
  function KeyOf(password: Bytes, minor: char): Bytes {
    var n := |password|;
    if minor == NUL then password[..n % 256]
    else if minor == 'a' then (password + [0])[..(n + 1) % 256]
    else (password + [0])[..(if n > 72 then 72 else n) + 1]
  }

  function Prefix(minor: char, cost: nat): string
    requires cost < 32
  {
    "$2" + (if minor == NUL then "" else [minor]) + "$" + TwoDigits(cost) + "$"
  }

  const ERROR := ":"

  function Hash(password: Bytes, text: string, before: Salt, cipher: Cipher): string {
    match Parse(text, before)
    case Malformed => ERROR
    case Header(minor, cost, salt) =>
      Prefix(minor, cost % 32) + Encode(salt) + Encode(cipher(cost, salt, KeyOf(password, minor))[..23])
  }

  // ---- Making and checking hashes ----

  /** The cost goes through a byte, then into 4 to 31. */
  function Clamp(rounds: nat): nat {
    var r := rounds % 256;
    if r < 4 then 4 else if r > 31 then 31 else r
  }

  function GenSalt(minor: char, rounds: nat, seed: Salt): string { Prefix(minor, Clamp(rounds)) + Encode(seed) }

  /** A buffer of 61 zeros, written to and cut to 60. */
  function Padded(s: string): string {
    if |s| >= 60 then s[..60] else s + seq(60 - |s|, _ => NUL)
  }

  function GenerateHash(password: Bytes, rounds: nat, seed: Salt, before: Salt, cipher: Cipher): string {
    Padded(Hash(password, GenSalt('b', rounds, seed), before, cipher))
  }

  predicate ValidatePassword(password: Bytes, hash: string, before: Salt, cipher: Cipher) {
    hash == Padded(Hash(password, hash, before, cipher))
  }

  /** A header that was printed, followed by the salt and anything else, parses back. */
  lemma ParsePrinted(minor: char, cost: nat, salt: Salt, rest: string, before: Salt)
    requires (minor == NUL || minor == 'a' || minor == 'b') && 4 <= cost < 32
    ensures Parse(Prefix(minor, cost) + Encode(salt) + rest, before) == Header(minor, cost, salt)
  {
    var text := Prefix(minor, cost) + Encode(salt) + rest;
    var s: nat := if minor == NUL then 3 else 4;
    PrintedText(minor, cost, salt, rest);
    CostReadsBack(text, s, cost);
    DecodeEncode(salt, text, s + 3);
    LongEnough(text, s + 3, 22);
    hide Prefix, Encode, Holds, Atoi, StrLen, TwoDigits, Decode;
    assert salt + before[16..] == salt;
  }

  lemma PrintedText(minor: char, cost: nat, salt: Salt, rest: string)
    requires (minor == NUL || minor == 'a' || minor == 'b') && cost < 32
    ensures var text := Prefix(minor, cost) + Encode(salt) + rest;
            var s: nat := if minor == NUL then 3 else 4;
            && At(text, 1) == '2' && At(text, s - 1) == '$' && At(text, s + 2) == '$'
            && At(text, s) == TwoDigits(cost)[0] && At(text, s + 1) == TwoDigits(cost)[1]
            && (minor != NUL ==> At(text, 2) == minor)
            && Holds(text, s + 3, Encode(salt))
            && forall j :: s + 3 <= j < s + 25 ==> At(text, j) != NUL
  {
    var text := Prefix(minor, cost) + Encode(salt) + rest;
    var p := Prefix(minor, cost);
    var s: nat := if minor == NUL then 3 else 4;
    EncodeLength(salt);
    PrefixText(minor, cost);
    hide Prefix, Encode, TwoDigits;
    assert forall j :: 0 <= j < |p| ==> text[j] == p[j];
    assert forall j :: s + 3 <= j < s + 25 ==> text[j] == Encode(salt)[j - s - 3];
  }

  lemma PrefixText(minor: char, cost: nat)
    requires cost < 32
    ensures var p := Prefix(minor, cost);
            var s := if minor == NUL then 3 else 4;
            && |p| == s + 3 && p[0] == '$' && p[1] == '2' && p[s - 1] == '$' && p[s + 2] == '$'
            && p[s] == TwoDigits(cost)[0] && p[s + 1] == TwoDigits(cost)[1]
            && (minor != NUL ==> p[2] == minor)
  {
  }

  lemma CostReadsBack(text: string, s: nat, cost: nat)
    requires cost < 32
    requires At(text, s) == TwoDigits(cost)[0] && At(text, s + 1) == TwoDigits(cost)[1] && At(text, s + 2) == '$'
    ensures Atoi(text, s) == cost
  {
    var a, b := cost / 10, cost % 10;
    assert text[s] == '0' + a as char && text[s + 1] == '0' + b as char && text[s + 2] == '$';
    assert Digits(text, s + 2, a * 10 + b) == a * 10 + b;
    assert Digits(text, s + 1, a) == Digits(text, s + 2, a * 10 + b);
    assert Digits(text, s, 0) == Digits(text, s + 1, a);
  }

  lemma {:induction false} LongEnough(text: string, i: nat, n: nat)
    requires forall j :: i <= j < i + n ==> At(text, j) != NUL
    ensures StrLen(text, i) >= n
    decreases n
  {
    if n > 0 {
      assert At(text, i) != NUL;
      LongEnough(text, i + 1, n - 1);
    }
  }

  /** A generated hash has 60 characters and holds the clamped cost and the seed, as the bare salt does. */
  lemma GeneratedHash(password: Bytes, rounds: nat, seed: Salt, before: Salt, cipher: Cipher)
    ensures var hash := GenerateHash(password, rounds, seed, before, cipher);
            && |hash| == 60
            && hash == Prefix('b', Clamp(rounds)) + Encode(seed)
                       + Encode(cipher(Clamp(rounds), seed, KeyOf(password, 'b'))[..23])
            && Parse(hash, before) == Header('b', Clamp(rounds), seed)
            && Parse(GenSalt('b', rounds, seed), before) == Header('b', Clamp(rounds), seed)
  {
    var cost := Clamp(rounds);
    HashText(cost, seed, cipher(cost, seed, KeyOf(password, 'b'))[..23], before);
    hide Encode, Prefix, Parse, KeyOf, Clamp, Padded, Hash;
    HashFrom(password, GenSalt('b', rounds, seed), before, cipher, cost, seed);
    FullLength(Hash(password, GenSalt('b', rounds, seed), before, cipher));
  }

  /** What is asked for: 4 to 31. */
  function Intended(rounds: nat): nat { if rounds < 4 then 4 else if rounds > 31 then 31 else rounds }

  lemma ClampLoses(rounds: nat)
    ensures Clamp(rounds) == Intended(rounds) <==> rounds < 256 || rounds % 256 >= 31
    ensures Clamp(260) == 4 && Intended(260) == 31
  {
  }

  /** The byte in front of the limits loses round counts: a hash has the cost that was asked for exactly if the count
      fits a byte or its low byte is 31 or more.  260 rounds make a hash of cost 4. */
  lemma RoundsThroughAByte(password: Bytes, rounds: nat, seed: Salt, before: Salt, cipher: Cipher)
    ensures Parse(GenerateHash(password, rounds, seed, before, cipher), before) == Header('b', Intended(rounds), seed)
            <==> rounds < 256 || rounds % 256 >= 31
    ensures Parse(GenerateHash(password, 260, seed, before, cipher), before) == Header('b', 4, seed)
    ensures Intended(260) == 31
  {
    ClampLoses(rounds);
    ClampLoses(260);
    hide *;
    GeneratedHash(password, rounds, seed, before, cipher);
    GeneratedHash(password, 260, seed, before, cipher);
  }

  lemma HashText(cost: nat, seed: Salt, last: Bytes, before: Salt)
    requires 4 <= cost < 32 && |last| == 23
    ensures Parse(Prefix('b', cost) + Encode(seed), before) == Header('b', cost, seed)
    ensures Parse(Prefix('b', cost) + Encode(seed) + Encode(last), before) == Header('b', cost, seed)
    ensures |Prefix('b', cost) + Encode(seed) + Encode(last)| == 60
  {
    Lengths(cost, seed, last);
    ParsePrinted('b', cost, seed, "", before);
    ParsePrinted('b', cost, seed, Encode(last), before);
    hide Encode, Prefix, Parse;
    var head := Prefix('b', cost) + Encode(seed);
    assert head + "" == head;
  }

  lemma Lengths(cost: nat, seed: Salt, last: Bytes)
    requires cost < 32 && |last| == 23
    ensures |Prefix('b', cost)| == 7 && |Encode(seed)| == 22 && |Encode(last)| == 31
  {
    EncodeLength(seed);
    EncodeLength(last);
    PrefixText('b', cost);
  }

  lemma HashFrom(password: Bytes, text: string, before: Salt, cipher: Cipher, cost: nat, salt: Salt)
    requires Parse(text, before) == Header('b', cost, salt) && cost < 32
    ensures Hash(password, text, before, cipher)
            == Prefix('b', cost) + Encode(salt) + Encode(cipher(cost, salt, KeyOf(password, 'b'))[..23])
  {
    hide Encode, Prefix, Parse, KeyOf;
  }

  lemma FullLength(s: string)
    requires |s| == 60
    ensures Padded(s) == s
  {
  }

  /** A password always validates against its own hash, for every round count and seed. */
  lemma OwnHashValidates(password: Bytes, rounds: nat, seed: Salt, before: Salt, before': Salt, cipher: Cipher)
    ensures ValidatePassword(password, GenerateHash(password, rounds, seed, before, cipher), before', cipher)
  {
    GeneratedHash(password, rounds, seed, before, cipher);
    GeneratedHash(password, rounds, seed, before', cipher);
    hide Encode, Prefix, Parse, KeyOf;
    FullLength(GenerateHash(password, rounds, seed, before, cipher));
  }

  /** A wrong password validates exactly when the cipher gives the same first 23 bytes. */
  lemma OtherPasswordValidates(password: Bytes, other: Bytes, rounds: nat, seed: Salt, before: Salt, cipher: Cipher)
    ensures ValidatePassword(other, GenerateHash(password, rounds, seed, before, cipher), before, cipher)
        <==> cipher(Clamp(rounds), seed, KeyOf(other, 'b'))[..23]
             == cipher(Clamp(rounds), seed, KeyOf(password, 'b'))[..23]
  {
    var hash := GenerateHash(password, rounds, seed, before, cipher);
    GeneratedHash(password, rounds, seed, before, cipher);
    GeneratedHash(other, rounds, seed, before, cipher);
    var t := cipher(Clamp(rounds), seed, KeyOf(other, 'b'))[..23];
    var u := cipher(Clamp(rounds), seed, KeyOf(password, 'b'))[..23];
    var head := Prefix('b', Clamp(rounds)) + Encode(seed);
    if Encode(t) == Encode(u) {
      HoldsItself(t);
      HoldsItself(u);
      DecodeEncode(t, Encode(t), 0);
      DecodeEncode(u, Encode(u), 0);
    }
    hide Encode, Prefix, Parse, KeyOf, Decode;
    assert head + Encode(t) == head + Encode(u) ==> (head + Encode(t))[|head|..] == (head + Encode(u))[|head|..];
  }

  lemma HoldsItself(data: Bytes)
    ensures Holds(Encode(data), 0, Encode(data))
  {
  }
}
