/** Base 64 with the two alphabets of RFC 4648, sections 4 and 5.  A char stands for one byte. */
module Base64 {
  import opened Wrappers
  import opened Buffers

  type Byte = b: int | 0 <= b < 256
  type Bytes = seq<Byte>
  type Digit = d: int | 0 <= d < 64

  datatype Alphabet = Standard | UrlSafe

  function Code(d: Digit, key: Alphabet): char {
    if d < 26 then 'A' + d as char
    else if d < 52 then 'a' + (d - 26) as char
    else if d < 62 then '0' + (d - 52) as char
    else if d == 62 then (if key == Standard then '+' else '-')
    else if key == Standard then '/' else '_'
  }

  /** Both alphabets are read; any other character counts as zero. */
  function Key(c: char): Digit {
    if 'A' <= c <= 'Z' then (c - 'A') as int
    else if 'a' <= c <= 'z' then (c - 'a') as int + 26
    else if '0' <= c <= '9' then (c - '0') as int + 52
    else if c == '+' || c == '-' then 62
    else if c == '/' || c == '_' then 63
    else 0
  }

  lemma CodeReadsBack(d: Digit, key: Alphabet)
    ensures Key(Code(d, key)) == d && Code(d, key) != '='
  {
  }

  // ---- Three bytes and four digits ----

  function D1(a: Byte): Digit { a / 4 }

  function D2(a: Byte, b: Byte): Digit { a % 4 * 16 + b / 16 }

  function D3(b: Byte, c: Byte): Digit { b % 16 * 4 + c / 64 }

  function D4(c: Byte): Digit { c % 64 }

  function B1(d1: Digit, d2: Digit): Byte { d1 * 4 + d2 / 16 }

  function B2(d2: Digit, d3: Digit): Byte { d2 % 16 * 16 + d3 / 4 }

  function B3(d3: Digit, d4: Digit): Byte { d3 % 4 * 64 + d4 }

  lemma DigitsReadBack(a: Byte, b: Byte, c: Byte)
    ensures B1(D1(a), D2(a, b)) == a && B2(D2(a, b), D3(b, c)) == b && B3(D3(b, c), D4(c)) == c
  {
    assert (a % 4 * 16 + b / 16) / 16 == a % 4 && (a % 4 * 16 + b / 16) % 16 == b / 16;
    assert (b % 16 * 4 + c / 64) / 4 == b % 16 && (b % 16 * 4 + c / 64) % 4 == c / 64;
  }

  // ---- What is written ----

  function Group(a: Byte, b: Byte, c: Byte, key: Alphabet): (r: string)
    ensures |r| == 4
  {
    [Code(D1(a), key), Code(D2(a, b), key), Code(D3(b, c), key), Code(D4(c), key)]
  }

  /** The characters of the data, without padding. */
  function Body(data: Bytes, key: Alphabet): string {
    if data == [] then ""
    else if |data| == 1 then [Code(D1(data[0]), key), Code(D2(data[0], 0), key)]
    else if |data| == 2 then [Code(D1(data[0]), key), Code(D2(data[0], data[1]), key), Code(D3(data[1], 0), key)]
    else Group(data[0], data[1], data[2], key) + Body(data[3..], key)
  }

  function Padding(n: nat): string { if n % 3 == 0 then "" else if n % 3 == 1 then "==" else "=" }

  function Encode(data: Bytes, key: Alphabet): string { Body(data, key) + Padding(|data|) }

  // ---- What is read ----

  /** The number of bytes, as it is computed before anything is read; negative only for the text "=". */
  function DecodedLength(text: string): int {
    var n := |text|;
    if n % 4 == 2 then n / 4 * 3 + 1
    else if n % 4 == 3 then n / 4 * 3 + 2
    else if n >= 2 && text[n - 2] == '=' then n / 4 * 3 - 2
    else if n >= 1 && text[n - 1] == '=' then n / 4 * 3 - 1
    else n / 4 * 3
  }

  /** The characters that n bytes are read from. */
  function Needed(n: nat): nat { n / 3 * 4 + (if n % 3 == 0 then 0 else n % 3 + 1) }

  /** n bytes from the characters at i on. */
  function Read(text: string, i: nat, n: nat): (r: Bytes)
    requires i + Needed(n) <= |text|
    ensures |r| == n
    decreases n
  {
    if n == 0 then []
    else if n == 1 then [B1(Key(text[i]), Key(text[i + 1]))]
    else if n == 2 then [B1(Key(text[i]), Key(text[i + 1])), B2(Key(text[i + 1]), Key(text[i + 2]))]
    else
      assert Needed(n) == Needed(n - 3) + 4;
      [B1(Key(text[i]), Key(text[i + 1])), B2(Key(text[i + 1]), Key(text[i + 2])),
       B3(Key(text[i + 2]), Key(text[i + 3]))]
      + Read(text, i + 4, n - 3)
  }

  /** No read leaves the text, for any text. */
  lemma ReadsStayInside(text: string)
    requires DecodedLength(text) >= 0
    ensures Needed(DecodedLength(text)) <= |text|
  {
    var n := |text|;
    assert n == n / 4 * 4 + n % 4;
  }

  /** None where the computed length is negative, which the program takes for a huge one and throws. */
  function Decode(text: string): Option<Bytes> {
    if DecodedLength(text) < 0 then None
    else
      ReadsStayInside(text);
      Some(Read(text, 0, DecodedLength(text)))
  }

  lemma OnlyOneTextFails(text: string)
    ensures Decode(text) == None <==> text == "="
  {
    var n := |text|;
    assert n == n / 4 * 4 + n % 4;
    if n % 4 < 2 && n > 1 { assert n / 4 >= 1; }
  }

  // ---- Round trip ----

  lemma {:induction false} BodyShape(data: Bytes, key: Alphabet)
    ensures |Body(data, key)| == Needed(|data|)
    ensures forall k :: 0 <= k < |Body(data, key)| ==> Body(data, key)[k] != '='
  {
    hide D1, D2, D3, D4, Code;
    CodesAreNotPadding(key);
    if |data| >= 3 {
      BodyShape(data[3..], key);
      assert Needed(|data|) == Needed(|data| - 3) + 4;
    }
  }

  lemma CodesAreNotPadding(key: Alphabet)
    ensures forall d: Digit :: Code(d, key) != '='
  {
  }

  /** text has s at i. */
  ghost predicate Has(text: string, i: nat, s: string) {
    i + |s| <= |text| && forall j :: i <= j < i + |s| ==> text[j] == s[j - i]
  }

  lemma {:induction false} ReadBody(data: Bytes, key: Alphabet, text: string, i: nat)
    requires Has(text, i, Body(data, key))
    ensures i + Needed(|data|) <= |text| && Read(text, i, |data|) == data
    decreases |data|
  {
    BodyShape(data, key);
    hide D1, D2, D3, D4, B1, B2, B3, Code, Key;
    var s := Body(data, key);
    if |data| == 1 {
      CodeAt(text, i, s, 0, D1(data[0]), key);
      CodeAt(text, i, s, 1, D2(data[0], 0), key);
      DigitsReadBack(data[0], 0, 0);
    } else if |data| == 2 {
      CodeAt(text, i, s, 0, D1(data[0]), key);
      CodeAt(text, i, s, 1, D2(data[0], data[1]), key);
      CodeAt(text, i, s, 2, D3(data[1], 0), key);
      DigitsReadBack(data[0], data[1], 0);
    } else if |data| >= 3 {
      ReadGroup(data, key, text, i);
      hide Body, Read, Needed;
      ReadBody(data[3..], key, text, i + 4);
      assert [data[0], data[1], data[2]] + data[3..] == data;
    }
  }

  lemma CodeAt(text: string, i: nat, s: string, k: nat, d: Digit, key: Alphabet)
    requires Has(text, i, s) && k < |s| && s[k] == Code(d, key)
    ensures Key(text[i + k]) == d
  {
    CodeReadsBack(d, key);
    assert text[i + k] == s[k];
  }

  lemma ReadGroup(data: Bytes, key: Alphabet, text: string, i: nat)
    requires |data| >= 3 && Has(text, i, Body(data, key))
    ensures Has(text, i + 4, Body(data[3..], key))
    ensures i + Needed(|data|) <= |text| && Needed(|data|) == Needed(|data[3..]|) + 4
    ensures Read(text, i, |data|) == [data[0], data[1], data[2]] + Read(text, i + 4, |data[3..]|)
  {
    BodyShape(data, key);
    hide D1, D2, D3, D4, B1, B2, B3, Code, Key;
    var a, b, c := data[0], data[1], data[2];
    var s := Body(data, key);
    var rest := Body(data[3..], key);
    assert s == Group(a, b, c, key) + rest;
    forall j | i + 4 <= j < i + 4 + |rest| ensures text[j] == rest[j - i - 4] { assert text[j] == s[j - i]; }
    CodeAt(text, i, s, 0, D1(a), key);
    CodeAt(text, i, s, 1, D2(a, b), key);
    CodeAt(text, i, s, 2, D3(b, c), key);
    CodeAt(text, i, s, 3, D4(c), key);
    DigitsReadBack(a, b, c);
    hide Body, Has;
  }

  /** The length of the text is the one that is computed up front. */
  lemma EncodedLength(data: Bytes, key: Alphabet)
    ensures |Encode(data, key)| == (|data| + 2) / 3 * 4
  {
    BodyShape(data, key);
    hide Body;
    assert |data| == |data| / 3 * 3 + |data| % 3;
  }

  lemma LengthsReadBack(data: Bytes, key: Alphabet)
    ensures DecodedLength(Encode(data, key)) == |data| && DecodedLength(Body(data, key)) == |data|
  {
    BodyShape(data, key);
    hide Body;
    var n, body := |data|, Body(data, key);
    assert n == n / 3 * 3 + n % 3;
    assert |body| == n / 3 * 4 + (if n % 3 == 0 then 0 else n % 3 + 1);
    var text := Encode(data, key);
    assert n % 3 == 0 ==> text == body;
    assert n % 3 != 0 ==> |text| == (n / 3 + 1) * 4 && text[|text| - 1] == '=';
    assert n % 3 == 1 ==> text[|text| - 2] == '=';
    assert n % 3 == 2 ==> text[|text| - 2] == body[|body| - 1];
  }

  /** For every byte string and both alphabets decoding undoes encoding, with or without the padding. */
  lemma RoundTrip(data: Bytes, key: Alphabet)
    ensures Decode(Encode(data, key)) == Some(data)
    ensures Decode(Body(data, key)) == Some(data)
  {
    LengthsReadBack(data, key);
    ReadBody(data, key, Encode(data, key), 0);
    ReadBody(data, key, Body(data, key), 0);
    hide Body, Read, DecodedLength;
  }

  // ---- The loops ----

  lemma BodyNext(data: Bytes, p: nat, key: Alphabet)
    requires p + 3 <= |data|
    ensures Body(data[p..], key) == Group(data[p], data[p + 1], data[p + 2], key) + Body(data[p + 3..], key)
  {
    assert data[p..][3..] == data[p + 3..];
    hide Code, D1, D2, D3, D4;
  }

  method Base64Encode(data: Bytes, key: Alphabet) returns (text: string)
    ensures text == Encode(data, key) && |text| == (|data| + 2) / 3 * 4
  {
    EncodedLength(data, key);
    hide Written, Encode, Body;
    var ret := new char[(|data| + 2) / 3 * 4];
    ghost var was := ret[..];
    var it, p, out := EncodeGroups(ret, data, key);
    EncodeTail(ret, was, out, it, data, p, key);
    WholeText(was, Encode(data, key));
    text := ret[..];
  }

  /** The whole groups of three bytes. */
  method EncodeGroups(ret: array<char>, data: Bytes, key: Alphabet) returns (it: nat, p: nat, ghost out: string)
    requires ret.Length == |Encode(data, key)|
    modifies ret
    ensures p <= |data| < p + 3 && p % 3 == 0 && it == |out| <= ret.Length
    ensures out + Body(data[p..], key) == Body(data, key) && ret[..] == Written(old(ret[..]), 0, out)
  {
    hide Code, Written, Group, Encode, Body;
    ghost var was := ret[..];
    var size: nat := |data|;
    out := "";
    WrittenNothing(was, 0);
    it, p := 0, 0;
    assert data[0..] == data;
    assert "" + Body(data, key) == Body(data, key);
    while size >= 3
      invariant p + size == |data| && p % 3 == 0
      invariant it == |out| <= ret.Length && out + Body(data[p..], key) == Body(data, key)
      invariant ret[..] == Written(was, 0, out)
    {
      BodyNext(data, p, key);
      RoomForGroup(data, key, out, data[p], data[p + 1], data[p + 2], Body(data[p + 3..], key));
      it := WriteGroup(ret, was, out, it, data[p], data[p + 1], data[p + 2], key);
      out := out + Group(data[p], data[p + 1], data[p + 2], key);
      p := p + 3;
      size := size - 3;
    }
  }

  /** The last one or two bytes and the padding. */
  method EncodeTail(ret: array<char>, ghost was: string, ghost out: string, it: nat, data: Bytes, p: nat, key: Alphabet)
    requires |was| == ret.Length == |Encode(data, key)| && it == |out| <= ret.Length && ret[..] == Written(was, 0, out)
    requires p <= |data| < p + 3 && p % 3 == 0 && out + Body(data[p..], key) == Body(data, key)
    modifies ret
    ensures ret[..] == Written(was, 0, Encode(data, key))
  {
    TailText(data, p, key, out);
    hide Written, Encode, Body;
    if |data| - p == 1 {
      var end := WriteOne(ret, was, out, it, data[p], key);
    } else if |data| - p == 2 {
      var end := WriteTwo(ret, was, out, it, data[p], data[p + 1], key);
    } else {
      assert out + "" == out;
    }
  }

  lemma RoomForGroup(data: Bytes, key: Alphabet, out: string, a: Byte, b: Byte, c: Byte, rest: string)
    requires out + (Group(a, b, c, key) + rest) == Body(data, key)
    ensures |out| + 4 <= |Encode(data, key)| && out + Group(a, b, c, key) + rest == Body(data, key)
  {
    hide Code, D1, D2, D3, D4;
    assert |out + (Group(a, b, c, key) + rest)| == |out| + 4 + |rest|;
  }

  /** What the last one or two bytes add. */
  lemma TailText(data: Bytes, p: nat, key: Alphabet, out: string)
    requires p <= |data| < p + 3 && p % 3 == 0 && out + Body(data[p..], key) == Body(data, key)
    ensures Encode(data, key) == out + match |data| - p
                                      case 0 => ""
                                      case 1 => OneText(data[p], key)
                                      case _ => TwoText(data[p], data[p + 1], key)
  {
    hide Code, D1, D2, D3, D4;
    var tail := Body(data[p..], key);
    assert |data| % 3 == |data| - p;
    if |data| - p == 1 {
      assert data[p..][0] == data[p];
    } else if |data| - p == 2 {
      assert data[p..][0] == data[p] && data[p..][1] == data[p + 1];
    }
    assert out + tail + Padding(|data|) == out + (tail + Padding(|data|));
  }

  function OneText(a: Byte, key: Alphabet): string { [Code(D1(a), key), Code(D2(a, 0), key), '=', '='] }

  function TwoText(a: Byte, b: Byte, key: Alphabet): string {
    [Code(D1(a), key), Code(D2(a, b), key), Code(D3(b, 0), key), '=']
  }

  lemma WholeText(was: string, s: string)
    requires |s| == |was|
    ensures Written(was, 0, s) == s
  {
  }

  method WriteGroup(ret: array<char>, ghost was: string, ghost out: string, it: nat,
                    a: Byte, b: Byte, c: Byte, key: Alphabet)
    returns (it': nat)
    requires |was| == ret.Length && it == |out| && it + 4 <= ret.Length && ret[..] == Written(was, 0, out)
    modifies ret
    ensures it' == it + 4 && ret[..] == Written(was, 0, out + Group(a, b, c, key))
  {
    hide Code, Written;
    it' := Put(ret, was, 0, out, it, Code(a / 4, key));
    var h := a % 4 * 16;
    ghost var o := out + [Code(D1(a), key)];
    it' := Put(ret, was, 0, o, it', Code(h + b / 16, key));
    h := b % 16 * 4;
    o := o + [Code(D2(a, b), key)];
    it' := Put(ret, was, 0, o, it', Code(h + c / 64, key));
    o := o + [Code(D3(b, c), key)];
    it' := Put(ret, was, 0, o, it', Code(c % 64, key));
    assert o + [Code(D4(c), key)] == out + Group(a, b, c, key);
  }

  method WriteOne(ret: array<char>, ghost was: string, ghost out: string, it: nat, a: Byte, key: Alphabet)
    returns (it': nat)
    requires |was| == ret.Length && it == |out| && it + 4 <= ret.Length && ret[..] == Written(was, 0, out)
    modifies ret
    ensures it' == it + 4 && ret[..] == Written(was, 0, out + OneText(a, key))
  {
    hide Code, Written;
    it' := Put(ret, was, 0, out, it, Code(a / 4, key));
    var h := a % 4 * 16;
    ghost var o := out + [Code(D1(a), key)];
    it' := Put(ret, was, 0, o, it', Code(h, key));
    o := o + [Code(D2(a, 0), key)];
    it' := Put(ret, was, 0, o, it', '=');
    it' := Put(ret, was, 0, o + ['='], it', '=');
    assert o + ['='] + ['='] == out + OneText(a, key);
  }

  method WriteTwo(ret: array<char>, ghost was: string, ghost out: string, it: nat, a: Byte, b: Byte, key: Alphabet)
    returns (it': nat)
    requires |was| == ret.Length && it == |out| && it + 4 <= ret.Length && ret[..] == Written(was, 0, out)
    modifies ret
    ensures it' == it + 4 && ret[..] == Written(was, 0, out + TwoText(a, b, key))
  {
    hide Code, Written;
    it' := Put(ret, was, 0, out, it, Code(a / 4, key));
    var h := a % 4 * 16;
    ghost var o := out + [Code(D1(a), key)];
    it' := Put(ret, was, 0, o, it', Code(h + b / 16, key));
    h := b % 16 * 4;
    o := o + [Code(D2(a, b), key)];
    it' := Put(ret, was, 0, o, it', Code(h, key));
    o := o + [Code(D3(b, 0), key)];
    it' := Put(ret, was, 0, o, it', '=');
    assert o + ['='] == out + TwoText(a, b, key);
  }

  method Base64Decode(text: string) returns (data: Option<Bytes>)
    ensures data == Decode(text)
  {
    if DecodedLength(text) < 0 { return None; }
    ReadsStayInside(text);
    hide DecodedLength, Written, Read, Needed;
    var n := DecodedLength(text);
    var ret := new Byte[n](_ => 0);
    ghost var was := ret[..];
    var it, p, size, out := DecodeGroups(ret, text);
    DecodeTail(ret, was, out, it, text, p, size);
    WholeBytes(was, Read(text, 0, n));
    data := Some(ret[..]);
  }

  /** The whole groups of four characters. */
  method DecodeGroups(ret: array<Byte>, text: string) returns (it: nat, p: nat, size: nat, ghost out: Bytes)
    requires Needed(ret.Length) <= |text|
    modifies ret
    ensures size < 3 && p + Needed(size) <= |text| && it == |out| && it + size == ret.Length
    ensures out + Read(text, p, size) == Read(text, 0, ret.Length) && ret[..] == Written(old(ret[..]), 0, out)
  {
    hide Written, Three, Needed, Read;
    ghost var was := ret[..];
    size := ret.Length;
    out := [];
    WrittenNothing(was, 0);
    it, p := 0, 0;
    assert out + Read(text, 0, size) == Read(text, 0, size);
    while size >= 3
      invariant it == |out| && it + size == ret.Length && p + Needed(size) <= |text|
      invariant out + Read(text, p, size) == Read(text, 0, ret.Length)
      invariant ret[..] == Written(was, 0, out)
    {
      NeededNext(size);
      ghost var three: Bytes := ReadThree(text, p, size);
      it := DecodeThree(ret, was, out, it, text, p);
      Regroup(out, three, Read(text, p + 4, size - 3));
      out := out + three;
      p := p + 4;
      size := size - 3;
    }
  }

  function Three(text: string, p: nat): Bytes
    requires p + 4 <= |text|
  {
    [B1(Key(text[p]), Key(text[p + 1])), B2(Key(text[p + 1]), Key(text[p + 2])), B3(Key(text[p + 2]), Key(text[p + 3]))]
  }

  lemma ReadThree(text: string, p: nat, n: nat) returns (three: Bytes)
    requires n >= 3 && p + Needed(n) <= |text| && Needed(n) == Needed(n - 3) + 4
    ensures three == Three(text, p) && |three| == 3 && Read(text, p, n) == three + Read(text, p + 4, n - 3)
  {
    three := Three(text, p);
  }

  method DecodeThree(ret: array<Byte>, ghost was: Bytes, ghost out: Bytes, it: nat, text: string, p: nat)
    returns (it': nat)
    requires |was| == ret.Length && it == |out| && it + 3 <= ret.Length && ret[..] == Written(was, 0, out)
    requires p + 4 <= |text|
    modifies ret
    ensures it' == it + 3 && ret[..] == Written(was, 0, out + Three(text, p))
  {
    hide Written, B1, B2, B3, Key;
    var odd, even := Key(text[p]), Key(text[p + 1]);
    it' := Put(ret, was, 0, out, it, B1(odd, even));
    ghost var o := out + [B1(odd, even)];
    odd := Key(text[p + 2]);
    it' := Put(ret, was, 0, o, it', B2(even, odd));
    o := o + [B2(even, odd)];
    even := Key(text[p + 3]);
    it' := Put(ret, was, 0, o, it', B3(odd, even));
    assert o + [B3(odd, even)] == out + Three(text, p);
  }

  /** The last one or two bytes. */
  method DecodeTail(ret: array<Byte>, ghost was: Bytes, ghost out: Bytes, it: nat, text: string, p: nat, size: nat)
    requires |was| == ret.Length && it == |out| && it + size <= ret.Length && ret[..] == Written(was, 0, out)
    requires size < 3 && p + Needed(size) <= |text|
    modifies ret
    ensures ret[..] == Written(was, 0, out + Read(text, p, size))
  {
    hide Written, B1, B2, B3, Key;
    var it' := it;
    if size == 2 {
      var odd, even := Key(text[p]), Key(text[p + 1]);
      it' := Put(ret, was, 0, out, it, B1(odd, even));
      ghost var o := out + [B1(odd, even)];
      odd := Key(text[p + 2]);
      it' := Put(ret, was, 0, o, it', B2(even, odd));
      assert o + [B2(even, odd)] == out + Read(text, p, 2);
    } else if size == 1 {
      var odd, even := Key(text[p]), Key(text[p + 1]);
      it' := Put(ret, was, 0, out, it, B1(odd, even));
      assert out + [B1(odd, even)] == out + Read(text, p, 1);
    } else {
      assert out + [] == out;
    }
  }

  lemma WholeBytes(was: Bytes, s: Bytes)
    requires |s| == |was|
    ensures Written(was, 0, s) == s
  {
  }

  lemma NeededNext(n: nat)
    requires n >= 3
    ensures Needed(n) == Needed(n - 3) + 4
  {
  }
}
