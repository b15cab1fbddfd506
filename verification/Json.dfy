/**
 JSON text: what a value is written as, and what a text is read as.  A char stands for one byte.
 The functions here are the meaning; JsonWriter.dfy and JsonReader.dfy hold the loops over mutable buffers that
 compute them, and JsonRoundTrip.dfy proves that reading undoes writing.
 */
module Json {
  import opened Wrappers

  // ---- Writing ----

  /** A value to be written.  Members stand in the order the hash table is walked. */
  datatype Value =
    | Null
    | Bool(b: bool)
    | Integer(i: int)
    | Str(s: string)
    | List(items: seq<Value>)
    | Object(members: seq<(string, Value)>)

  function HexDigit(n: nat): char
    requires n < 16
  {
    if n < 10 then ('0' as int + n) as char else ('a' as int + n - 10) as char
  }

  function EscapeChar(c: char): string {
    if c == '"' then ['\\', '"']
    else if c == '\\' then ['\\', '\\']
    else if c == '\n' then ['\\', 'n']
    else if c == '\U{8}' then ['\\', 'b']
    else if c == '\U{c}' then ['\\', 'f']
    else if c == '\r' then ['\\', 'r']
    else if c == '\t' then ['\\', 't']
    else if c < ' ' then ['\\', 'u', '0', '0', HexDigit(c as int / 16), HexDigit(c as int % 16)]
    else [c]
  }

  function Escape(s: string): string {
    if s == "" then "" else EscapeChar(s[0]) + Escape(s[1..])
  }

  function Digits(n: nat): string {
    if n < 10 then [HexDigit(n)] else Digits(n / 10) + [HexDigit(n % 10)]
  }

  /** std::to_string. */
  function Decimal(i: int): string {
    if i < 0 then "-" + Digits(-i) else Digits(i)
  }

  /** How a document is laid out: a negative indent writes everything on one line. */
  datatype Layout = Layout(indent: int, separator: char)

  function Repeat(c: char, n: nat): string {
    if n == 0 then "" else [c] + Repeat(c, n - 1)
  }

  function Indentation(lay: Layout, level: nat): string {
    if lay.indent >= 0 then "\n" + Repeat(lay.separator, level * lay.indent) else ""
  }

  function Quoted(s: string): string { "\"" + Escape(s) + "\"" }

  function Dump(v: Value, lay: Layout, level: nat): string
    decreases v, 1
  {
    match v
    case Null => "null"
    case Bool(b) => if b then "true" else "false"
    case Integer(i) => Decimal(i)
    case Str(s) => Quoted(s)
    case List(items) =>
      "[" + Indentation(lay, level + 1) + DumpItems(items, lay, level) + Indentation(lay, level) + "]"
    case Object(members) =>
      "{" + Indentation(lay, level + 1) + DumpMembers(members, lay, level) + Indentation(lay, level) + "}"
  }

  function DumpItems(items: seq<Value>, lay: Layout, level: nat): string
    decreases items, 0
  {
    if items == [] then ""
    else if |items| == 1 then Dump(items[0], lay, level + 1)
    else Dump(items[0], lay, level + 1) + "," + Indentation(lay, level + 1) + DumpItems(items[1..], lay, level)
  }

  function Gap(lay: Layout): string { if lay.indent >= 0 then " " else "" }

  function DumpMember(m: (string, Value), lay: Layout, level: nat): string
    decreases m, 2
  {
    Quoted(m.0) + ":" + Gap(lay) + Dump(m.1, lay, level + 1)
  }

  function DumpMembers(members: seq<(string, Value)>, lay: Layout, level: nat): string
    decreases members, 0
  {
    if members == [] then ""
    else if |members| == 1 then DumpMember(members[0], lay, level)
    else
      DumpMember(members[0], lay, level) + "," + Indentation(lay, level + 1) + DumpMembers(members[1..], lay, level)
  }

  // ---- Reading ----

  /** A value that was read.  A number keeps its text. */
  datatype ReadValue =
    | RNull
    | RBool(b: bool)
    | RNumber(text: string)
    | RString(s: string)
    | RList(items: seq<ReadValue>)
    | RObject(members: seq<(string, ReadValue)>)

  const MAX_DEPTH := 10000

  /** The buffer ends in NUL; nothing is read past it. */
  predicate Terminated(t: string) { |t| > 0 && t[|t| - 1] == '\0' }

  predicate IsSpace(c: char) { c == ' ' || c == '\t' || c == '\r' || c == '\n' }

  function SkipSpace(t: string, i: nat): (j: nat)
    requires Terminated(t) && i < |t|
    ensures i <= j < |t| && !IsSpace(t[j])
    ensures forall k :: i <= k < j ==> IsSpace(t[k])
    decreases |t| - i
  {
    if IsSpace(t[i]) then SkipSpace(t, i + 1) else i
  }

  predicate IsHex(c: char) { '0' <= c <= '9' || 'a' <= c <= 'f' || 'A' <= c <= 'F' }

  predicate IsSimpleEscape(c: char) {
    c == '"' || c == '\\' || c == '/' || c == 'b' || c == 'f' || c == 'n' || c == 'r' || c == 't'
  }

  /** Where the string literal whose body starts at j is closed. */
  function StringEnd(t: string, j: nat): (r: Option<nat>)
    requires Terminated(t) && j < |t|
    ensures r.Some? ==> j <= r.value < |t| - 1 && t[r.value] == '"'
    decreases |t| - j
  {
    if t[j] == '"' then Some(j)
    else if t[j] == '\0' then None
    else if t[j] != '\\' then StringEnd(t, j + 1)
    else if t[j + 1] == 'u' then
      if IsHex(t[j + 2]) && IsHex(t[j + 3]) && IsHex(t[j + 4]) && IsHex(t[j + 5]) then StringEnd(t, j + 6) else None
    else if IsSimpleEscape(t[j + 1]) then StringEnd(t, j + 2)
    else None
  }

  /** The body of a string literal: every backslash starts a known escape. */
  predicate IsBody(s: string) {
    if s == "" then true
    else if s[0] != '\\' then IsBody(s[1..])
    else if |s| < 2 then false
    else if s[1] == 'u' then
      |s| >= 6 && IsHex(s[2]) && IsHex(s[3]) && IsHex(s[4]) && IsHex(s[5]) && IsBody(s[6..])
    else IsSimpleEscape(s[1]) && IsBody(s[2..])
  }

  function FromHex(c: char): int {
    if c >= 'a' then c as int - 'a' as int + 10
    else if c >= 'A' then c as int - 'A' as int + 10
    else c as int - '0' as int
  }

  function CodeUnit(a: char, b: char, c: char, d: char): (n: int)
    ensures IsHex(a) && IsHex(b) && IsHex(c) && IsHex(d) ==> 0 <= n < 0x1_0000
  {
    FromHex(a) * 4096 + FromHex(b) * 256 + FromHex(c) * 16 + FromHex(d)
  }

  /** The bytes of one code unit: UTF-8 up to three bytes, surrogates taken as they are. */
  function Utf8(code: int): string
    requires 0 <= code < 0x1_0000
  {
    if code >= 0x800 then
      [(0xE0 + code / 4096) as char, (0x80 + code / 64 % 64) as char, (0x80 + code % 64) as char]
    else if code >= 0x80 then [(0xC0 + code / 64) as char, (0x80 + code % 64) as char]
    else [code as char]
  }

  function SimpleEscape(c: char): char {
    match c
    case 'b' => '\U{8}'
    case 'f' => '\U{c}'
    case 'n' => '\n'
    case 'r' => '\r'
    case 't' => '\t'
    case _ => c
  }

  /** What the body of a string literal stands for. */
  function Unescape(s: string): string
    requires IsBody(s)
  {
    if s == "" then ""
    else if s[0] != '\\' then [s[0]] + Unescape(s[1..])
    else if s[1] == 'u' then Utf8(CodeUnit(s[2], s[3], s[4], s[5])) + Unescape(s[6..])
    else [SimpleEscape(s[1])] + Unescape(s[2..])
  }

  lemma {:induction false} StringBody(t: string, j: nat)
    requires Terminated(t) && j < |t| && StringEnd(t, j).Some?
    ensures IsBody(t[j..StringEnd(t, j).value])
    decreases |t| - j
  {
    var e := StringEnd(t, j).value;
    var s := t[j..e];
    if t[j] == '"' {
    } else if t[j] != '\\' {
      StringBody(t, j + 1);
      assert s[1..] == t[j + 1..e];
    } else if t[j + 1] == 'u' {
      StringBody(t, j + 6);
      assert s[6..] == t[j + 6..e];
    } else {
      StringBody(t, j + 2);
      assert s[2..] == t[j + 2..e];
    }
  }

  function ParseString(t: string, i: nat): (r: Option<(string, nat)>)
    requires Terminated(t) && i < |t|
    ensures r.Some? ==> i < r.value.1 < |t|
  {
    if t[i] != '"' then None
    else
      match StringEnd(t, i + 1)
      case Some(e) => StringBody(t, i + 1); Some((Unescape(t[i + 1..e]), e + 1))
      case None => None
  }

  /** The number automaton. */
  datatype NumberState = Minus | AfterMinus | ZeroFirst | InDigits | AfterPoint | Exponent | AfterExponent | Invalid

  function NextState(s: NumberState, c: char): NumberState {
    if c == '0' then
      match s
      case Minus => ZeroFirst case AfterMinus => ZeroFirst case ZeroFirst => Invalid case InDigits => InDigits
      case AfterPoint => AfterPoint case Exponent => AfterExponent case AfterExponent => AfterExponent
      case Invalid => Invalid
    else if '1' <= c <= '9' then
      match s
      case Minus => InDigits case AfterMinus => InDigits case ZeroFirst => Invalid case InDigits => InDigits
      case AfterPoint => AfterPoint case Exponent => AfterExponent case AfterExponent => AfterExponent
      case Invalid => Invalid
    else if c == '.' then (if s == ZeroFirst || s == InDigits then AfterPoint else Invalid)
    else if c == '-' then (if s == Minus then AfterMinus else if s == Exponent then AfterExponent else Invalid)
    else if c == '+' then (if s == Exponent then AfterExponent else Invalid)
    else (if s == InDigits || s == AfterPoint then Exponent else Invalid)
  }

  predicate IsNumberChar(c: char) {
    '0' <= c <= '9' || c == '.' || c == '-' || c == '+' || c == 'e' || c == 'E'
  }

  predicate Accepting(s: NumberState) {
    s == ZeroFirst || s == InDigits || s == AfterPoint || s == AfterExponent
  }

  /** Where the number token that is being read ends. */
  function NumberEnd(t: string, i: nat, s: NumberState): (r: Option<nat>)
    requires Terminated(t) && i < |t|
    ensures r.Some? ==> i <= r.value < |t| && !IsNumberChar(t[r.value])
    decreases |t| - i
  {
    if s == Invalid then None
    else if IsNumberChar(t[i]) then NumberEnd(t, i + 1, NextState(s, t[i]))
    else if Accepting(s) then Some(i)
    else None
  }

  /** The text w stands at i.  It is compared character by character, so nothing past the NUL is looked at. */
  predicate HasAt(t: string, i: nat, w: string)
    decreases |w|
  {
    w == "" || (i < |t| && t[i] == w[0] && HasAt(t, i + 1, w[1..]))
  }

  lemma {:induction false} HasAtSlice(t: string, i: nat, w: string)
    requires i <= |t|
    ensures HasAt(t, i, w) <==> i + |w| <= |t| && t[i..i + |w|] == w
    decreases |w|
  {
    if w != "" && i < |t| {
      HasAtSlice(t, i + 1, w[1..]);
      if i + |w| <= |t| {
        var u := t[i..i + |w|];
        assert u == [t[i]] + t[i + 1..i + 1 + |w[1..]|];
        assert u[1..] == t[i + 1..i + 1 + |w[1..]|];
        assert w == [w[0]] + w[1..];
      }
    }
  }

  function ParseNumber(t: string, i: nat): (r: Option<(ReadValue, nat)>)
    requires Terminated(t) && i < |t|
    ensures r.Some? ==> i < r.value.1 < |t|
  {
    match NumberEnd(t, i, Minus)
    case Some(e) => Some((RNumber(t[i..e]), e))
    case None => None
  }

  function ParseWord(t: string, i: nat, w: string, v: ReadValue): (r: Option<(ReadValue, nat)>)
    requires Terminated(t) && i < |t| && w != "" && '\0' !in w
    ensures r.Some? ==> i < r.value.1 < |t|
  {
    if HasAt(t, i, w) then
      HasAtSlice(t, i, w);
      assert w[|w| - 1] == t[i + |w| - 1];
      Some((v, i + |w|))
    else None
  }

  function ParseValue(t: string, i: nat, depth: nat): (r: Option<(ReadValue, nat)>)
    requires Terminated(t) && i < |t|
    ensures r.Some? ==> i < r.value.1 < |t|
    decreases |t| - i, 1
  {
    match t[i]
    case '[' => ParseList(t, i, depth + 1)
    case '{' => ParseObject(t, i, depth + 1)
    case '"' => (match ParseString(t, i)
                 case Some(s) => Some((RString(s.0), s.1))
                 case None => None)
    case 't' => ParseWord(t, i, "true", RBool(true))
    case 'f' => ParseWord(t, i, "false", RBool(false))
    case 'n' => ParseWord(t, i, "null", RNull)
    case _ => ParseNumber(t, i)
  }

  function ParseList(t: string, i: nat, depth: nat): (r: Option<(ReadValue, nat)>)
    requires Terminated(t) && i < |t| && t[i] == '['
    ensures r.Some? ==> i < r.value.1 < |t|
    decreases |t| - i, 0
  {
    if depth > MAX_DEPTH then None
    else
      var j := SkipSpace(t, i + 1);
      if t[j] == ']' then Some((RList([]), j + 1))
      else
        match ParseItems(t, j, depth)
        case Some(r) => Some((RList(r.0), r.1))
        case None => None
  }

  /** One or more items and the closing bracket. */
  function ParseItems(t: string, i: nat, depth: nat): (r: Option<(seq<ReadValue>, nat)>)
    requires Terminated(t) && i < |t|
    ensures r.Some? ==> i < r.value.1 < |t|
    decreases |t| - i, 2
  {
    match ParseValue(t, i, depth + 1)
    case None => None
    case Some(v) =>
      var j := SkipSpace(t, v.1);
      if t[j] == ']' then Some(([v.0], j + 1))
      else if t[j] != ',' then None
      else
        match ParseItems(t, SkipSpace(t, j + 1), depth)
        case Some(rest) => Some(([v.0] + rest.0, rest.1))
        case None => None
  }

  function ParseObject(t: string, i: nat, depth: nat): (r: Option<(ReadValue, nat)>)
    requires Terminated(t) && i < |t| && t[i] == '{'
    ensures r.Some? ==> i < r.value.1 < |t|
    decreases |t| - i, 0
  {
    if depth > MAX_DEPTH then None
    else
      var j := SkipSpace(t, i + 1);
      if t[j] == '}' then Some((RObject([]), j + 1))
      else
        match ParseMembers(t, j, depth)
        case Some(r) => Some((RObject(r.0), r.1))
        case None => None
  }

  /** One key, the colon and one value, with the space after them. */
  function ParseMember(t: string, i: nat, depth: nat): (r: Option<((string, ReadValue), nat)>)
    requires Terminated(t) && i < |t|
    ensures r.Some? ==> i < r.value.1 < |t|
    decreases |t| - i, 2
  {
    match ParseString(t, i)
    case None => None
    case Some(k) =>
      var c := SkipSpace(t, k.1);
      if t[c] != ':' then None
      else
        match ParseValue(t, SkipSpace(t, c + 1), depth + 1)
        case Some(v) => Some(((k.0, v.0), SkipSpace(t, v.1)))
        case None => None
  }

  function ParseMembers(t: string, i: nat, depth: nat): (r: Option<(seq<(string, ReadValue)>, nat)>)
    requires Terminated(t) && i < |t|
    ensures r.Some? ==> i < r.value.1 < |t|
    decreases |t| - i, 3
  {
    match ParseMember(t, i, depth)
    case None => None
    case Some(m) =>
      if t[m.1] == '}' then Some(([m.0], m.1 + 1))
      else if t[m.1] != ',' then None
      else
        match ParseMembers(t, SkipSpace(t, m.1 + 1), depth)
        case Some(rest) => Some(([m.0] + rest.0, rest.1))
        case None => None
  }

  /** A whole document: one value, with space around it, up to the NUL. */
  function ParseDocument(t: string): Option<ReadValue>
    requires Terminated(t)
  {
    match ParseValue(t, SkipSpace(t, 0), 0)
    case Some(v) => if t[SkipSpace(t, v.1)] == '\0' then Some(v.0) else None
    case None => None
  }

  /** load: the text is copied and NUL-terminated. */
  function Load(text: string): Option<ReadValue> {
    ParseDocument(text + ['\0'])
  }
}
