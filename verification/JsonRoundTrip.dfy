/** Reading undoes writing, in every layout, up to the nesting limit and not beyond it. */
module JsonRoundTrip {
  import opened Wrappers
  import opened Json

  /** The value as it is read back: a number becomes its text. */
  function ToRead(v: Value): ReadValue {
    match v
    case Null => RNull
    case Bool(b) => RBool(b)
    case Integer(i) => RNumber(Decimal(i))
    case Str(s) => RString(s)
    case List(items) => RList(ToReads(items))
    case Object(members) => RObject(ToReadMembers(members))
  }

  function ToReads(items: seq<Value>): seq<ReadValue> {
    if items == [] then [] else [ToRead(items[0])] + ToReads(items[1..])
  }

  function ToReadMembers(members: seq<(string, Value)>): seq<(string, ReadValue)> {
    if members == [] then [] else [ToReadMember(members[0])] + ToReadMembers(members[1..])
  }

  function ToReadMember(m: (string, Value)): (string, ReadValue) { (m.0, ToRead(m.1)) }

  /** How many lists and objects are open around the innermost value. */
  function Nesting(v: Value): nat {
    match v
    case List(items) => 1 + NestingOfItems(items)
    case Object(members) => 1 + NestingOfMembers(members)
    case _ => 0
  }

  function Max(a: nat, b: nat): nat { if a < b then b else a }

  function NestingOfItems(items: seq<Value>): nat {
    if items == [] then 0 else Max(Nesting(items[0]), NestingOfItems(items[1..]))
  }

  function NestingOfMembers(members: seq<(string, Value)>): nat {
    if members == [] then 0 else Max(NestingOfMember(members[0]), NestingOfMembers(members[1..]))
  }

  function NestingOfMember(m: (string, Value)): nat { Nesting(m.1) }

  /** The reader counts two steps of depth for every level of nesting. */
  predicate Fits(nesting: nat, depth: nat) { nesting == 0 || depth + 2 * nesting - 1 <= MAX_DEPTH }

  predicate ReadableLayout(lay: Layout) { lay.indent < 0 || IsSpace(lay.separator) }

  // ---- Texts ----

  lemma {:induction false} Split(t: string, i: nat, a: string, b: string)
    requires HasAt(t, i, a + b)
    ensures HasAt(t, i, a) && HasAt(t, i + |a|, b)
    ensures b != "" ==> i + |a| < |t| && t[i + |a|] == b[0]
    decreases |a|
  {
    if a == "" {
      assert a + b == b;
    } else {
      assert (a + b)[1..] == a[1..] + b;
      Split(t, i + 1, a[1..], b);
    }
  }

  lemma {:induction false} CharAt(t: string, i: nat, w: string, k: nat)
    requires HasAt(t, i, w) && k < |w|
    ensures i + k < |t| && t[i + k] == w[k]
    decreases |w|
  {
    if k > 0 { CharAt(t, i + 1, w[1..], k - 1); }
  }

  predicate Blank(w: string) { forall k :: 0 <= k < |w| ==> IsSpace(w[k]) }

  lemma {:induction false} SkipAll(t: string, i: nat, w: string)
    requires Terminated(t) && HasAt(t, i, w) && i + |w| < |t|
    requires Blank(w)
    requires !IsSpace(t[i + |w|])
    ensures SkipSpace(t, i) == i + |w|
    decreases |w|
  {
    if w != "" {
      CharAt(t, i, w, 0);
      assert w == w[..1] + w[1..];
      Split(t, i, w[..1], w[1..]);
      SkipAll(t, i + 1, w[1..]);
    }
  }

  lemma {:induction false} RepeatIsBlank(c: char, n: nat)
    requires IsSpace(c)
    ensures Blank(Repeat(c, n))
  {
    if n > 0 { RepeatIsBlank(c, n - 1); }
  }

  lemma IndentationIsBlank(lay: Layout, level: nat)
    requires ReadableLayout(lay)
    ensures Blank(Indentation(lay, level))
  {
    if lay.indent >= 0 { RepeatIsBlank(lay.separator, level * lay.indent); }
  }

  /** Skipping blank text lands on the first character of what follows it. */
  lemma SkipBlank(t: string, i: nat, blank: string, rest: string)
    requires Terminated(t) && Blank(blank) && rest != "" && !IsSpace(rest[0])
    requires HasAt(t, i, blank + rest)
    ensures i < |t|
    ensures SkipSpace(t, i) == i + |blank|
    ensures HasAt(t, i + |blank|, rest)
    ensures t[i + |blank|] == rest[0]
  {
    Split(t, i, blank, rest);
    SkipAll(t, i, blank);
  }

  // ---- Strings ----

  lemma UnescapeOne(c: char, rest: string)
    requires IsBody(rest)
    ensures IsBody(EscapeChar(c) + rest)
    ensures Unescape(EscapeChar(c) + rest) == [c] + Unescape(rest)
  {
    var e := EscapeChar(c);
    var s := e + rest;
    if |e| == 1 {
      assert s[1..] == rest;
    } else if |e| == 2 {
      assert s[2..] == rest;
    } else {
      assert s[6..] == rest;
      assert CodeUnit(s[2], s[3], s[4], s[5]) == c as int;
    }
  }

  /** Unescaping undoes escaping, for every byte string. */
  lemma {:induction false} EscapeRoundTrip(s: string)
    ensures IsBody(Escape(s))
    ensures Unescape(Escape(s)) == s
  {
    if s != "" {
      EscapeRoundTrip(s[1..]);
      UnescapeOne(s[0], Escape(s[1..]));
    }
  }

  lemma EscapeCharEnd(t: string, i: nat, c: char)
    requires Terminated(t) && HasAt(t, i, EscapeChar(c)) && i + |EscapeChar(c)| < |t|
    ensures StringEnd(t, i) == StringEnd(t, i + |EscapeChar(c)|)
  {
    var e := EscapeChar(c);
    assert forall k :: 0 <= k < |e| ==> t[i + k] == e[k] by {
      forall k | 0 <= k < |e| ensures t[i + k] == e[k] { CharAt(t, i, e, k); }
    }
    assert t[i] == e[0];
    if |e| >= 2 { assert t[i + 1] == e[1]; }
    if |e| == 6 { assert t[i + 2] == e[2] && t[i + 3] == e[3] && t[i + 4] == e[4] && t[i + 5] == e[5]; }
  }

  lemma {:induction false} EscapedEnd(t: string, i: nat, s: string)
    requires Terminated(t) && HasAt(t, i, Escape(s) + "\"")
    ensures i < |t|
    ensures StringEnd(t, i) == Some(i + |Escape(s)|)
    decreases |s|
  {
    hide *;
    if s == "" {
      NothingEscaped(t, i);
    } else {
      var e := EscapeChar(s[0]);
      EscapeFirst(s);
      Assoc(e, Escape(s[1..]), "\"");
      Split(t, i, e, Escape(s[1..]) + "\"");
      EscapeCharEnd(t, i, s[0]);
      EscapedEnd(t, i + |e|, s[1..]);
    }
  }

  lemma EscapeFirst(s: string)
    requires s != ""
    ensures Escape(s) == EscapeChar(s[0]) + Escape(s[1..])
  {
    hide EscapeChar;
  }

  lemma NothingEscaped(t: string, i: nat)
    requires Terminated(t) && HasAt(t, i, Escape("") + "\"")
    ensures i < |t| && StringEnd(t, i) == Some(i) && |Escape("")| == 0
  {
    assert Escape("") + "\"" == "\"";
    CharAt(t, i, "\"", 0);
  }

  lemma Assoc(a: string, b: string, c: string)
    ensures (a + b) + c == a + (b + c)
  {
  }

  lemma QuotedText(t: string, i: nat, s: string)
    requires Terminated(t) && HasAt(t, i, Quoted(s))
    ensures i + 1 < |t| && t[i] == '"'
    ensures StringEnd(t, i + 1) == Some(i + 1 + |Escape(s)|)
    ensures t[i + 1..i + 1 + |Escape(s)|] == Escape(s)
  {
    hide StringEnd, Escape, SkipSpace, HasAt;
    Assoc("\"", Escape(s), "\"");
    Split(t, i, "\"", Escape(s) + "\"");
    CharAt(t, i, "\"", 0);
    EscapedEnd(t, i + 1, s);
    Split(t, i + 1, Escape(s), "\"");
    HasAtSlice(t, i + 1, Escape(s));
  }

  lemma ParseQuoted(t: string, i: nat, s: string)
    requires Terminated(t) && HasAt(t, i, Quoted(s))
    ensures i < |t|
    ensures ParseString(t, i) == Some((s, i + |Quoted(s)|))
  {
    QuotedText(t, i, s);
    EscapeRoundTrip(s);
  }

  // ---- Numbers ----

  function Run(s: NumberState, w: string): NumberState {
    if w == "" then s else NextState(Run(s, w[..|w| - 1]), w[|w| - 1])
  }

  lemma {:induction false} NumberEndRun(t: string, i: nat, s: NumberState, w: string)
    requires Terminated(t) && HasAt(t, i, w) && i + |w| < |t|
    requires forall k :: 0 <= k < |w| ==> IsNumberChar(w[k])
    requires forall k :: 0 <= k < |w| ==> Run(s, w[..k]) != Invalid
    ensures NumberEnd(t, i, s) == NumberEnd(t, i + |w|, Run(s, w))
    decreases |w|
  {
    hide *;
    if w == "" {
      RunNothing(s);
    } else {
      var n := |w| - 1;
      var head := w[..n];
      assert w == head + [w[n]];
      Split(t, i, head, [w[n]]);
      CharAt(t, i, w, n);
      forall k | 0 <= k < |head| ensures Run(s, head[..k]) != Invalid { assert head[..k] == w[..k]; }
      NumberEndRun(t, i, s, head);
      RunLast(s, w);
      NumberEndNext(t, i + n, Run(s, head));
    }
  }

  lemma RunNothing(s: NumberState)
    ensures Run(s, "") == s
  {
  }

  lemma RunLast(s: NumberState, w: string)
    requires w != ""
    ensures Run(s, w) == NextState(Run(s, w[..|w| - 1]), w[|w| - 1])
  {
    hide NextState;
  }

  lemma NumberEndNext(t: string, i: nat, s: NumberState)
    requires Terminated(t) && i + 1 < |t| && s != Invalid && IsNumberChar(t[i])
    ensures NumberEnd(t, i, s) == NumberEnd(t, i + 1, NextState(s, t[i]))
  {
    hide NextState, IsNumberChar;
  }

  lemma {:induction false} DigitsAreDigits(n: nat)
    ensures Digits(n) != ""
    ensures forall k :: 0 <= k < |Digits(n)| ==> '0' <= Digits(n)[k] <= '9'
  {
    if n >= 10 { DigitsAreDigits(n / 10); }
  }

  lemma {:induction false} RunDigits(s: NumberState, n: nat)
    requires s == Minus || s == AfterMinus
    ensures Run(s, Digits(n)) == if n == 0 then ZeroFirst else InDigits
    ensures forall k :: 0 <= k < |Digits(n)| ==> Run(s, Digits(n)[..k]) != Invalid
  {
    var w := Digits(n);
    if n < 10 {
      assert w[..0] == "" && |w| == 1;
    } else {
      var head := Digits(n / 10);
      DigitsAreDigits(n);
      RunDigits(s, n / 10);
      assert w[..|w| - 1] == head;
      assert Run(s, w) == NextState(Run(s, head), w[|w| - 1]);
      hide Digits, Run, NextState;
      forall k | 0 <= k < |w|
        ensures Run(s, w[..k]) != Invalid
      {
        if k < |head| { assert w[..k] == head[..k]; } else { assert w[..k] == head; }
      }
    }
  }

  lemma NumberEndDigits(t: string, i: nat, s: NumberState, n: nat)
    requires s == Minus || s == AfterMinus
    requires Terminated(t) && HasAt(t, i, Digits(n)) && i + |Digits(n)| < |t|
    requires !IsNumberChar(t[i + |Digits(n)|])
    ensures NumberEnd(t, i, s) == Some(i + |Digits(n)|)
  {
    RunDigits(s, n);
    DigitsAreDigits(n);
    var w := Digits(n);
    NumberEndRun(t, i, s, w);
  }

  lemma NumberEndDecimal(t: string, i: nat, n: int)
    requires Terminated(t) && HasAt(t, i, Decimal(n)) && i + |Decimal(n)| < |t|
    requires !IsNumberChar(t[i + |Decimal(n)|])
    ensures NumberEnd(t, i, Minus) == Some(i + |Decimal(n)|)
  {
    if n < 0 {
      var w := Digits(-n);
      Split(t, i, "-", w);
      CharAt(t, i, "-", 0);
      NumberEndDigits(t, i + 1, AfterMinus, -n);
    } else {
      NumberEndDigits(t, i, Minus, n);
    }
  }

  lemma ParseDecimal(t: string, i: nat, n: int)
    requires Terminated(t) && HasAt(t, i, Decimal(n)) && i + |Decimal(n)| < |t|
    requires !IsNumberChar(t[i + |Decimal(n)|])
    ensures i < |t|
    ensures ParseNumber(t, i) == Some((RNumber(Decimal(n)), i + |Decimal(n)|))
  {
    NumberEndDecimal(t, i, n);
    HasAtSlice(t, i, Decimal(n));
  }

  // ---- A number reads as the integer it was written from ----

  datatype NumberKind = FloatingPoint | SignedInteger | UnsignedInteger

  /** How the reader classifies the text of a number. */
  function KindOf(text: string): NumberKind {
    if '.' in text || 'e' in text || 'E' in text then FloatingPoint
    else if '-' in text then SignedInteger
    else UnsignedInteger
  }

  function Natural(text: string): int {
    if text == "" then 0
    else Natural(text[..|text| - 1]) * 10 + (text[|text| - 1] as int - '0' as int)
  }

  /** The integer that a text of digits, with or without a minus sign, stands for. */
  function IntegerOf(text: string): int {
    if text != "" && text[0] == '-' then -Natural(text[1..]) else Natural(text)
  }

  lemma {:induction false} NaturalDigits(n: nat)
    ensures Natural(Digits(n)) == n && Digits(n) != ""
    ensures forall k :: 0 <= k < |Digits(n)| ==> '0' <= Digits(n)[k] <= '9'
  {
    if n >= 10 {
      NaturalDigits(n / 10);
      assert Digits(n)[..|Digits(n)| - 1] == Digits(n / 10);
    } else {
      assert Digits(n)[..0] == "";
    }
  }

  /** An integer of any size is classified as one and reads back with its value and its sign. */
  lemma IntegersReadBack(i: int)
    ensures IntegerOf(Decimal(i)) == i
    ensures KindOf(Decimal(i)) == if i < 0 then SignedInteger else UnsignedInteger
  {
    NaturalDigits(if i < 0 then -i else i);
    if i < 0 { assert Decimal(i)[1..] == Digits(-i); }
  }

  lemma DecimalStart(n: int)
    ensures Decimal(n) != "" && (Decimal(n)[0] == '-' || '0' <= Decimal(n)[0] <= '9')
  {
    DigitsAreDigits(if n < 0 then -n else n);
  }

  // ---- Values ----

  lemma DumpStart(v: Value, lay: Layout, level: nat)
    ensures Dump(v, lay, level) != ""
    ensures var c := Dump(v, lay, level)[0]; !IsSpace(c) && c != ']' && c != '\0'
  {
    if v.Integer? { DecimalStart(v.i); }
  }

  lemma ParseWritten(t: string, i: nat, w: string, v: ReadValue)
    requires Terminated(t) && HasAt(t, i, w) && w != "" && '\0' !in w
    ensures i < |t| && ParseWord(t, i, w, v) == Some((v, i + |w|))
  {
  }

  ghost predicate Readable(t: string, i: nat, v: Value, lay: Layout, level: nat)
  {
    && Terminated(t) && ReadableLayout(lay)
    && HasAt(t, i, Dump(v, lay, level)) && i + |Dump(v, lay, level)| < |t|
    && !IsNumberChar(t[i + |Dump(v, lay, level)|])
  }

  lemma ParseDumpWord(t: string, i: nat, v: Value, lay: Layout, level: nat, depth: nat)
    requires v.Null? || v.Bool?
    requires Readable(t, i, v, lay, level)
    ensures i < |t| && ParseValue(t, i, depth) == Some((ToRead(v), i + |Dump(v, lay, level)|))
  {
    hide ParseWord, ParseList, ParseObject, ParseNumber, ParseString, DumpItems, DumpMembers, SkipSpace;
    var w := Dump(v, lay, level);
    CharAt(t, i, w, 0);
    ParseWritten(t, i, w, ToRead(v));
  }

  lemma ParseDumpNumber(t: string, i: nat, n: int, depth: nat)
    requires Terminated(t) && HasAt(t, i, Decimal(n)) && i + |Decimal(n)| < |t| && !IsNumberChar(t[i + |Decimal(n)|])
    ensures i < |t| && ParseValue(t, i, depth) == Some((RNumber(Decimal(n)), i + |Decimal(n)|))
  {
    hide Decimal, ParseNumber, ParseWord, ParseList, ParseObject, ParseString;
    DecimalStart(n);
    CharAt(t, i, Decimal(n), 0);
    ParseDecimal(t, i, n);
  }

  lemma ParseDumpString(t: string, i: nat, s: string, depth: nat)
    requires Terminated(t) && HasAt(t, i, Quoted(s))
    ensures i < |t| && ParseValue(t, i, depth) == Some((RString(s), i + |Quoted(s)|))
  {
    hide HasAt, ParseNumber, ParseWord, ParseList, ParseObject, ParseString, Escape;
    CharAt(t, i, Quoted(s), 0);
    ParseQuoted(t, i, s);
  }

  /** Reading what was written, wherever it stands and however deep: the value comes back exactly when it fits
      under the depth limit, and reading fails otherwise. */
  lemma {:induction false} ParseDump(t: string, i: nat, v: Value, lay: Layout, level: nat, depth: nat)
    requires Readable(t, i, v, lay, level)
    ensures i < |t|
    ensures ParseValue(t, i, depth)
         == if Fits(Nesting(v), depth) then Some((ToRead(v), i + |Dump(v, lay, level)|)) else None
    decreases v, 3
  {
    match v {
      case Null => ParseDumpWord(t, i, v, lay, level, depth);
      case Bool(b) => ParseDumpWord(t, i, v, lay, level, depth);
      case Integer(n) =>
        hide ParseValue, HasAt, Decimal;
        ParseDumpNumber(t, i, n, depth);
      case Str(s) =>
        hide ParseValue, HasAt, Quoted;
        ParseDumpString(t, i, s, depth);
      case List(items) =>
        hide HasAt, ParseList, ParseObject, ParseWord, ParseNumber, ParseString, Dump, Nesting, ToRead;
        ParseDumpList(t, i, v, lay, level, depth + 1);
      case Object(members) =>
        hide HasAt, ParseList, ParseObject, ParseWord, ParseNumber, ParseString, Dump, Nesting, ToRead;
        ParseDumpObject(t, i, v, lay, level, depth + 1);
    }
  }

  lemma Assoc3(a: string, b: string, c: string, d: string)
    ensures a + b + c + d == a + (b + (c + d))
    ensures a + b + c + d == (a + b) + (c + d)
  {
  }

  lemma Assoc4(a: string, b: string, c: string, d: string, e: string)
    ensures a + b + c + d + e == a + (b + (c + (d + e)))
  {
  }

  /** A bracketed text: where its body starts after the opening bracket and the space, and where it ends. */
  lemma Bracketed(t: string, i: nat, left: string, open': string, body: string, close: string, right: string)
    requires Terminated(t) && Blank(open') && |left| == 1
    requires body != "" && !IsSpace(body[0])
    requires HasAt(t, i, left + open' + body + close + right)
    ensures i + 1 < |t| && t[i] == left[0]
    ensures SkipSpace(t, i + 1) == i + 1 + |open'|
    ensures HasAt(t, i + 1 + |open'|, body + (close + right))
    ensures i + 1 + |open'| < |t| && t[i + 1 + |open'|] == body[0]
  {
    Assoc4(left, open', body, close, right);
    Split(t, i, left, open' + (body + (close + right)));
    CharAt(t, i, left, 0);
    SkipBlank(t, i + 1, open', body + (close + right));
  }

  lemma EmptyBrackets(t: string, i: nat, left: string, open': string, body: string, close: string, right: string)
    requires Terminated(t) && Blank(open') && Blank(close) && |left| == |right| == 1 && !IsSpace(right[0])
    requires body == "" && HasAt(t, i, left + open' + body + close + right)
    ensures i + 1 < |t| && t[i] == left[0]
    ensures SkipSpace(t, i + 1) == i + 1 + |open'| + |close| < |t|
    ensures t[i + 1 + |open'| + |close|] == right[0]
  {
    assert left + open' + body + close + right == left + ((open' + close) + right);
    Split(t, i, left, (open' + close) + right);
    CharAt(t, i, left, 0);
    SkipBlank(t, i + 1, open' + close, right);
  }

  /** Where the pieces of a written list stand. */
  lemma ListText(t: string, i: nat, items: seq<Value>, lay: Layout, level: nat)
    requires Terminated(t) && ReadableLayout(lay) && HasAt(t, i, Dump(List(items), lay, level))
    ensures i + 1 < |t| && t[i] == '['
    ensures |Dump(List(items), lay, level)|
         == 2 + |Indentation(lay, level + 1)| + |DumpItems(items, lay, level)| + |Indentation(lay, level)|
    ensures items == [] ==>
              && SkipSpace(t, i + 1) == i + |Dump(List(items), lay, level)| - 1 < |t|
              && t[i + |Dump(List(items), lay, level)| - 1] == ']'
    ensures items != [] ==>
              var j := i + 1 + |Indentation(lay, level + 1)|;
              && SkipSpace(t, i + 1) == j < |t| && t[j] != ']'
              && HasAt(t, j, DumpItems(items, lay, level) + (Indentation(lay, level) + "]"))
  {
    var open', close := Indentation(lay, level + 1), Indentation(lay, level);
    IndentationIsBlank(lay, level + 1);
    IndentationIsBlank(lay, level);
    var body := DumpItems(items, lay, level);
    if items == [] {
      EmptyBrackets(t, i, "[", open', body, close, "]");
    } else {
      DumpItemsStart(items, lay, level);
      Bracketed(t, i, "[", open', body, close, "]");
    }
  }

  lemma ObjectText(t: string, i: nat, members: seq<(string, Value)>, lay: Layout, level: nat)
    requires Terminated(t) && ReadableLayout(lay) && HasAt(t, i, Dump(Object(members), lay, level))
    ensures i + 1 < |t| && t[i] == '{'
    ensures |Dump(Object(members), lay, level)|
         == 2 + |Indentation(lay, level + 1)| + |DumpMembers(members, lay, level)| + |Indentation(lay, level)|
    ensures members == [] ==>
              && SkipSpace(t, i + 1) == i + |Dump(Object(members), lay, level)| - 1 < |t|
              && t[i + |Dump(Object(members), lay, level)| - 1] == '}'
    ensures members != [] ==>
              var j := i + 1 + |Indentation(lay, level + 1)|;
              && SkipSpace(t, i + 1) == j < |t| && t[j] != '}'
              && HasAt(t, j, DumpMembers(members, lay, level) + (Indentation(lay, level) + "}"))
  {
    var open', close := Indentation(lay, level + 1), Indentation(lay, level);
    IndentationIsBlank(lay, level + 1);
    IndentationIsBlank(lay, level);
    var body := DumpMembers(members, lay, level);
    if members == [] {
      EmptyBrackets(t, i, "{", open', body, close, "}");
    } else {
      DumpMembersStart(members, lay, level);
      Bracketed(t, i, "{", open', body, close, "}");
    }
  }

  lemma {:induction false} ParseDumpList(t: string, i: nat, v: Value, lay: Layout, level: nat, depth: nat)
    requires v.List? && depth > 0
    requires Readable(t, i, v, lay, level)
    ensures i < |t| && t[i] == '['
    ensures ParseList(t, i, depth)
         == if Fits(Nesting(v), depth - 1) then Some((ToRead(v), i + |Dump(v, lay, level)|)) else None
    decreases v, 2
  {
    hide Dump, DumpItems, DumpMembers, DumpMember, Indentation, SkipSpace, HasAt, ParseValue, ParseItems, ParseMember;
    ListText(t, i, v.items, lay, level);
    if v.items != [] && depth <= MAX_DEPTH {
      ParseDumpItems(t, SkipSpace(t, i + 1), v.items, lay, level, depth);
    }
  }

  lemma DumpItemsStart(items: seq<Value>, lay: Layout, level: nat)
    requires items != []
    ensures Dump(items[0], lay, level + 1) <= DumpItems(items, lay, level)
    ensures DumpItems(items, lay, level) != ""
    ensures var c := DumpItems(items, lay, level)[0]; !IsSpace(c) && c != ']'
  {
    DumpStart(items[0], lay, level + 1);
  }

  /** A one-character separator and blank text between two texts. */
  lemma Separator(t: string, i: nat, first: string, mark: string, sep: string, more: string)
    requires Terminated(t) && Blank(sep) && more != "" && !IsSpace(more[0]) && |mark| == 1 && !IsSpace(mark[0])
    requires HasAt(t, i, first + mark + sep + more)
    ensures HasAt(t, i, first) && HasAt(t, i, first + (mark + (sep + more)))
    ensures var c := i + |first|;
            && c + 1 < |t| && t[c] == mark[0] && SkipSpace(t, c) == c
            && SkipSpace(t, c + 1) == c + 1 + |sep|
            && HasAt(t, c + 1 + |sep|, more)
  {
    Assoc3(first, mark, sep, more);
    Split(t, i, first, mark + (sep + more));
    Split(t, i + |first|, mark, sep + more);
    CharAt(t, i + |first|, mark, 0);
    SkipBlank(t, i + |first| + 1, sep, more);
  }

  /** Two parts with a comma between them, the second one behind blank text. */
  lemma TwoParts(t: string, i: nat, first: string, sep: string, rest: string, end: string)
    requires Terminated(t) && Blank(sep) && rest != "" && !IsSpace(rest[0])
    requires HasAt(t, i, first + "," + sep + rest + end)
    ensures HasAt(t, i, first) && HasAt(t, i, first + ("" + [',']))
    ensures var c := i + |first|;
            && c + 1 < |t| && t[c] == ',' && !IsNumberChar(t[c]) && SkipSpace(t, c) == c
            && SkipSpace(t, c + 1) == c + 1 + |sep| < |t| && HasAt(t, c + 1 + |sep|, rest + end)
  {
    var more := rest + end;
    Assoc(first + "," + sep, rest, end);
    Separator(t, i, first, ",", sep, more);
    CharAt(t, i + |first| + 1 + |sep|, more, 0);
    Assoc3(first, ",", sep, more);
    assert "" + [','] == ",";
    hide HasAt, SkipSpace;
    Split(t, i, first + ("" + [',']), sep + more);
  }

  lemma FitsMax(a: nat, b: nat, depth: nat)
    ensures Fits(Max(a, b), depth) <==> Fits(a, depth) && Fits(b, depth)
  {
  }

  lemma ReadableHere(t: string, i: nat, v: Value, lay: Layout, level: nat)
    requires Terminated(t) && ReadableLayout(lay) && HasAt(t, i, Dump(v, lay, level))
    requires i + |Dump(v, lay, level)| < |t| && !IsNumberChar(t[i + |Dump(v, lay, level)|])
    ensures Readable(t, i, v, lay, level)
  {
  }

  lemma MoreItems(items: seq<Value>, lay: Layout, level: nat)
    requires |items| > 1
    ensures DumpItems(items, lay, level)
         == Dump(items[0], lay, level + 1) + "," + Indentation(lay, level + 1) + DumpItems(items[1..], lay, level)
    ensures ToReads(items) == [ToRead(items[0])] + ToReads(items[1..])
    ensures NestingOfItems(items) == Max(Nesting(items[0]), NestingOfItems(items[1..]))
  {
    hide Dump, Indentation, ToRead, Nesting;
  }

  lemma ParseItemsNext(t: string, i: nat, depth: nat)
    requires Terminated(t) && i < |t|
    ensures var v := ParseValue(t, i, depth + 1);
            && (v.None? ==> ParseItems(t, i, depth).None?)
            && (v.Some? && t[SkipSpace(t, v.value.1)] == ',' ==>
                  ParseItems(t, i, depth)
                  == match ParseItems(t, SkipSpace(t, SkipSpace(t, v.value.1) + 1), depth)
                     case Some(rest) => Some(([v.value.0] + rest.0, rest.1))
                     case None => None)
  {
    hide ParseValue, SkipSpace;
  }

  lemma {:induction false} ParseDumpItems(t: string, i: nat, items: seq<Value>, lay: Layout, level: nat, depth: nat)
    requires Terminated(t) && ReadableLayout(lay) && items != [] && depth <= MAX_DEPTH
    requires HasAt(t, i, DumpItems(items, lay, level) + (Indentation(lay, level) + "]"))
    ensures i < |t|
    ensures ParseItems(t, i, depth)
         == if Fits(NestingOfItems(items), depth + 1)
            then Some((ToReads(items), i + |DumpItems(items, lay, level)| + |Indentation(lay, level)| + 1))
            else None
    decreases items, 1
  {
    if |items| == 1 {
      ParseDumpLastItem(t, i, items, lay, level, depth);
    } else {
      ParseDumpMoreItems(t, i, items, lay, level, depth);
    }
  }

  lemma OneItem(items: seq<Value>, lay: Layout, level: nat)
    requires |items| == 1
    ensures DumpItems(items, lay, level) == Dump(items[0], lay, level + 1)
    ensures ToReads(items) == [ToRead(items[0])] && NestingOfItems(items) == Nesting(items[0])
  {
    hide Dump, ToRead, Nesting;
    assert items[1..] == [] && NestingOfItems(items[1..]) == 0;
  }

  lemma {:induction false} ParseDumpLastItem(t: string, i: nat, items: seq<Value>, lay: Layout, level: nat, depth: nat)
    requires Terminated(t) && ReadableLayout(lay) && |items| == 1 && depth <= MAX_DEPTH
    requires HasAt(t, i, DumpItems(items, lay, level) + (Indentation(lay, level) + "]"))
    ensures i < |t|
    ensures ParseItems(t, i, depth)
         == if Fits(NestingOfItems(items), depth + 1)
            then Some((ToReads(items), i + |DumpItems(items, lay, level)| + |Indentation(lay, level)| + 1))
            else None
    decreases items, 0
  {
    hide Dump, SkipSpace, HasAt, ParseValue, ToRead, Nesting, ReadableLayout;
    var v := items[0];
    var first := Dump(v, lay, level + 1);
    var close := Indentation(lay, level);
    IndentationIsBlank(lay, level);
    OneItem(items, lay, level);
    hide Indentation, DumpItems, ToReads, NestingOfItems, Blank, Fits;
    assert close + "]" == close + [']'];
    LastValue(t, i, v, first, close, lay, level + 1, ']', depth + 1);
  }

  /** A value followed by blank text and one more character. */
  lemma {:induction false} LastValue(t: string, i: nat, v: Value, first: string, close: string, lay: Layout, level: nat,
                                     mark: char, depth: nat)
    requires Terminated(t) && ReadableLayout(lay) && first == Dump(v, lay, level)
    requires close == "" || close[0] == '\n' || close[0] == ' '
    requires Blank(close) && !IsSpace(mark) && !IsNumberChar(mark)
    requires HasAt(t, i, first + (close + [mark]))
    ensures i < |t|
    ensures ParseValue(t, i, depth) == if Fits(Nesting(v), depth) then Some((ToRead(v), i + |first|)) else None
    ensures i + |first| < |t|
    ensures SkipSpace(t, i + |first|) == i + |first| + |close| < |t|
    ensures t[i + |first| + |close|] == mark
    decreases v, 4
  {
    hide Dump, ParseValue, ToRead, Nesting, HasAt, SkipSpace, Fits, Blank, Terminated;
    Split(t, i, first, close + [mark]);
    CharAt(t, i + |first|, close + [mark], 0);
    SkipBlank(t, i + |first|, close, [mark]);
    ParseDump(t, i, v, lay, level, depth);
  }

  lemma {:induction false} ParseDumpMoreItems(t: string, i: nat, items: seq<Value>, lay: Layout, level: nat, depth: nat)
    requires Terminated(t) && ReadableLayout(lay) && |items| > 1 && depth <= MAX_DEPTH
    requires HasAt(t, i, DumpItems(items, lay, level) + (Indentation(lay, level) + "]"))
    ensures i < |t|
    ensures ParseItems(t, i, depth)
         == if Fits(NestingOfItems(items), depth + 1)
            then Some((ToReads(items), i + |DumpItems(items, lay, level)| + |Indentation(lay, level)| + 1))
            else None
    decreases items, 0
  {
    hide *;
    MoreItems(items, lay, level);
    DumpItemsStart(items[1..], lay, level);
    IndentationIsBlank(lay, level + 1);
    var first := Dump(items[0], lay, level + 1);
    var sep := Indentation(lay, level + 1);
    TwoParts(t, i, first, sep, DumpItems(items[1..], lay, level), Indentation(lay, level) + "]");
    ParseItemsNext(t, i, depth);
    ReadableHere(t, i, items[0], lay, level + 1);
    ParseDump(t, i, items[0], lay, level + 1, depth + 1);
    ParseDumpItems(t, i + |first| + 1 + |sep|, items[1..], lay, level, depth);
    FitsMax(Nesting(items[0]), NestingOfItems(items[1..]), depth + 1);
  }

  lemma {:induction false} ParseDumpObject(t: string, i: nat, v: Value, lay: Layout, level: nat, depth: nat)
    requires v.Object? && depth > 0
    requires Readable(t, i, v, lay, level)
    ensures i < |t| && t[i] == '{'
    ensures ParseObject(t, i, depth)
         == if Fits(Nesting(v), depth - 1) then Some((ToRead(v), i + |Dump(v, lay, level)|)) else None
    decreases v, 2
  {
    hide Dump, DumpItems, DumpMembers, DumpMember, Indentation, SkipSpace, HasAt, ParseValue, ParseMembers, ParseMember;
    ObjectText(t, i, v.members, lay, level);
    if v.members != [] && depth <= MAX_DEPTH {
      ParseDumpMembers(t, SkipSpace(t, i + 1), v.members, lay, level, depth);
    }
  }

  lemma DumpMembersStart(members: seq<(string, Value)>, lay: Layout, level: nat)
    requires members != []
    ensures DumpMembers(members, lay, level) != "" && DumpMembers(members, lay, level)[0] == '"'
  {
  }

  /** Where the pieces of a written member stand, when some text follows it. */
  lemma MemberText(t: string, i: nat, m: (string, Value), lay: Layout, level: nat, after: string)
    requires Terminated(t) && HasAt(t, i, DumpMember(m, lay, level) + after)
    ensures HasAt(t, i, Quoted(m.0))
    ensures |DumpMember(m, lay, level)| == |Quoted(m.0)| + 1 + |Gap(lay)| + |Dump(m.1, lay, level + 1)|
    ensures var c := i + |Quoted(m.0)|;
            && c + 1 < |t| && t[c] == ':' && SkipSpace(t, c) == c
            && SkipSpace(t, c + 1) == c + 1 + |Gap(lay)|
            && HasAt(t, c + 1 + |Gap(lay)|, Dump(m.1, lay, level + 1) + after)
  {
    DumpStart(m.1, lay, level + 1);
    Assoc(Quoted(m.0) + ":" + Gap(lay), Dump(m.1, lay, level + 1), after);
    Separator(t, i, Quoted(m.0), ":", Gap(lay), Dump(m.1, lay, level + 1) + after);
  }

  /** One member, followed by the text that stands after its value: blank space and a comma or a brace. */
  lemma {:induction false} ParseDumpMember(t: string, i: nat, m: (string, Value), lay: Layout, level: nat, depth: nat,
                                           blank: string, mark: char)
    requires Terminated(t) && ReadableLayout(lay)
    requires blank == "" || blank[0] == '\n' || blank[0] == ' '
    requires Blank(blank) && (mark == ',' || mark == '}')
    requires HasAt(t, i, DumpMember(m, lay, level) + (blank + [mark]))
    ensures i < |t|
    ensures i + |DumpMember(m, lay, level)| + |blank| < |t|
    ensures t[i + |DumpMember(m, lay, level)| + |blank|] == mark
    ensures ParseMember(t, i, depth)
         == if Fits(NestingOfMember(m), depth + 1)
            then Some((ToReadMember(m), i + |DumpMember(m, lay, level)| + |blank|))
            else None
    decreases m, 5
  {
    hide Dump, DumpItems, DumpMembers, DumpMember, Quoted, Indentation, SkipSpace, HasAt, ParseValue, ParseString;
    hide ParseItems, ToRead, Nesting;
    MemberText(t, i, m, lay, level, blank + [mark]);
    ParseQuoted(t, i, m.0);
    LastValue(t, i + |Quoted(m.0)| + 1 + |Gap(lay)|, m.1, Dump(m.1, lay, level + 1), blank, lay, level + 1, mark,
              depth + 1);
  }

  lemma {:induction false} ParseDumpMembers(t: string, i: nat, members: seq<(string, Value)>, lay: Layout, level: nat,
                                            depth: nat)
    requires Terminated(t) && ReadableLayout(lay) && members != [] && depth <= MAX_DEPTH
    requires HasAt(t, i, DumpMembers(members, lay, level) + (Indentation(lay, level) + "}"))
    ensures i < |t|
    ensures ParseMembers(t, i, depth)
         == if Fits(NestingOfMembers(members), depth + 1)
            then Some((ToReadMembers(members), i + |DumpMembers(members, lay, level)| + |Indentation(lay, level)| + 1))
            else None
    decreases members, 1
  {
    hide Dump, DumpMember, SkipSpace, HasAt, ParseMember, ToReadMember, NestingOfMember;
    if |members| == 1 {
      IndentationIsBlank(lay, level);
      assert Indentation(lay, level) + "}" == Indentation(lay, level) + ['}'];
      ParseDumpMember(t, i, members[0], lay, level, depth, Indentation(lay, level), '}');
      assert members[1..] == [] && ToReadMembers(members) == [ToReadMember(members[0])];
      assert NestingOfMembers(members[1..]) == 0;
    } else {
      ParseDumpMoreMembers(t, i, members, lay, level, depth);
    }
  }

  lemma NoSpace()
    ensures !IsSpace('"') && Blank("")
  {
  }

  lemma ParseMembersNext(t: string, i: nat, depth: nat)
    requires Terminated(t) && i < |t|
    ensures var m := ParseMember(t, i, depth);
            && (m.None? ==> ParseMembers(t, i, depth).None?)
            && (m.Some? && t[m.value.1] == ',' ==>
                  ParseMembers(t, i, depth)
                  == match ParseMembers(t, SkipSpace(t, m.value.1 + 1), depth)
                     case Some(rest) => Some(([m.value.0] + rest.0, rest.1))
                     case None => None)
  {
    hide ParseMember, SkipSpace;
  }

  lemma MoreMembers(members: seq<(string, Value)>, lay: Layout, level: nat)
    requires |members| > 1
    ensures DumpMembers(members, lay, level)
         == DumpMember(members[0], lay, level) + "," + Indentation(lay, level + 1)
            + DumpMembers(members[1..], lay, level)
    ensures ToReadMembers(members) == [ToReadMember(members[0])] + ToReadMembers(members[1..])
    ensures NestingOfMembers(members) == Max(NestingOfMember(members[0]), NestingOfMembers(members[1..]))
  {
    hide DumpMember, Indentation, ToReadMember, NestingOfMember;
  }

  lemma {:induction false} ParseDumpMoreMembers(t: string, i: nat, members: seq<(string, Value)>, lay: Layout,
                                                level: nat, depth: nat)
    requires Terminated(t) && ReadableLayout(lay) && |members| > 1 && depth <= MAX_DEPTH
    requires HasAt(t, i, DumpMembers(members, lay, level) + (Indentation(lay, level) + "}"))
    ensures i < |t|
    ensures ParseMembers(t, i, depth)
         == if Fits(NestingOfMembers(members), depth + 1)
            then Some((ToReadMembers(members), i + |DumpMembers(members, lay, level)| + |Indentation(lay, level)| + 1))
            else None
    decreases members, 0
  {
    hide *;
    NoSpace();
    MoreMembers(members, lay, level);
    DumpMembersStart(members[1..], lay, level);
    IndentationIsBlank(lay, level + 1);
    var first := DumpMember(members[0], lay, level);
    var sep := Indentation(lay, level + 1);
    TwoParts(t, i, first, sep, DumpMembers(members[1..], lay, level), Indentation(lay, level) + "}");
    ParseMembersNext(t, i, depth);
    ParseDumpMember(t, i, members[0], lay, level, depth, "", ',');
    ParseDumpMembers(t, i + |first| + 1 + |sep|, members[1..], lay, level, depth);
    FitsMax(NestingOfMember(members[0]), NestingOfMembers(members[1..]), depth + 1);
  }

  /** A document that was written can be read back, in every layout a reader can skip, exactly when it is nested at
      most 5000 deep; then it comes back as it was. */
  lemma DocumentRoundTrip(v: Value, lay: Layout)
    requires ReadableLayout(lay)
    ensures Load(Dump(v, lay, 0)) == if Nesting(v) <= 5000 then Some(ToRead(v)) else None
  {
    var w := Dump(v, lay, 0);
    var t := w + ['\0'];
    HasAtSlice(t, 0, w);
    DumpStart(v, lay, 0);
    assert t[0] == w[0];
    ParseDump(t, 0, v, lay, 0, 0);
  }
}
