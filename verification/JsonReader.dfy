/**
 The reader as it runs: one pointer moving over a NUL-terminated buffer that it also writes to.  A closed string
 literal leaves a flag in place of its opening quote and a NUL in place of its closing one, and is unescaped later, in
 place, when it is first asked for; an object key is unescaped at once.  The value read is a tree of buffer offsets.
 */
module JsonReader {
  import opened Wrappers
  import opened Json

  datatype Range = Range(start: nat, end: nat)

  datatype RValue =
    | VNull
    | VBool(b: bool)
    | VNumber(at: Range)
    | VString(at: Range)
    | VList(items: seq<RValue>)
    | VObject(members: seq<(Range, RValue)>)

  // ---- What a tree of offsets stands for ----

  /** A string literal in the buffer: one flag byte before it, one spare byte after it. */
  ghost predicate SoundString(buf: string, r: Range, lo: nat, hi: nat) {
    && lo < r.start <= r.end < hi <= |buf|
    && (buf[r.start - 1] != '\0' ==> IsBody(buf[r.start..r.end]))
  }

  /** All offsets lie between lo and hi, and every literal still to be unescaped can be. */
  ghost predicate Sound(buf: string, v: RValue, lo: nat, hi: nat) {
    match v
    case VNumber(r) => lo <= r.start <= r.end <= hi <= |buf|
    case VString(r) => SoundString(buf, r, lo, hi)
    case VList(items) => forall k :: 0 <= k < |items| ==> Sound(buf, items[k], lo, hi)
    case VObject(members) => forall k :: 0 <= k < |members| ==> SoundMember(buf, members[k], lo, hi)
    case _ => true
  }

  ghost predicate SoundMember(buf: string, m: (Range, RValue), lo: nat, hi: nat) {
    m.0.start <= m.0.end && lo <= m.0.start && m.0.end <= hi <= |buf| && Sound(buf, m.1, lo, hi)
  }

  ghost predicate AllSound(buf: string, items: seq<RValue>, lo: nat, hi: nat) {
    forall k :: 0 <= k < |items| ==> Sound(buf, items[k], lo, hi)
  }

  ghost predicate AllSoundMembers(buf: string, members: seq<(Range, RValue)>, lo: nat, hi: nat) {
    forall k :: 0 <= k < |members| ==> SoundMember(buf, members[k], lo, hi)
  }

  ghost function StringView(buf: string, r: Range, lo: nat, hi: nat): string
    requires SoundString(buf, r, lo, hi)
  {
    if buf[r.start - 1] != '\0' then Unescape(buf[r.start..r.end]) else buf[r.start..r.end]
  }

  ghost function View(buf: string, v: RValue, lo: nat, hi: nat): ReadValue
    requires Sound(buf, v, lo, hi)
  {
    match v
    case VNull => RNull
    case VBool(b) => RBool(b)
    case VNumber(r) => RNumber(buf[r.start..r.end])
    case VString(r) => RString(StringView(buf, r, lo, hi))
    case VList(items) => RList(Views(buf, items, lo, hi))
    case VObject(members) => RObject(MemberViews(buf, members, lo, hi))
  }

  ghost function Views(buf: string, items: seq<RValue>, lo: nat, hi: nat): seq<ReadValue>
    requires AllSound(buf, items, lo, hi)
  {
    if items == [] then []
    else Views(buf, items[..|items| - 1], lo, hi) + [View(buf, items[|items| - 1], lo, hi)]
  }

  ghost function MemberView(buf: string, m: (Range, RValue), lo: nat, hi: nat): (string, ReadValue)
    requires SoundMember(buf, m, lo, hi)
  {
    (buf[m.0.start..m.0.end], View(buf, m.1, lo, hi))
  }

  ghost function MemberViews(buf: string, members: seq<(Range, RValue)>, lo: nat, hi: nat): seq<(string, ReadValue)>
    requires AllSoundMembers(buf, members, lo, hi)
  {
    if members == [] then []
    else MemberViews(buf, members[..|members| - 1], lo, hi) + [MemberView(buf, members[|members| - 1], lo, hi)]
  }

  ghost predicate SameBetween(a: string, b: string, lo: nat, hi: nat) {
    |a| == |b| && forall k :: lo <= k < hi && k < |a| ==> a[k] == b[k]
  }

  lemma SameSlice(a: string, b: string, lo: nat, hi: nat, r: Range)
    requires SameBetween(a, b, lo, hi) && lo <= r.start <= r.end <= hi <= |a|
    ensures a[r.start..r.end] == b[r.start..r.end]
  {
  }

  /** Bytes outside the range of a tree may change, and the range may be widened: the tree stands for the same. */
  lemma {:induction false} ViewFrame(a: string, b: string, v: RValue, lo: nat, hi: nat, lo': nat, hi': nat)
    requires Sound(a, v, lo, hi) && SameBetween(a, b, lo, hi) && lo' <= lo && hi <= hi' <= |b|
    ensures Sound(b, v, lo', hi')
    ensures View(b, v, lo', hi') == View(a, v, lo, hi)
    decreases v, 1
  {
    match v
    case VNumber(r) => SameSlice(a, b, lo, hi, r);
    case VString(r) => SameSlice(a, b, lo, hi, r);
    case VList(items) => ViewsFrame(a, b, items, lo, hi, lo', hi');
    case VObject(members) => MemberViewsFrame(a, b, members, lo, hi, lo', hi');
    case _ =>
  }

  lemma {:induction false} ViewsFrame(a: string, b: string, items: seq<RValue>, lo: nat, hi: nat, lo': nat, hi': nat)
    requires SameBetween(a, b, lo, hi) && lo' <= lo && hi <= hi' <= |b|
    requires AllSound(a, items, lo, hi)
    ensures AllSound(b, items, lo', hi')
    ensures Views(b, items, lo', hi') == Views(a, items, lo, hi)
    decreases items, 0
  {
    forall k | 0 <= k < |items|
      ensures Sound(b, items[k], lo', hi')
    {
      ViewFrame(a, b, items[k], lo, hi, lo', hi');
    }
    if items != [] {
      ViewsFrame(a, b, items[..|items| - 1], lo, hi, lo', hi');
      ViewFrame(a, b, items[|items| - 1], lo, hi, lo', hi');
    }
  }

  lemma {:induction false} MemberViewFrame(a: string, b: string, m: (Range, RValue),
                                           lo: nat, hi: nat, lo': nat, hi': nat)
    requires SoundMember(a, m, lo, hi) && SameBetween(a, b, lo, hi) && lo' <= lo && hi <= hi' <= |b|
    ensures SoundMember(b, m, lo', hi')
    ensures MemberView(b, m, lo', hi') == MemberView(a, m, lo, hi)
    decreases m, 2
  {
    SameSlice(a, b, lo, hi, m.0);
    ViewFrame(a, b, m.1, lo, hi, lo', hi');
  }

  lemma {:induction false} MemberViewsFrame(a: string, b: string, members: seq<(Range, RValue)>, lo: nat, hi: nat,
                                            lo': nat, hi': nat)
    requires SameBetween(a, b, lo, hi) && lo' <= lo && hi <= hi' <= |b|
    requires AllSoundMembers(a, members, lo, hi)
    ensures AllSoundMembers(b, members, lo', hi')
    ensures MemberViews(b, members, lo', hi') == MemberViews(a, members, lo, hi)
    decreases members, 0
  {
    forall k | 0 <= k < |members|
      ensures SoundMember(b, members[k], lo', hi')
    {
      MemberViewFrame(a, b, members[k], lo, hi, lo', hi');
    }
    if members != [] {
      MemberViewsFrame(a, b, members[..|members| - 1], lo, hi, lo', hi');
      MemberViewFrame(a, b, members[|members| - 1], lo, hi, lo', hi');
    }
  }

  lemma {:induction false} NothingToUnescape(s: string)
    requires forall k :: 0 <= k < |s| ==> s[k] != '\\'
    ensures IsBody(s) && Unescape(s) == s
  {
    if s != "" {
      NothingToUnescape(s[1..]);
      assert s == [s[0]] + s[1..];
    }
  }

  // ---- In-place unescaping ----

  lemma BodyStep(s: string)
    requires IsBody(s) && s != ""
    ensures s[0] != '\\' ==> IsBody(s[1..]) && Unescape(s) == [s[0]] + Unescape(s[1..])
    ensures s[0] == '\\' ==> |s| >= 2
    ensures s[0] == '\\' && s[1] == 'u' ==>
              && |s| >= 6 && IsHex(s[2]) && IsHex(s[3]) && IsHex(s[4]) && IsHex(s[5]) && IsBody(s[6..])
              && Unescape(s) == Utf8(CodeUnit(s[2], s[3], s[4], s[5])) + Unescape(s[6..])
    ensures s[0] == '\\' && s[1] != 'u' ==>
              IsSimpleEscape(s[1]) && IsBody(s[2..]) && Unescape(s) == [SimpleEscape(s[1])] + Unescape(s[2..])
  {
  }

  /** One step of the in-place loop, on the buffer before and after it: out are the bytes just written. */
  lemma StepEffect(before: string, after: string, at: Range, head: nat, tail: nat, n: nat, out: string, whole: string)
    requires at.start <= tail <= head && head + n <= at.end < |before| == |after| && tail + |out| <= head + n
    requires forall k :: 0 <= k < |before| && !(tail <= k < tail + |out|) ==> after[k] == before[k]
    requires after[tail..tail + |out|] == out
    requires IsBody(before[head..at.end]) && IsBody(before[head..at.end][n..])
    requires Unescape(before[head..at.end]) == out + Unescape(before[head..at.end][n..])
    requires before[at.start..tail] + Unescape(before[head..at.end]) == whole
    ensures IsBody(after[head + n..at.end])
    ensures after[at.start..tail + |out|] + Unescape(after[head + n..at.end]) == whole
  {
    hide Unescape, IsBody;
    assert after[head + n..at.end] == before[head..at.end][n..];
    assert after[at.start..tail + |out|] == before[at.start..tail] + out;
  }

  lemma NothingLeft(done: string, rest: string)
    requires rest == ""
    ensures done + Unescape(rest) == done
  {
  }

  /** rvalue::unescape.  Escapes are decoded towards the front of the literal's own bytes: the write position never
      passes the read position, the bytes around the literal keep their value, and the flag is cleared. */
  method UnescapeInPlace(data: array<char>, at: Range) returns (end: nat)
    requires 0 < at.start <= at.end < data.Length
    requires data[at.start - 1] != '\0' ==> IsBody(data[at.start..at.end])
    modifies data
    ensures at.start <= end <= at.end
    ensures data[at.start - 1] == '\0'
    ensures data[at.start..end]
         == old(if data[at.start - 1] != '\0' then Unescape(data[at.start..at.end]) else data[at.start..at.end])
    ensures forall k :: 0 <= k < data.Length && !(at.start - 1 <= k <= at.end) ==> data[k] == old(data[k])
  {
    hide IsBody, Unescape;
    end := at.end;
    if data[at.start - 1] != '\0' {
      var head, tail := at.start, at.start;
      ghost var whole := data[at.start..at.end];
      while head != at.end
        invariant at.start <= tail <= head <= at.end
        invariant IsBody(data[head..at.end])
        invariant data[at.start..tail] + Unescape(data[head..at.end]) == Unescape(whole)
        invariant forall k :: 0 <= k < data.Length && !(at.start <= k < at.end) ==> data[k] == old(data[k])
        decreases at.end - head
      {
        head, tail := UnescapeStep(data, at, head, tail, Unescape(whole));
      }
      end := tail;
      NothingLeft(data[at.start..end], data[at.end..at.end]);
      data[end] := '\0';
      data[at.start - 1] := '\0';
      assert data[at.start..end] == Unescape(whole);
    }
  }

  method WriteUtf8(data: array<char>, tail: nat, code: int) returns (tail': nat)
    requires 0 <= code < 0x1_0000 && tail + 3 <= data.Length
    modifies data
    ensures tail' == tail + |Utf8(code)| <= tail + 3
    ensures data[tail..tail'] == Utf8(code)
    ensures forall k :: 0 <= k < data.Length && !(tail <= k < tail') ==> data[k] == old(data[k])
  {
    tail' := tail;
    if code >= 0x800 {
      data[tail'] := (0xE0 + code / 4096) as char;
      data[tail' + 1] := (0x80 + code / 64 % 64) as char;
      data[tail' + 2] := (0x80 + code % 64) as char;
      tail' := tail' + 3;
    } else if code >= 0x80 {
      data[tail'] := (0xC0 + code / 64) as char;
      data[tail' + 1] := (0x80 + code % 64) as char;
      tail' := tail' + 2;
    } else {
      data[tail'] := code as char;
      tail' := tail' + 1;
    }
  }

  /** Writes what the escape stands for whose character after the backslash is at head. */
  method WriteEscape(data: array<char>, end: nat, head: nat, tail: nat)
    returns (head': nat, tail': nat, ghost out: string)
    requires tail < head < end < data.Length
    requires data[head] == 'u' ==>
               && head + 4 < end && IsHex(data[head + 1]) && IsHex(data[head + 2]) && IsHex(data[head + 3])
               && IsHex(data[head + 4])
    requires data[head] != 'u' ==> IsSimpleEscape(data[head])
    modifies data
    ensures head' == head + (if old(data[head]) == 'u' then 4 else 0)
    ensures out == old(if data[head] == 'u'
                       then Utf8(CodeUnit(data[head + 1], data[head + 2], data[head + 3], data[head + 4]))
                       else [SimpleEscape(data[head])])
    ensures tail' == tail + |out| <= head' + 1 <= end && data[tail..tail'] == out
    ensures forall k :: 0 <= k < data.Length && !(tail <= k < tail') ==> data[k] == old(data[k])
  {
    hide Utf8, SimpleEscape, IsSimpleEscape;
    head' := head;
    match data[head'] {
      case 'u' =>
        var code := CodeUnit(data[head' + 1], data[head' + 2], data[head' + 3], data[head' + 4]);
        out := Utf8(code);
        tail' := WriteUtf8(data, tail, code);
        head' := head' + 4;
      case c =>
        out := [SimpleEscape(c)];
        data[tail] := SimpleEscape(c);
        tail' := tail + 1;
    }
  }

  lemma Snapshot(data: array<char>, before: string, lo: nat, hi: nat)
    requires before == data[..] && lo <= hi <= data.Length
    ensures before[lo..hi] == data[lo..hi]
  {
  }

  /** Decodes one character or one escape at head and writes it at tail. */
  method UnescapeStep(data: array<char>, at: Range, head: nat, tail: nat, ghost whole: string)
    returns (head': nat, tail': nat)
    requires 0 < at.start <= tail <= head < at.end < data.Length
    requires IsBody(data[head..at.end])
    requires data[at.start..tail] + Unescape(data[head..at.end]) == whole
    modifies data
    ensures head < head' && at.start <= tail' <= head' <= at.end
    ensures IsBody(data[head'..at.end])
    ensures data[at.start..tail'] + Unescape(data[head'..at.end]) == whole
    ensures forall k :: 0 <= k < data.Length && !(at.start <= k < at.end) ==> data[k] == old(data[k])
  {
    hide Unescape, IsBody, Utf8, IsSimpleEscape, SimpleEscape;
    ghost var before := data[..];
    ghost var rest := before[head..at.end];
    Snapshot(data, before, head, at.end);
    Snapshot(data, before, at.start, tail);
    BodyStep(rest);
    head' := head;
    ghost var out: string;
    if data[head] == '\\' {
      head', tail', out := WriteEscape(data, at.end, head + 1, tail);
    } else {
      out := [data[head]];
      data[tail] := data[head];
      tail' := tail + 1;
      assert tail' == tail + |out| <= head' + 1 <= at.end && data[tail..tail'] == out;
    }
    head' := head' + 1;
    StepEffect(before, data[..], at, head, tail, head' - head, out, whole);
  }

  // ---- The parser ----

  predicate Digit(c: char) { '0' <= c <= '9' }

  /** How one turn of a container loop ended. */
  datatype Turn = More | Closed | Failed

  class Parser {
    const data: array<char>
    var pos: nat
    /** The text as it was before anything was written into the buffer. */
    ghost const text: string

    /** What has not been read yet is still as it was. */
    ghost predicate Valid()
      reads this, data
    {
      && Terminated(text) && data.Length == |text| && pos < |text|
      && forall k :: pos <= k < |text| ==> data[k] == text[k]
    }

    constructor (buffer: array<char>)
      requires Terminated(buffer[..])
      ensures Valid() && data == buffer && pos == 0 && text == buffer[..]
    {
      data := buffer;
      pos := 0;
      text := buffer[..];
    }

    method Consume(c: char) returns (ok: bool)
      requires Valid() && c != '\0'
      modifies this`pos
      ensures Valid()
      ensures ok <==> text[old(pos)] == c
      ensures pos == if ok then old(pos) + 1 else old(pos)
    {
      if data[pos] != c {
        return false;
      }
      pos := pos + 1;
      ok := true;
    }

    method WsSkip()
      requires Valid()
      modifies this`pos
      ensures Valid() && pos == SkipSpace(text, old(pos))
    {
      while IsSpace(data[pos])
        invariant Valid()
        invariant SkipSpace(text, pos) == SkipSpace(text, old(pos))
        decreases |text| - pos
      {
        pos := pos + 1;
      }
    }

    /** Reads one string literal, leaving its body in the buffer between the flag and the NUL. */
    method DecodeString() returns (r: Option<Range>)
      requires Valid()
      modifies this`pos, data
      ensures Valid() && old(pos) <= pos
      ensures forall k :: 0 <= k < old(pos) ==> data[k] == old(data[k])
      ensures r.Some? <==> ParseString(text, old(pos)).Some?
      ensures r.Some? ==>
                && pos == ParseString(text, old(pos)).value.1
                && SoundString(data[..], r.value, old(pos), pos)
                && StringView(data[..], r.value, old(pos), pos) == ParseString(text, old(pos)).value.0
    {
      hide Unescape, IsBody, StringView, SoundString, SkipSpace;
      var hasQuote := Consume('"');
      if !hasQuote {
        return None;
      }
      var start := pos;
      var hasEscaping := false;
      while true
        invariant Valid() && start <= pos
        invariant StringEnd(text, pos) == StringEnd(text, start)
        invariant hasEscaping || forall k :: start <= k < pos ==> text[k] != '\\'
        invariant forall k :: 0 <= k < |text| ==> data[k] == old(data[k])
        decreases |text| - pos
      {
        if data[pos] != '"' && data[pos] != '\\' && data[pos] != '\0' {
          pos := pos + 1;
        } else if data[pos] == '"' {
          StringBody(text, start);
          r := CloseString(start, hasEscaping);
          return;
        } else if data[pos] == '\\' {
          hasEscaping := true;
          var ok := SkipEscape();
          if !ok {
            return None;
          }
        } else {
          return None;
        }
      }
    }

    /** Passes over one escape; false if it is none. */
    method SkipEscape() returns (ok: bool)
      requires Valid() && text[pos] == '\\'
      modifies this`pos
      ensures Valid() && old(pos) < pos
      ensures if ok then StringEnd(text, old(pos)) == StringEnd(text, pos) else StringEnd(text, old(pos)) == None
    {
      pos := pos + 1;
      match data[pos] {
        case 'u' =>
          if !(IsHex(data[pos + 1]) && IsHex(data[pos + 2]) && IsHex(data[pos + 3]) && IsHex(data[pos + 4])) {
            return false;
          }
          pos := pos + 5;
        case c =>
          if !IsSimpleEscape(c) {
            return false;
          }
          pos := pos + 1;
      }
      ok := true;
    }

    /** At the closing quote: writes the NUL and the flag. */
    method CloseString(start: nat, hasEscaping: bool) returns (r: Option<Range>)
      requires Valid() && 0 < start <= pos && text[pos] == '"' && pos + 1 < |text|
      requires IsBody(text[start..pos])
      requires hasEscaping || forall k :: start <= k < pos ==> text[k] != '\\'
      requires forall k :: start <= k < |text| ==> data[k] == text[k]
      modifies this`pos, data
      ensures Valid() && pos == old(pos) + 1
      ensures forall k :: 0 <= k < start - 1 ==> data[k] == old(data[k])
      ensures r.Some? && SoundString(data[..], r.value, start - 1, pos)
      ensures StringView(data[..], r.value, start - 1, pos) == Unescape(text[start..old(pos)])
    {
      data[pos] := '\0';
      data[start - 1] := if hasEscaping then '\U{1}' else '\0';
      r := Some(Range(start, pos));
      assert data[..][start..pos] == text[start..pos];
      if !hasEscaping {
        NothingToUnescape(text[start..pos]);
      }
      pos := pos + 1;
    }

    /** Reads one number token; runs of digits are skipped without consulting the automaton. */
    method DecodeNumber() returns (r: Option<RValue>)
      requires Valid()
      modifies this`pos
      ensures Valid() && old(pos) <= pos
      ensures r.Some? <==> ParseNumber(text, old(pos)).Some?
      ensures r.Some? ==>
                && pos == ParseNumber(text, old(pos)).value.1
                && Sound(data[..], r.value, old(pos), pos)
                && View(data[..], r.value, old(pos), pos) == ParseNumber(text, old(pos)).value.0
    {
      var start := pos;
      var state := Minus;
      while state != Invalid
        invariant Valid() && start <= pos
        invariant NumberEnd(text, start, Minus) == NumberEnd(text, pos, state)
        invariant forall k :: 0 <= k < |text| ==> data[k] == old(data[k])
        decreases |text| - pos
      {
        if IsNumberChar(data[pos]) {
          assert data[pos] != '\0';
          var c := data[pos];
          state := NextState(state, c);
          if '1' <= c <= '9' {
            SkipDigits(state);
          }
          pos := pos + 1;
        } else {
          if !Accepting(state) {
            return None;
          }
          assert forall k :: start <= k < pos ==> data[k] == text[k];
          assert data[..][start..pos] == text[start..pos];
          return Some(VNumber(Range(start, pos)));
        }
      }
      r := None;
    }

    /** Passes over the digits behind the current one, which leave the automaton where it is. */
    method SkipDigits(state: NumberState)
      requires Valid() && pos + 1 < |text|
      requires state == Invalid || state == InDigits || state == AfterPoint || state == AfterExponent
      modifies this`pos
      ensures Valid() && old(pos) <= pos && pos + 1 < |text|
      ensures NumberEnd(text, old(pos) + 1, state) == NumberEnd(text, pos + 1, state)
    {
      while Digit(data[pos + 1])
        invariant Valid() && old(pos) <= pos && pos + 1 < |text|
        invariant NumberEnd(text, old(pos) + 1, state) == NumberEnd(text, pos + 1, state)
        decreases |text| - pos
      {
        assert state != Invalid ==> NextState(state, data[pos + 1]) == state;
        pos := pos + 1;
      }
    }

    method DecodeWord(w: string, v: RValue) returns (r: Option<RValue>)
      requires Valid() && w != "" && '\0' !in w && (v.VNull? || v.VBool?)
      modifies this`pos
      ensures Valid() && old(pos) <= pos
      ensures r == if HasAt(text, old(pos), w) then Some(v) else None
      ensures pos == if HasAt(text, old(pos), w) then old(pos) + |w| else old(pos)
    {
      var k := 0;
      assert w[0..] == w;
      while k < |w|
        invariant 0 <= k <= |w| && pos == old(pos) && pos + k < |text|
        invariant HasAt(text, pos, w) <==> HasAt(text, pos + k, w[k..])
      {
        if data[pos + k] != w[k] {
          return None;
        }
        assert w[k..][1..] == w[k + 1..];
        assert text[pos + k] in w;
        k := k + 1;
      }
      pos := pos + |w|;
      r := Some(v);
    }

    /** Reads one value: it succeeds exactly when the text can be read, stops where the value ends, writes only into
        what it has read, and the tree of offsets stands for the value. */
    method DecodeValue(depth: nat) returns (r: Option<RValue>)
      requires Valid()
      modifies this`pos, data
      ensures Valid() && old(pos) <= pos
      ensures forall k :: 0 <= k < old(pos) ==> data[k] == old(data[k])
      ensures r.Some? <==> ParseValue(text, old(pos), depth).Some?
      ensures r.Some? ==>
                && pos == ParseValue(text, old(pos), depth).value.1
                && Sound(data[..], r.value, old(pos), pos)
                && View(data[..], r.value, old(pos), pos) == ParseValue(text, old(pos), depth).value.0
      decreases |text| - pos, 1
    {
      match data[pos] {
        case '[' =>
          hide HasAt, SkipSpace, StringEnd, ParseItems;
          r := DecodeList(depth + 1);
        case '{' =>
          hide HasAt, SkipSpace, StringEnd, ParseMembers;
          r := DecodeObject(depth + 1);
        case '"' =>
          hide HasAt, SkipSpace, StringEnd, ParseString;
          var s := DecodeString();
          if s.Some? {
            r := Some(VString(s.value));
          } else {
            r := None;
          }
        case 't' =>
          hide HasAt, SkipSpace, StringEnd;
          r := DecodeWord("true", VBool(true));
        case 'f' =>
          hide HasAt, SkipSpace, StringEnd;
          r := DecodeWord("false", VBool(false));
        case 'n' =>
          hide HasAt, SkipSpace, StringEnd;
          r := DecodeWord("null", VNull);
        case _ =>
          hide HasAt, SkipSpace, StringEnd, ParseNumber;
          r := DecodeNumber();
      }
    }

    method DecodeList(depth: nat) returns (r: Option<RValue>)
      requires Valid() && text[pos] == '['
      modifies this`pos, data
      ensures Valid() && old(pos) <= pos
      ensures forall k :: 0 <= k < old(pos) ==> data[k] == old(data[k])
      ensures r.Some? <==> ParseList(text, old(pos), depth).Some?
      ensures r.Some? ==>
                && pos == ParseList(text, old(pos), depth).value.1
                && Sound(data[..], r.value, old(pos), pos)
                && View(data[..], r.value, old(pos), pos) == ParseList(text, old(pos), depth).value.0
      decreases |text| - pos, 0
    {
      hide SkipSpace, ParseItems, ParseValue;
      ghost var lo := pos;
      var found := Consume('[');
      if !found || depth > MAX_DEPTH {
        return None;
      }
      WsSkip();
      if data[pos] == ']' {
        pos := pos + 1;
        return Some(VList([]));
      }
      ghost var start := pos;
      var items := DecodeItems(depth);
      if items == None {
        return None;
      }
      ViewsFrame(data[..], data[..], items.value, start, pos, lo, pos);
      r := Some(VList(items.value));
    }

    /** The loop over the items of a list, up to and including its closing bracket. */
    method DecodeItems(depth: nat) returns (r: Option<seq<RValue>>)
      requires Valid()
      modifies this`pos, data
      ensures Valid() && old(pos) <= pos
      ensures forall k :: 0 <= k < old(pos) ==> data[k] == old(data[k])
      ensures r.Some? <==> ParseItems(text, old(pos), depth).Some?
      ensures r.Some? ==>
                && pos == ParseItems(text, old(pos), depth).value.1
                && AllSound(data[..], r.value, old(pos), pos)
                && Views(data[..], r.value, old(pos), pos) == ParseItems(text, old(pos), depth).value.0
      decreases |text| - pos, 3
    {
      hide ParseItems, Views, ItemsSoFar, AllSound;
      ghost var lo := pos;
      var items: seq<RValue> := [];
      ItemsStart(text, data[..], lo, depth);
      var turn := More;
      while turn == More
        invariant Valid() && lo <= pos
        invariant forall k :: 0 <= k < lo ==> data[k] == old(data[k])
        invariant turn == More ==> ItemsSoFar(text, data[..], items, lo, pos, depth)
        invariant turn == Failed ==> ParseItems(text, lo, depth) == None
        invariant turn == Closed ==>
                    && AllSound(data[..], items, lo, pos)
                    && ParseItems(text, lo, depth) == Some((Views(data[..], items, lo, pos), pos))
        decreases |text| - pos, turn == More
      {
        turn, items := DecodeItem(lo, items, depth);
      }
      r := if turn == Closed then Some(items) else None;
    }

    /** One turn of that loop: a value, the space after it, and the bracket or comma. */
    method DecodeItem(ghost lo: nat, done: seq<RValue>, depth: nat) returns (turn: Turn, items: seq<RValue>)
      requires Valid() && lo <= pos && ItemsSoFar(text, data[..], done, lo, pos, depth)
      modifies this`pos, data
      ensures Valid() && old(pos) <= pos && (turn == More ==> old(pos) < pos)
      ensures forall k :: 0 <= k < old(pos) ==> data[k] == old(data[k])
      ensures turn == More ==> ItemsSoFar(text, data[..], items, lo, pos, depth)
      ensures turn == Failed ==> ParseItems(text, lo, depth) == None
      ensures turn == Closed ==>
                && AllSound(data[..], items, lo, pos)
                && ParseItems(text, lo, depth) == Some((Views(data[..], items, lo, pos), pos))
      decreases |text| - pos, 2
    {
      hide ParseItems, ParseValue, Sound, View, Views, ItemsSoFar, AllSound, SkipSpace;
      ghost var before, p0 := data[..], pos;
      items := done;
      var v := DecodeValue(depth + 1);
      if v == None {
        ItemsFail(text, before, done, lo, p0, depth);
        return Failed, items;
      }
      ghost var p1 := pos;
      WsSkip();
      items := done + [v.value];
      if data[pos] == ']' {
        pos := pos + 1;
        ItemsEnd(text, before, data[..], done, v.value, lo, p0, p1, depth);
        return Closed, items;
      }
      var comma := Consume(',');
      if !comma {
        ItemsFail(text, before, done, lo, p0, depth);
        return Failed, items;
      }
      WsSkip();
      ItemsStep(text, before, data[..], done, v.value, lo, p0, p1, depth);
      turn := More;
    }

    method DecodeObject(depth: nat) returns (r: Option<RValue>)
      requires Valid() && text[pos] == '{'
      modifies this`pos, data
      ensures Valid() && old(pos) <= pos
      ensures forall k :: 0 <= k < old(pos) ==> data[k] == old(data[k])
      ensures r.Some? <==> ParseObject(text, old(pos), depth).Some?
      ensures r.Some? ==>
                && pos == ParseObject(text, old(pos), depth).value.1
                && Sound(data[..], r.value, old(pos), pos)
                && View(data[..], r.value, old(pos), pos) == ParseObject(text, old(pos), depth).value.0
      decreases |text| - pos, 0
    {
      hide SkipSpace, ParseMembers, ParseMember;
      ghost var lo := pos;
      var found := Consume('{');
      if !found || depth > MAX_DEPTH {
        return None;
      }
      WsSkip();
      if data[pos] == '}' {
        pos := pos + 1;
        return Some(VObject([]));
      }
      ghost var start := pos;
      var members := DecodeMembers(depth);
      if members == None {
        return None;
      }
      MemberViewsFrame(data[..], data[..], members.value, start, pos, lo, pos);
      r := Some(VObject(members.value));
    }

    /** The loop over the members of an object, up to and including its closing brace. */
    method DecodeMembers(depth: nat) returns (r: Option<seq<(Range, RValue)>>)
      requires Valid()
      modifies this`pos, data
      ensures Valid() && old(pos) <= pos
      ensures forall k :: 0 <= k < old(pos) ==> data[k] == old(data[k])
      ensures r.Some? <==> ParseMembers(text, old(pos), depth).Some?
      ensures r.Some? ==>
                && pos == ParseMembers(text, old(pos), depth).value.1
                && AllSoundMembers(data[..], r.value, old(pos), pos)
                && MemberViews(data[..], r.value, old(pos), pos) == ParseMembers(text, old(pos), depth).value.0
      decreases |text| - pos, 4
    {
      hide ParseMembers, MemberViews, MembersSoFar, AllSoundMembers;
      ghost var lo := pos;
      var members: seq<(Range, RValue)> := [];
      MembersStart(text, data[..], lo, depth);
      var turn := More;
      while turn == More
        invariant Valid() && lo <= pos
        invariant forall k :: 0 <= k < lo ==> data[k] == old(data[k])
        invariant turn == More ==> MembersSoFar(text, data[..], members, lo, pos, depth)
        invariant turn == Failed ==> ParseMembers(text, lo, depth) == None
        invariant turn == Closed ==>
                    && AllSoundMembers(data[..], members, lo, pos)
                    && ParseMembers(text, lo, depth) == Some((MemberViews(data[..], members, lo, pos), pos))
        decreases |text| - pos, turn == More
      {
        turn, members := DecodeNextMember(lo, members, depth);
      }
      r := if turn == Closed then Some(members) else None;
    }

    /** One turn of that loop: a member and the brace or comma. */
    method DecodeNextMember(ghost lo: nat, done: seq<(Range, RValue)>, depth: nat)
      returns (turn: Turn, members: seq<(Range, RValue)>)
      requires Valid() && lo <= pos && MembersSoFar(text, data[..], done, lo, pos, depth)
      modifies this`pos, data
      ensures Valid() && old(pos) <= pos && (turn == More ==> old(pos) < pos)
      ensures forall k :: 0 <= k < old(pos) ==> data[k] == old(data[k])
      ensures turn == More ==> MembersSoFar(text, data[..], members, lo, pos, depth)
      ensures turn == Failed ==> ParseMembers(text, lo, depth) == None
      ensures turn == Closed ==>
                && AllSoundMembers(data[..], members, lo, pos)
                && ParseMembers(text, lo, depth) == Some((MemberViews(data[..], members, lo, pos), pos))
      decreases |text| - pos, 3
    {
      hide ParseMembers, ParseMember, SoundMember, MemberView, MemberViews, MembersSoFar, AllSoundMembers, SkipSpace;
      ghost var before, p0 := data[..], pos;
      members := done;
      var m := DecodeMember(depth);
      if m == None {
        MembersFail(text, before, done, lo, p0, depth);
        return Failed, members;
      }
      ghost var p1 := pos;
      members := done + [m.value];
      if data[pos] == '}' {
        pos := pos + 1;
        MembersEnd(text, before, data[..], done, m.value, lo, p0, p1, depth);
        return Closed, members;
      }
      var comma := Consume(',');
      if !comma {
        MembersFail(text, before, done, lo, p0, depth);
        return Failed, members;
      }
      WsSkip();
      MembersStep(text, before, data[..], done, m.value, lo, p0, p1, depth);
      turn := More;
    }

    /** One key, unescaped in place at once, and its colon. */
    method DecodeKey() returns (r: Option<Range>)
      requires Valid()
      modifies this`pos, data
      ensures Valid() && old(pos) <= pos
      ensures forall k :: 0 <= k < old(pos) ==> data[k] == old(data[k])
      ensures var s := ParseString(text, old(pos)); r.Some? <==> s.Some? && text[SkipSpace(text, s.value.1)] == ':'
      ensures r.Some? ==>
                var s := ParseString(text, old(pos));
                && pos == SkipSpace(text, s.value.1) + 1
                && old(pos) <= r.value.start <= r.value.end <= pos
                && data[r.value.start..r.value.end] == s.value.0
    {
      hide SkipSpace, ParseString, Unescape, IsBody;
      ghost var lo := pos;
      var t := DecodeString();
      if t == None {
        return None;
      }
      ghost var before := data[..];
      WsSkip();
      var colon := Consume(':');
      if !colon {
        return None;
      }
      assert data[t.value.start..t.value.end] == before[t.value.start..t.value.end];
      var end := UnescapeInPlace(data, t.value);
      r := Some(Range(t.value.start, end));
    }

    /** One key and one value, with the space after them. */
    method DecodeMember(depth: nat) returns (r: Option<(Range, RValue)>)
      requires Valid()
      modifies this`pos, data
      ensures Valid() && old(pos) <= pos
      ensures forall k :: 0 <= k < old(pos) ==> data[k] == old(data[k])
      ensures r.Some? <==> ParseMember(text, old(pos), depth).Some?
      ensures r.Some? ==>
                && pos == ParseMember(text, old(pos), depth).value.1
                && SoundMember(data[..], r.value, old(pos), pos)
                && MemberView(data[..], r.value, old(pos), pos) == ParseMember(text, old(pos), depth).value.0
      decreases |text| - pos, 2
    {
      hide SkipSpace, ParseString, ParseValue, Sound, View, Unescape, IsBody;
      ghost var lo := pos;
      var key := DecodeKey();
      if key == None {
        return None;
      }
      WsSkip();
      ghost var p0, unescaped := pos, data[..];
      assert unescaped[key.value.start..key.value.end] == data[key.value.start..key.value.end];
      var v := DecodeValue(depth + 1);
      if v == None {
        return None;
      }
      ghost var p1 := pos;
      WsSkip();
      ViewFrame(data[..], data[..], v.value, p0, p1, lo, pos);
      SameSlice(unescaped, data[..], 0, p0, key.value);
      r := Some((key.value, v.value));
    }

    /** parse: the whole document, up to the NUL. */
    method Parse() returns (r: Option<RValue>)
      requires Valid() && pos == 0
      modifies this`pos, data
      ensures r.Some? <==> ParseDocument(text).Some?
      ensures r.Some? ==>
                && Sound(data[..], r.value, 0, |text|)
                && View(data[..], r.value, 0, |text|) == ParseDocument(text).value
    {
      hide ParseValue, SkipSpace, Sound, View;
      WsSkip();
      ghost var p0 := pos;
      r := DecodeValue(0);
      ghost var p1 := pos;
      WsSkip();
      if r.Some? {
        if data[pos] != '\0' {
          return None;
        }
        ViewFrame(data[..], data[..], r.value, p0, p1, 0, |text|);
      }
    }
  }

  /** Elements already read, put before what is still to be read. */
  function Prepend<T>(done: seq<T>, rest: Option<(seq<T>, nat)>): Option<(seq<T>, nat)> {
    match rest
    case Some(r) => Some((done + r.0, r.1))
    case None => None
  }

  lemma PrependMore<T>(done: seq<T>, x: T, rest: Option<(seq<T>, nat)>)
    ensures Prepend(done, Prepend([x], rest)) == Prepend(done + [x], rest)
  {
    if rest.Some? {
      assert done + ([x] + rest.value.0) == done + [x] + rest.value.0;
    }
  }

  lemma AppendItem(before: string, after: string, items: seq<RValue>, v: RValue, lo: nat, p0: nat, p1: nat, hi: nat)
    requires AllSound(before, items, lo, p0) && lo <= p0 <= p1 <= hi <= |after|
    requires |before| == |after| && forall k :: 0 <= k < p0 ==> before[k] == after[k]
    requires Sound(after, v, p0, p1)
    ensures AllSound(after, items + [v], lo, hi)
    ensures Views(after, items + [v], lo, hi) == Views(before, items, lo, p0) + [View(after, v, p0, p1)]
  {
    ViewsFrame(before, after, items, lo, p0, lo, hi);
    ViewFrame(after, after, v, p0, p1, lo, hi);
    var all := items + [v];
    assert all[..|all| - 1] == items;
  }

  lemma AppendMember(before: string, after: string, members: seq<(Range, RValue)>, m: (Range, RValue), lo: nat, p0: nat,
                     p1: nat, hi: nat)
    requires AllSoundMembers(before, members, lo, p0) && lo <= p0 <= p1 <= hi <= |after|
    requires |before| == |after| && forall k :: 0 <= k < p0 ==> before[k] == after[k]
    requires SoundMember(after, m, p0, p1)
    ensures AllSoundMembers(after, members + [m], lo, hi)
    ensures MemberViews(after, members + [m], lo, hi)
         == MemberViews(before, members, lo, p0) + [MemberView(after, m, p0, p1)]
  {
    MemberViewsFrame(before, after, members, lo, p0, lo, hi);
    MemberViewFrame(after, after, m, p0, p1, lo, hi);
    var all := members + [m];
    assert all[..|all| - 1] == members;
  }

  // ---- The two loops, on snapshots of the buffer ----

  /** Reading the whole list is reading the items so far and then the rest. */
  ghost predicate ItemsSoFar(t: string, buf: string, items: seq<RValue>, lo: nat, p: nat, depth: nat)
    requires Terminated(t) && lo < |t| && p < |t|
  {
    && AllSound(buf, items, lo, p)
    && ParseItems(t, lo, depth) == Prepend(Views(buf, items, lo, p), ParseItems(t, p, depth))
  }

  lemma ItemsStart(t: string, buf: string, lo: nat, depth: nat)
    requires Terminated(t) && lo < |t|
    ensures ItemsSoFar(t, buf, [], lo, lo, depth)
  {
    hide ParseItems;
    var rest := ParseItems(t, lo, depth);
    if rest.Some? {
      assert [] + rest.value.0 == rest.value.0;
    }
  }

  lemma ItemsFail(t: string, buf: string, items: seq<RValue>, lo: nat, p: nat, depth: nat)
    requires Terminated(t) && lo < |t| && p < |t| && ItemsSoFar(t, buf, items, lo, p, depth)
    requires var v := ParseValue(t, p, depth + 1);
             v == None || (t[SkipSpace(t, v.value.1)] != ']' && t[SkipSpace(t, v.value.1)] != ',')
    ensures ParseItems(t, lo, depth) == None
  {
    hide ParseValue, SkipSpace, Views, View;
  }

  lemma ItemsStep(t: string, before: string, after: string, items: seq<RValue>, v: RValue, lo: nat, p0: nat, p1: nat,
                  depth: nat)
    requires Terminated(t) && lo <= p0 < p1 < |t| == |before| == |after| && ItemsSoFar(t, before, items, lo, p0, depth)
    requires forall k :: 0 <= k < p0 ==> before[k] == after[k]
    requires Sound(after, v, p0, p1) && ParseValue(t, p0, depth + 1) == Some((View(after, v, p0, p1), p1))
    requires t[SkipSpace(t, p1)] == ','
    ensures SkipSpace(t, p1) + 1 < |t|
    ensures ItemsSoFar(t, after, items + [v], lo, SkipSpace(t, SkipSpace(t, p1) + 1), depth)
  {
    hide ParseValue, SkipSpace, Views, View, Sound;
    var p := SkipSpace(t, SkipSpace(t, p1) + 1);
    AppendItem(before, after, items, v, lo, p0, p1, p);
    PrependMore(Views(before, items, lo, p0), View(after, v, p0, p1), ParseItems(t, p, depth));
  }

  lemma ItemsEnd(t: string, before: string, after: string, items: seq<RValue>, v: RValue, lo: nat, p0: nat, p1: nat,
                 depth: nat)
    requires Terminated(t) && lo <= p0 < p1 < |t| == |before| == |after| && ItemsSoFar(t, before, items, lo, p0, depth)
    requires forall k :: 0 <= k < p0 ==> before[k] == after[k]
    requires Sound(after, v, p0, p1) && ParseValue(t, p0, depth + 1) == Some((View(after, v, p0, p1), p1))
    requires t[SkipSpace(t, p1)] == ']'
    ensures AllSound(after, items + [v], lo, SkipSpace(t, p1) + 1)
    ensures ParseItems(t, lo, depth)
         == Some((Views(after, items + [v], lo, SkipSpace(t, p1) + 1), SkipSpace(t, p1) + 1))
  {
    hide ParseValue, SkipSpace, Views, View, Sound;
    AppendItem(before, after, items, v, lo, p0, p1, SkipSpace(t, p1) + 1);
  }

  ghost predicate MembersSoFar(t: string, buf: string, members: seq<(Range, RValue)>, lo: nat, p: nat, depth: nat)
    requires Terminated(t) && lo < |t| && p < |t|
  {
    && AllSoundMembers(buf, members, lo, p)
    && ParseMembers(t, lo, depth) == Prepend(MemberViews(buf, members, lo, p), ParseMembers(t, p, depth))
  }

  lemma MembersStart(t: string, buf: string, lo: nat, depth: nat)
    requires Terminated(t) && lo < |t|
    ensures MembersSoFar(t, buf, [], lo, lo, depth)
  {
    hide ParseMembers;
    var rest := ParseMembers(t, lo, depth);
    if rest.Some? {
      assert [] + rest.value.0 == rest.value.0;
    }
  }

  lemma MembersFail(t: string, buf: string, members: seq<(Range, RValue)>, lo: nat, p: nat, depth: nat)
    requires Terminated(t) && lo < |t| && p < |t| && MembersSoFar(t, buf, members, lo, p, depth)
    requires var m := ParseMember(t, p, depth); m == None || (t[m.value.1] != '}' && t[m.value.1] != ',')
    ensures ParseMembers(t, lo, depth) == None
  {
    hide ParseMember, SkipSpace, MemberViews, MemberView;
  }

  lemma MembersStep(t: string, before: string, after: string, members: seq<(Range, RValue)>, m: (Range, RValue),
                    lo: nat,
                    p0: nat, p1: nat, depth: nat)
    requires Terminated(t) && lo <= p0 < p1 < |t| == |before| == |after|
    requires MembersSoFar(t, before, members, lo, p0, depth)
    requires forall k :: 0 <= k < p0 ==> before[k] == after[k]
    requires SoundMember(after, m, p0, p1) && ParseMember(t, p0, depth) == Some((MemberView(after, m, p0, p1), p1))
    requires t[p1] == ','
    ensures p1 + 1 < |t|
    ensures MembersSoFar(t, after, members + [m], lo, SkipSpace(t, p1 + 1), depth)
  {
    hide ParseMember, SkipSpace, MemberViews, MemberView, SoundMember;
    var p := SkipSpace(t, p1 + 1);
    AppendMember(before, after, members, m, lo, p0, p1, p);
    PrependMore(MemberViews(before, members, lo, p0), MemberView(after, m, p0, p1), ParseMembers(t, p, depth));
  }

  lemma MembersEnd(t: string, before: string, after: string, members: seq<(Range, RValue)>, m: (Range, RValue), lo: nat,
                   p0: nat, p1: nat, depth: nat)
    requires Terminated(t) && lo <= p0 < p1 < |t| == |before| == |after|
    requires MembersSoFar(t, before, members, lo, p0, depth)
    requires forall k :: 0 <= k < p0 ==> before[k] == after[k]
    requires SoundMember(after, m, p0, p1) && ParseMember(t, p0, depth) == Some((MemberView(after, m, p0, p1), p1))
    requires t[p1] == '}'
    ensures AllSoundMembers(after, members + [m], lo, p1 + 1)
    ensures ParseMembers(t, lo, depth) == Some((MemberViews(after, members + [m], lo, p1 + 1), p1 + 1))
  {
    hide ParseMember, SkipSpace, MemberViews, MemberView, SoundMember;
    AppendMember(before, after, members, m, lo, p0, p1, p1 + 1);
  }

  /** load: copies the text, terminates it, and reads it. */
  method LoadText(text: string) returns (r: Option<RValue>, data: array<char>)
    ensures fresh(data)
    ensures r.Some? <==> Load(text).Some?
    ensures r.Some? ==>
              && Sound(data[..], r.value, 0, data.Length)
              && View(data[..], r.value, 0, data.Length) == Load(text).value
  {
    var size := |text|;
    data := new char[size + 1](i => '\0');
    var i := 0;
    while i < size
      invariant 0 <= i <= size
      invariant data[..i] == text[..i]
      invariant data[size] == '\0'
    {
      data[i] := text[i];
      i := i + 1;
    }
    assert data[..] == text + ['\0'];
    var parser := new Parser(data);
    r := parser.Parse();
  }
}
