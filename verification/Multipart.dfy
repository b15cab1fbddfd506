/**
 Multipart messages: how they are printed, how they are read, and that reading undoes printing.  Headers and parameters
 stand in the order in which the hash tables are walked.
 */
module Multipart {
  import opened Wrappers

  const DD := "--"
  const CRLF := "\r\n"

  datatype Header = Header(value: string, params: seq<(string, string)>)

  datatype Part = Part(headers: seq<(string, Header)>, body: string)

  /** Nameless stands for looking into a missing name parameter, which the program does unchecked. */
  datatype Failure = NoDelimiter | OutOfRange | Nameless

  datatype Outcome<T> = Done(value: T) | Failed(why: Failure)

  // ---- Searching and cutting strings ----

  predicate At(s: string, pattern: string, i: nat) {
    i + |pattern| <= |s| && s[i..i + |pattern|] == pattern
  }

  ghost predicate Contains(s: string, pattern: string) {
    exists i: nat :: At(s, pattern, i)
  }

  function FindFrom(s: string, pattern: string, i: nat): (r: Option<nat>)
    requires i <= |s|
    ensures r.Some? ==> i <= r.value && At(s, pattern, r.value)
                        && forall j: nat :: i <= j < r.value ==> !At(s, pattern, j)
    ensures r.None? ==> forall j: nat :: i <= j ==> !At(s, pattern, j)
    decreases |s| - i
  {
    if At(s, pattern, i) then Some(i) else if i == |s| then None else FindFrom(s, pattern, i + 1)
  }

  /** std::string::find: the first occurrence. */
  function Find(s: string, pattern: string): (r: Option<nat>)
    ensures r.Some? ==> At(s, pattern, r.value) && forall j: nat :: j < r.value ==> !At(s, pattern, j)
    ensures r.None? <==> !Contains(s, pattern)
  {
    FindFrom(s, pattern, 0)
  }

  /** substr(0, n) and erase(0, n) stop at the end of the string. */
  function Take(s: string, n: nat): string { if n <= |s| then s[..n] else s }

  function Erase(s: string, n: nat): string { if n <= |s| then s[n..] else "" }

  function TakeTo(s: string, found: Option<nat>): string { if found.Some? then Take(s, found.value) else s }

  /** found + n, where "not found" is the largest size and wraps around. */
  function Past(found: Option<nat>, n: nat): nat
    requires n > 0
  {
    if found.Some? then found.value + n else n - 1
  }

  function Trim(s: string): string {
    if |s| > 1 && s[0] == '"' && s[|s| - 1] == '"' then s[1..|s| - 1] else s
  }

  function Pad(s: string): string { "\"" + s + "\"" }

  // ---- Printing ----

  function DumpParams(params: seq<(string, string)>): string {
    if params == [] then "" else "; " + params[0].0 + "=" + Pad(params[0].1) + DumpParams(params[1..])
  }

  function Line(h: (string, Header)): string { h.0 + ": " + h.1.value + DumpParams(h.1.params) }

  function DumpHeaders(headers: seq<(string, Header)>): string {
    if headers == [] then "" else Line(headers[0]) + CRLF + DumpHeaders(headers[1..])
  }

  function DumpPart(p: Part): string { DumpHeaders(p.headers) + CRLF + p.body + CRLF }

  function DumpParts(parts: seq<Part>, delimiter: string): string {
    if parts == [] then delimiter + DD + CRLF
    else delimiter + CRLF + DumpPart(parts[0]) + DumpParts(parts[1..], delimiter)
  }

  // ---- Reading ----

  /** unordered_map::emplace: the first value of a name stays. */
  function Emplace(params: seq<(string, string)>, name: string, value: string): seq<(string, string)> {
    if exists k :: 0 <= k < |params| && params[k].0 == name then params else params + [(name, value)]
  }

  function ParamsOf(line: string, acc: seq<(string, string)>): seq<(string, string)>
    decreases |line|
  {
    if line == "" then acc
    else
      var semicolon := Find(line, "; ");
      var param := TakeTo(line, semicolon);
      var rest := if semicolon.Some? then Erase(line, semicolon.value + 2) else "";
      var split := Find(param, "=");
      ParamsOf(rest, Emplace(acc, TakeTo(param, split), Trim(Erase(param, Past(split, 1)))))
  }

  function HeaderOf(line: string): Outcome<(string, Header)> {
    if line == "" then Done(("", Header("", [])))
    else
      var semicolon := Find(line, "; ");
      var header := TakeTo(line, semicolon);
      var rest := if semicolon.Some? then Erase(line, semicolon.value + 2) else "";
      var split := Find(header, ": ");
      if Past(split, 2) > |header| then Failed(OutOfRange)
      else Done((TakeTo(header, split), Header(header[Past(split, 2)..], ParamsOf(rest, []))))
  }

  function HeadersOf(lines: string, acc: seq<(string, Header)>): Outcome<seq<(string, Header)>>
    decreases |lines|
  {
    if lines == "" then Done(acc)
    else
      var found := Find(lines, CRLF);
      match HeaderOf(TakeTo(lines, found))
      case Failed(why) => Failed(why)
      case Done(h) => HeadersOf(Erase(lines, Past(found, 2)), acc + [h])
  }

  function PartOf(section: string): Outcome<Part> {
    var found := Find(section, CRLF + CRLF);
    var rest := Erase(section, Past(found, 4));
    match HeadersOf(Take(section, Past(found, 2)), [])
    case Failed(why) => Failed(why)
    case Done(headers) => Done(Part(headers, if |rest| < 2 then rest else rest[..|rest| - 2]))
  }

  function PartsOf(body: string, delimiter: string, acc: seq<Part>): Outcome<seq<Part>>
    requires delimiter != ""
    decreases |body|
  {
    if body == CRLF then Done(acc)
    else
      var found := Find(body, delimiter);
      if found.None? then Failed(NoDelimiter)
      else
        var section := body[..found.value];
        var rest := Erase(body, found.value + |delimiter| + 2);
        if section == "" then PartsOf(rest, delimiter, acc)
        else
          match PartOf(section)
          case Failed(why) => Failed(why)
          case Done(p) => if NameOf(p).None? then Failed(Nameless) else PartsOf(rest, delimiter, acc + [p])
  }

  // ---- The name of a part ----

  function Lower(c: char): char { if 'A' <= c <= 'Z' then c - 'A' + 'a' else c }

  predicate SameKey(a: string, b: string) {
    |a| == |b| && forall k :: 0 <= k < |a| ==> Lower(a[k]) == Lower(b[k])
  }

  function ParamNamed(params: seq<(string, string)>, name: string): Option<string> {
    if params == [] then None
    else if params[0].0 == name then Some(params[0].1)
    else ParamNamed(params[1..], name)
  }

  function DispositionName(headers: seq<(string, Header)>): Option<string> {
    if headers == [] then None
    else if SameKey(headers[0].0, "Content-Disposition") then ParamNamed(headers[0].1.params, "name")
    else DispositionName(headers[1..])
  }

  function NameOf(p: Part): Option<string> { DispositionName(p.headers) }

  // ---- What can be printed so that it reads back ----

  /** x directly followed by y occurs nowhere. */
  ghost predicate Lacks(s: string, x: char, y: char) {
    forall i :: 0 <= i && i + 1 < |s| ==> !(s[i] == x && s[i + 1] == y)
  }

  ghost predicate Distinct(params: seq<(string, string)>) {
    forall j, k :: 0 <= j < k < |params| ==> params[j].0 != params[k].0
  }

  ghost predicate GoodParam(p: (string, string)) {
    && '=' !in p.0
    && Lacks(p.0, ';', ' ') && Lacks(p.1, ';', ' ')
    && Lacks(p.0, '\r', '\n') && Lacks(p.1, '\r', '\n')
  }

  ghost predicate GoodHeader(h: (string, Header)) {
    && Lacks(h.0, ':', ' ') && Lacks(h.0, ';', ' ') && Lacks(h.0, '\r', '\n')
    && Lacks(h.1.value, ';', ' ') && Lacks(h.1.value, '\r', '\n')
    && (forall k :: 0 <= k < |h.1.params| ==> GoodParam(h.1.params[k]))
    && Distinct(h.1.params)
  }

  ghost predicate GoodPart(p: Part, delimiter: string) {
    && NameOf(p).Some?
    && (forall k :: 0 <= k < |p.headers| ==> GoodHeader(p.headers[k]))
    && !Contains(DumpPart(p), delimiter)
  }

  // ---- Where a separator is found ----

  lemma FindIs(s: string, pattern: string, n: nat)
    requires At(s, pattern, n) && forall j: nat :: j < n ==> !At(s, pattern, j)
    ensures Find(s, pattern) == Some(n)
  {
  }

  lemma AtPair(s: string, x: char, y: char, i: nat)
    ensures At(s, [x, y], i) <==> i + 1 < |s| && s[i] == x && s[i + 1] == y
  {
    if i + 2 <= |s| { assert s[i..i + 2] == [s[i], s[i + 1]]; }
  }

  lemma NoPair(s: string, x: char, y: char)
    requires Lacks(s, x, y)
    ensures Find(s, [x, y]) == None
  {
    forall i: nat ensures !At(s, [x, y], i) { AtPair(s, x, y, i); }
  }

  lemma FirstPair(s: string, x: char, y: char, rest: string)
    requires Lacks(s, x, y) && x != y
    ensures Find(s + [x, y] + rest, [x, y]) == Some(|s|)
  {
    var t := s + [x, y] + rest;
    AtPair(t, x, y, |s|);
    forall j: nat | j < |s| ensures !At(t, [x, y], j) { AtPair(t, x, y, j); }
    FindIs(t, [x, y], |s|);
  }

  lemma LacksConcat(s: string, t: string, x: char, y: char)
    requires Lacks(s, x, y) && Lacks(t, x, y)
    requires s == "" || t == "" || s[|s| - 1] != x || t[0] != y
    ensures Lacks(s + t, x, y)
  {
  }

  lemma FirstDelimiter(section: string, delimiter: string, rest: string)
    requires !Contains(section, delimiter) && '\n' !in delimiter
    requires section == "" || section[|section| - 1] == '\n'
    ensures Find(section + delimiter + rest, delimiter) == Some(|section|)
  {
    var t := section + delimiter + rest;
    assert t[|section|..|section| + |delimiter|] == delimiter;
    forall j: nat | j < |section| ensures !At(t, delimiter, j) {
      if j + |delimiter| <= |section| {
        assert !At(section, delimiter, j);
        assert t[j..j + |delimiter|] == section[j..j + |delimiter|];
      } else if j + |delimiter| <= |t| {
        assert t[j..j + |delimiter|][|section| - 1 - j] == '\n';
      }
    }
    FindIs(t, delimiter, |section|);
  }

  // ---- Parameters ----

  function Param(p: (string, string)): string { p.0 + "=" + Pad(p.1) }

  lemma ParamLacks(p: (string, string), x: char, y: char)
    requires Lacks(p.0, x, y) && Lacks(p.1, x, y) && x != '=' && y != '=' && x != '"' && y != '"'
    ensures Lacks(Param(p), x, y)
  {
    LacksConcat(p.0, "=", x, y);
    LacksConcat("\"", p.1, x, y);
    LacksConcat("\"" + p.1, "\"", x, y);
    LacksConcat(p.0 + "=", Pad(p.1), x, y);
  }

  lemma SplitParam(p: (string, string))
    requires '=' !in p.0
    ensures var split := Find(Param(p), "=");
            TakeTo(Param(p), split) == p.0 && Trim(Erase(Param(p), Past(split, 1))) == p.1
  {
    var t := Param(p);
    assert t[|p.0|..|p.0| + 1] == "=";
    forall j: nat | j < |p.0| ensures !At(t, "=", j) { assert t[j..j + 1] == [p.0[j]]; }
    FindIs(t, "=", |p.0|);
    assert t[|p.0| + 1..] == Pad(p.1);
    assert Pad(p.1)[1..|Pad(p.1)| - 1] == p.1;
  }

  lemma ParamStep(p: (string, string), rest: string, acc: seq<(string, string)>)
    requires GoodParam(p) && forall k :: 0 <= k < |acc| ==> acc[k].0 != p.0
    ensures ParamsOf(Param(p) + "; " + rest, acc) == ParamsOf(rest, acc + [p])
  {
    var line := Param(p) + "; " + rest;
    ParamLacks(p, ';', ' ');
    SplitParam(p);
    FirstPair(Param(p), ';', ' ', rest);
    assert line[..|Param(p)|] == Param(p) && line[|Param(p)| + 2..] == rest;
    hide Find, Trim, Lacks;
  }

  lemma LastParamStep(p: (string, string), acc: seq<(string, string)>)
    requires GoodParam(p) && forall k :: 0 <= k < |acc| ==> acc[k].0 != p.0
    ensures ParamsOf(Param(p), acc) == acc + [p]
  {
    ParamLacks(p, ';', ' ');
    SplitParam(p);
    NoPair(Param(p), ';', ' ');
    hide Find, Trim, Lacks;
    assert ParamsOf("", acc + [p]) == acc + [p];
  }

  lemma DistinctStep(acc: seq<(string, string)>, params: seq<(string, string)>)
    requires params != [] && Distinct(acc + params)
    ensures forall k :: 0 <= k < |acc| ==> acc[k].0 != params[0].0
    ensures acc + [params[0]] + params[1..] == acc + params
  {
    forall k | 0 <= k < |acc| ensures acc[k].0 != params[0].0 {
      assert (acc + params)[k] == acc[k] && (acc + params)[|acc|] == params[0];
    }
  }

  lemma {:induction false} ReadParams(params: seq<(string, string)>, acc: seq<(string, string)>)
    requires params != [] && (forall k :: 0 <= k < |params| ==> GoodParam(params[k])) && Distinct(acc + params)
    ensures ParamsOf(Param(params[0]) + DumpParams(params[1..]), acc) == acc + params
    decreases |params|
  {
    hide ParamsOf, GoodParam, Param, Distinct;
    var p := params[0];
    DistinctStep(acc, params);
    if |params| == 1 {
      LastParamStep(p, acc);
      assert params[1..] == [];
      assert Param(p) + DumpParams([]) == Param(p);
    } else {
      DumpParamsStep(params);
      hide DumpParams;
      var rest := Param(params[1]) + DumpParams(params[2..]);
      ParamStep(p, rest, acc);
      assert Param(p) + "; " + rest == Param(p) + ("; " + rest);
      assert params[1..][1..] == params[2..];
      ReadParams(params[1..], acc + [p]);
    }
  }

  lemma DumpParamsStep(params: seq<(string, string)>)
    requires |params| > 1
    ensures DumpParams(params[1..]) == "; " + (Param(params[1]) + DumpParams(params[2..]))
  {
    assert params[1..][1..] == params[2..];
  }

  // ---- Header lines ----

  lemma {:induction false} DumpParamsLacksCrlf(params: seq<(string, string)>)
    requires forall k :: 0 <= k < |params| ==> GoodParam(params[k])
    ensures Lacks(DumpParams(params), '\r', '\n')
  {
    if params != [] {
      DumpParamsLacksCrlf(params[1..]);
      ParamLacks(params[0], '\r', '\n');
      LacksSeparator();
      assert DumpParams(params) == "; " + Param(params[0]) + DumpParams(params[1..]);
      hide *;
      LacksConcat("; ", Param(params[0]), '\r', '\n');
      LacksConcat("; " + Param(params[0]), DumpParams(params[1..]), '\r', '\n');
    }
  }

  lemma LacksSeparator()
    ensures Lacks("; ", '\r', '\n')
  {
  }

  lemma LineLacksCrlf(h: (string, Header))
    requires GoodHeader(h)
    ensures Line(h) != "" && Lacks(Line(h), '\r', '\n')
  {
    DumpParamsLacksCrlf(h.1.params);
    LacksConcat(h.0, ": ", '\r', '\n');
    LacksConcat(h.0 + ": ", h.1.value, '\r', '\n');
    LacksConcat(h.0 + ": " + h.1.value, DumpParams(h.1.params), '\r', '\n');
  }

  lemma SplitHeader(key: string, value: string)
    requires Lacks(key, ':', ' ') && Lacks(key, ';', ' ') && Lacks(value, ';', ' ')
    ensures var text := key + ": " + value;
            && Find(text, ": ") == Some(|key|) && text[..|key|] == key && text[|key| + 2..] == value
            && Lacks(text, ';', ' ') && text != ""
  {
    LacksConcat(key, ": ", ';', ' ');
    LacksConcat(key + ": ", value, ';', ' ');
    FirstPair(key, ':', ' ', value);
  }

  lemma SplitLine(text: string, rest: string)
    requires Lacks(text, ';', ' ')
    ensures var line := text + "; " + rest;
            Find(line, "; ") == Some(|text|) && line[..|text|] == text && line[|text| + 2..] == rest
  {
    FirstPair(text, ';', ' ', rest);
  }

  lemma HeaderFrom(line: string, text: string, key: string, value: string, params: seq<(string, string)>)
    requires line != "" && TakeTo(line, Find(line, "; ")) == text
    requires Find(text, ": ") == Some(|key|) && |key| + 2 <= |text|
    requires text[..|key|] == key && text[|key| + 2..] == value
    requires var semicolon := Find(line, "; ");
             ParamsOf(if semicolon.Some? then Erase(line, semicolon.value + 2) else "", []) == params
    ensures HeaderOf(line) == Done((key, Header(value, params)))
  {
    hide Find, ParamsOf, Erase;
  }

  lemma ReadLine(h: (string, Header))
    requires GoodHeader(h)
    ensures HeaderOf(Line(h)) == Done(h)
  {
    var text := h.0 + ": " + h.1.value;
    var params := h.1.params;
    SplitHeader(h.0, h.1.value);
    if params == [] {
      NoPair(text, ';', ' ');
      assert Line(h) == text;
    } else {
      var rest := Param(params[0]) + DumpParams(params[1..]);
      SplitLine(text, rest);
      assert [] + params == params;
      ReadParams(params, []);
      TextThenParams(h);
    }
    hide Find, HeaderOf, GoodHeader;
    HeaderFrom(Line(h), text, h.0, h.1.value, params);
  }

  lemma TextThenParams(h: (string, Header))
    requires h.1.params != []
    ensures var text := h.0 + ": " + h.1.value;
            Line(h) == text + "; " + (Param(h.1.params[0]) + DumpParams(h.1.params[1..]))
  {
  }

  lemma HeaderStep(h: (string, Header), rest: string, acc: seq<(string, Header)>)
    requires GoodHeader(h)
    ensures HeadersOf(Line(h) + CRLF + rest, acc) == HeadersOf(rest, acc + [h])
  {
    var lines := Line(h) + CRLF + rest;
    LineLacksCrlf(h);
    ReadLine(h);
    FirstPair(Line(h), '\r', '\n', rest);
    assert lines[..|Line(h)|] == Line(h) && lines[|Line(h)| + 2..] == rest;
    hide Find, HeaderOf, Line, Lacks, GoodHeader;
  }

  lemma {:induction false} ReadHeaders(headers: seq<(string, Header)>, acc: seq<(string, Header)>)
    requires forall k :: 0 <= k < |headers| ==> GoodHeader(headers[k])
    ensures HeadersOf(DumpHeaders(headers), acc) == Done(acc + headers)
    decreases |headers|
  {
    hide *;
    if headers == [] {
      NoHeaders(acc);
    } else {
      DumpHeadersFirst(headers);
      HeaderStep(headers[0], DumpHeaders(headers[1..]), acc);
      assert acc + [headers[0]] + headers[1..] == acc + headers;
      ReadHeaders(headers[1..], acc + [headers[0]]);
    }
  }

  lemma NoHeaders(acc: seq<(string, Header)>)
    ensures HeadersOf(DumpHeaders([]), acc) == Done(acc + [])
  {
    assert acc + [] == acc;
  }

  lemma DumpHeadersFirst(headers: seq<(string, Header)>)
    requires headers != []
    ensures DumpHeaders(headers) == Line(headers[0]) + CRLF + DumpHeaders(headers[1..])
  {
    hide Line;
  }

  // ---- Parts ----

  lemma AtBlank(s: string, i: nat)
    ensures At(s, CRLF + CRLF, i) <==> At(s, CRLF, i) && At(s, CRLF, i + 2)
  {
    if i + 4 <= |s| {
      assert s[i..i + 4] == s[i..i + 2] + s[i + 2..i + 4];
      if s[i..i + 4] == CRLF + CRLF {
        assert s[i..i + 2] == (CRLF + CRLF)[..2] && s[i + 2..i + 4] == (CRLF + CRLF)[2..];
      }
    }
  }

  /** The blank line is the end of the headers, and nothing before it. */
  lemma {:induction false} NoBlankBefore(headers: seq<(string, Header)>, rest: string, j: nat)
    requires headers != [] && forall k :: 0 <= k < |headers| ==> GoodHeader(headers[k])
    requires j < |DumpHeaders(headers)| - 2
    ensures !At(DumpHeaders(headers) + CRLF + rest, CRLF + CRLF, j)
    decreases |headers|
  {
    var line, tail := Line(headers[0]), DumpHeaders(headers[1..]) + CRLF + rest;
    LineLacksCrlf(headers[0]);
    TextFromHeaders(headers, rest);
    if |headers| > 1 {
      LineLacksCrlf(headers[1]);
      TextFromHeaders(headers[1..], rest);
    }
    hide GoodHeader, Line, Lacks, At;
    if j >= |line| + 2 {
      NoBlankBefore(headers[1..], rest, j - |line| - 2);
      AtShift(line + CRLF, tail, CRLF + CRLF, j - |line| - 2);
    } else if |headers| == 1 {
      NotWithinLine(line, tail, j);
    } else {
      NotAfterLine(line, Line(headers[1]), DumpHeaders(headers[1..][1..]) + CRLF + rest, j);
    }
  }

  lemma TextFromHeaders(headers: seq<(string, Header)>, rest: string)
    requires headers != []
    ensures DumpHeaders(headers) + CRLF + rest
            == Line(headers[0]) + CRLF + (DumpHeaders(headers[1..]) + CRLF + rest)
  {
    hide Line;
  }

  lemma NotWithinLine(line: string, tail: string, j: nat)
    requires Lacks(line, '\r', '\n') && j < |line|
    ensures !At(line + CRLF + tail, CRLF + CRLF, j)
  {
    var t := line + CRLF + tail;
    AtBlank(t, j);
    AtPair(t, '\r', '\n', j);
  }

  lemma NotAfterLine(line: string, next: string, behind: string, j: nat)
    requires Lacks(line, '\r', '\n') && Lacks(next, '\r', '\n') && next != "" && j < |line| + 2
    ensures !At(line + CRLF + (next + CRLF + behind), CRLF + CRLF, j)
  {
    var t := line + CRLF + (next + CRLF + behind);
    AtBlank(t, j);
    if j < |line| {
      NotWithinLine(line, next + CRLF + behind, j);
    } else if j == |line| {
      AtPair(t, '\r', '\n', j + 2);
      assert t[j + 2] == next[0] && t[j + 3] == (if |next| > 1 then next[1] else '\r');
    } else {
      AtPair(t, '\r', '\n', j);
    }
  }

  lemma AtShift(s: string, t: string, pattern: string, i: nat)
    ensures At(s + t, pattern, |s| + i) <==> At(t, pattern, i)
  {
    if i + |pattern| <= |t| { assert (s + t)[|s| + i..|s| + i + |pattern|] == t[i..i + |pattern|]; }
  }

  lemma HeadersEnd(headers: seq<(string, Header)>)
    requires headers != []
    ensures |DumpHeaders(headers)| >= 2 && DumpHeaders(headers)[|DumpHeaders(headers)| - 2..] == CRLF
    decreases |headers|
  {
    if |headers| > 1 { HeadersEnd(headers[1..]); }
  }

  lemma ReadPart(p: Part, delimiter: string)
    requires GoodPart(p, delimiter)
    ensures PartOf(DumpPart(p)) == Done(p)
  {
    assert p.headers != [];
    hide GoodHeader, At, Find, HeadersOf, DumpHeaders, NameOf;
    var head := DumpHeaders(p.headers);
    HeadersEnd(p.headers);
    forall j: nat | j < |head| - 2 ensures !At(head + CRLF + (p.body + CRLF), CRLF + CRLF, j) {
      NoBlankBefore(p.headers, p.body + CRLF, j);
    }
    SplitSection(head, p.body);
    ReadHeaders(p.headers, []);
    assert [] + p.headers == p.headers;
    assert DumpPart(p) == head + CRLF + (p.body + CRLF);
  }

  lemma SplitSection(head: string, body: string)
    requires |head| >= 2 && head[|head| - 2..] == CRLF
    requires forall j: nat :: j < |head| - 2 ==> !At(head + CRLF + (body + CRLF), CRLF + CRLF, j)
    ensures var section := head + CRLF + (body + CRLF);
            var found := Find(section, CRLF + CRLF);
            && Take(section, Past(found, 2)) == head
            && Erase(section, Past(found, 4)) == body + CRLF
            && (body + CRLF)[..|body + CRLF| - 2] == body
  {
    var t := head + CRLF + (body + CRLF);
    var n := |head| - 2;
    assert t[n..n + 4] == head[n..] + CRLF;
    FindIs(t, CRLF + CRLF, n);
    assert t[..n + 2] == head && t[n + 4..] == body + CRLF;
    assert (body + CRLF)[..|body|] == body;
  }

  lemma NotInEmpty(pattern: string)
    requires pattern != ""
    ensures !Contains("", pattern)
  {
  }

  /** The two characters behind a delimiter. */
  function Behind(last: bool): (two: string)
    ensures |two| == 2
  {
    if last then DD else CRLF
  }

  /** What is left of the text after a delimiter and the two characters behind it. */
  function Sections(parts: seq<Part>, delimiter: string): string {
    if parts == [] then CRLF
    else DumpPart(parts[0]) + delimiter + Behind(|parts| == 1) + Sections(parts[1..], delimiter)
  }

  lemma PartStep(p: Part, delimiter: string, two: string, rest: string, acc: seq<Part>)
    requires GoodPart(p, delimiter) && delimiter != "" && '\n' !in delimiter && |two| == 2
    ensures PartsOf(DumpPart(p) + delimiter + two + rest, delimiter, acc) == PartsOf(rest, delimiter, acc + [p])
  {
    var section := DumpPart(p);
    var t := section + delimiter + two + rest;
    ReadPart(p, delimiter);
    assert t == section + delimiter + (two + rest);
    FirstDelimiter(section, delimiter, two + rest);
    assert t[..|section|] == section && t[|section| + |delimiter| + 2..] == rest;
    assert |section| >= 2 && t != CRLF;
    hide Find, PartOf, DumpPart, NameOf;
  }

  lemma {:induction false} ReadSections(parts: seq<Part>, delimiter: string, acc: seq<Part>)
    requires delimiter != "" && '\n' !in delimiter
    requires forall k :: 0 <= k < |parts| ==> GoodPart(parts[k], delimiter)
    ensures PartsOf(Sections(parts, delimiter), delimiter, acc) == Done(acc + parts)
    decreases |parts|
  {
    hide GoodPart, DumpPart, Behind;
    if parts == [] {
      assert acc + parts == acc;
    } else {
      hide PartsOf;
      PartStep(parts[0], delimiter, Behind(|parts| == 1), Sections(parts[1..], delimiter), acc);
      ReadSections(parts[1..], delimiter, acc + [parts[0]]);
      assert acc + [parts[0]] + parts[1..] == acc + parts;
    }
  }

  lemma {:induction false} DumpIsSections(parts: seq<Part>, delimiter: string)
    ensures DumpParts(parts, delimiter) == delimiter + Behind(parts == []) + Sections(parts, delimiter)
    decreases |parts|
  {
    hide DumpPart;
    if parts != [] { DumpIsSections(parts[1..], delimiter); }
  }

  /** Reading what was printed gives back the same parts, with their headers, parameters and bodies, in order. */
  lemma RoundTrip(parts: seq<Part>, boundary: string)
    requires '\n' !in boundary
    requires forall k :: 0 <= k < |parts| ==> GoodPart(parts[k], DD + boundary)
    ensures PartsOf(DumpParts(parts, DD + boundary), DD + boundary, []) == Done(parts)
  {
    var delimiter := DD + boundary;
    ReadSections(parts, delimiter, []);
    DumpIsSections(parts, delimiter);
    assert [] + parts == parts;
    hide GoodPart, DumpPart, DumpParts, Sections;
    FirstSection(Behind(parts == []), Sections(parts, delimiter), delimiter);
  }

  lemma FirstSection(two: string, rest: string, delimiter: string)
    requires |two| == 2 && |delimiter| >= 2 && '\n' !in delimiter
    ensures PartsOf(delimiter + two + rest, delimiter, []) == PartsOf(rest, delimiter, [])
  {
    var t := delimiter + two + rest;
    NotInEmpty(delimiter);
    FirstDelimiter("", delimiter, two + rest);
    assert t == "" + delimiter + (two + rest);
    assert t[|delimiter| + 2..] == rest && t[..0] == "";
  }
}
