/** The message object: its loops print and read what Multipart.dfy defines. */
module MultipartMessage {
  import opened Wrappers
  import opened Multipart

  /** The parts with their names, in the order in which they were added. */
  function Named(parts: seq<Part>): seq<(string, Part)> {
    if parts == [] then []
    else
      var p := parts[|parts| - 1];
      Named(parts[..|parts| - 1]) + [(if NameOf(p).Some? then NameOf(p).value else "", p)]
  }

  lemma NamedStep(parts: seq<Part>, p: Part)
    requires NameOf(p).Some?
    ensures Named(parts + [p]) == Named(parts) + [(NameOf(p).value, p)]
  {
    assert (parts + [p])[..|parts|] == parts;
  }

  class Message {
    var boundary: string
    var parts: seq<Part>
    var partMap: seq<(string, Part)>

    ghost predicate Valid()
      reads this
    {
      partMap == Named(parts) && forall k :: 0 <= k < |parts| ==> NameOf(parts[k]).Some?
    }

    constructor Empty(boundary: string)
      ensures Valid() && this.boundary == boundary && parts == []
    {
      this.boundary := boundary;
      parts, partMap := [], [];
    }

    /** The parts are taken over and filed under their names, up to the first one without a name. */
    static method FromParts(boundary: string, parts: seq<Part>) returns (m: Message, failure: Option<Failure>)
      ensures m.boundary == boundary && m.parts == parts
      ensures failure == if forall k :: 0 <= k < |parts| ==> NameOf(parts[k]).Some? then None else Some(Nameless)
      ensures failure.None? ==> m.Valid()
    {
      m := new Message.Empty(boundary);
      m.parts := parts;
      var i := 0;
      while i < |parts|
        invariant i <= |parts| && m.boundary == boundary && m.parts == parts && m.partMap == Named(parts[..i])
        invariant forall k :: 0 <= k < i ==> NameOf(parts[k]).Some?
      {
        if NameOf(parts[i]).None? {
          return m, Some(Nameless);
        }
        NamedStep(parts[..i], parts[i]);
        assert parts[..i] + [parts[i]] == parts[..i + 1];
        m.partMap := m.partMap + [(NameOf(parts[i]).value, parts[i])];
        i := i + 1;
      }
      assert parts[..i] == parts;
      failure := None;
    }

    method Dump() returns (str: string)
      ensures str == DumpParts(parts, DD + boundary)
    {
      hide DumpPart;
      str := "";
      var delimiter := DD + boundary;
      var i := 0;
      while i < |parts|
        invariant i <= |parts|
        invariant str + DumpParts(parts[i..], delimiter) == DumpParts(parts, delimiter)
      {
        var one := DumpOne(parts[i]);
        assert parts[i..][1..] == parts[i + 1..];
        assert str + (delimiter + CRLF + one + DumpParts(parts[i + 1..], delimiter))
            == str + delimiter + CRLF + one + DumpParts(parts[i + 1..], delimiter);
        str := str + delimiter + CRLF + one;
        i := i + 1;
      }
      assert str + (delimiter + DD + CRLF) == str + delimiter + DD + CRLF;
      str := str + delimiter + DD + CRLF;
    }

    static method DumpOne(item: Part) returns (str: string)
      ensures str == DumpPart(item)
    {
      str := DumpHead(item);
      str := str + CRLF;
      str := str + item.body + CRLF;
    }

    static method DumpHead(item: Part) returns (str: string)
      ensures str == DumpHeaders(item.headers)
    {
      hide Line;
      str := "";
      var i := 0;
      while i < |item.headers|
        invariant i <= |item.headers|
        invariant str + DumpHeaders(item.headers[i..]) == DumpHeaders(item.headers)
      {
        var line := DumpLine(item.headers[i]);
        assert item.headers[i..][1..] == item.headers[i + 1..];
        assert str + (line + CRLF + DumpHeaders(item.headers[i + 1..]))
            == str + line + CRLF + DumpHeaders(item.headers[i + 1..]);
        str := str + line + CRLF;
        i := i + 1;
      }
    }

    static method DumpLine(h: (string, Header)) returns (str: string)
      ensures str == Line(h)
    {
      str := h.0 + ": " + h.1.value;
      ghost var start := str;
      var params := h.1.params;
      var i := 0;
      while i < |params|
        invariant i <= |params| && str + DumpParams(params[i..]) == start + DumpParams(params)
      {
        var text := "; " + params[i].0 + "=" + Pad(params[i].1);
        assert params[i..][1..] == params[i + 1..];
        assert str + (text + DumpParams(params[i + 1..])) == str + text + DumpParams(params[i + 1..]);
        str := str + text;
        i := i + 1;
      }
    }

    /** Reads a body into the message; what was added before a failure is lost with the message. */
    method ParseBody(text: string) returns (failure: Option<Failure>)
      requires Valid()
      modifies this
      ensures match PartsOf(text, DD + boundary, old(parts))
              case Done(all) => failure == None && parts == all && Valid()
              case Failed(why) => failure == Some(why)
      ensures boundary == old(boundary)
    {
      hide PartOf, NameOf, Find, Named;
      var delimiter := DD + boundary;
      var body := text;
      while body != CRLF
        invariant boundary == old(boundary) && Valid()
        invariant PartsOf(text, delimiter, old(parts)) == PartsOf(body, delimiter, parts)
        decreases |body|
      {
        var found := Find(body, delimiter);
        if found.None? {
          return Some(NoDelimiter);
        }
        FoundWithin(body, delimiter);
        var section := body[..found.value];
        body := Erase(body, found.value + |delimiter| + 2);
        if section != "" {
          var parsed := ParseSection(section);
          if parsed.Failed? {
            return Some(parsed.why);
          }
          if NameOf(parsed.value).None? {
            return Some(Nameless);
          }
          Add(parsed.value);
        }
      }
      failure := None;
    }

    method Add(p: Part)
      requires Valid() && NameOf(p).Some?
      modifies this
      ensures Valid() && parts == old(parts) + [p] && boundary == old(boundary)
    {
      hide NameOf, Named;
      NamedStep(parts, p);
      partMap := partMap + [(NameOf(p).value, p)];
      parts := parts + [p];
    }

    static lemma FoundWithin(body: string, delimiter: string)
      requires Find(body, delimiter).Some?
      ensures Find(body, delimiter).value + |delimiter| <= |body|
    {
    }

    static method ParseSection(text: string) returns (part: Outcome<Part>)
      ensures part == PartOf(text)
    {
      hide HeadersOf, Find;
      var section := text;
      var found := Find(section, CRLF + CRLF);
      var headLine := Take(section, Past(found, 2));
      section := Erase(section, Past(found, 4));
      var headers := ParseSectionHead(headLine);
      if headers.Failed? {
        return Failed(headers.why);
      }
      part := Done(Part(headers.value, if |section| < 2 then section else section[..|section| - 2]));
    }

    static method ParseSectionHead(text: string) returns (headers: Outcome<seq<(string, Header)>>)
      ensures headers == HeadersOf(text, [])
    {
      hide Find, HeaderOf;
      var lines := text;
      var all: seq<(string, Header)> := [];
      while lines != ""
        invariant HeadersOf(text, []) == HeadersOf(lines, all)
        decreases |lines|
      {
        var foundCrlf := Find(lines, CRLF);
        var line := TakeTo(lines, foundCrlf);
        lines := Erase(lines, Past(foundCrlf, 2));
        var header := ParseLine(line);
        if header.Failed? {
          return Failed(header.why);
        }
        all := all + [header.value];
      }
      headers := Done(all);
    }

    static method ParseLine(text: string) returns (header: Outcome<(string, Header)>)
      ensures header == HeaderOf(text)
    {
      hide Find, Trim;
      var line := text;
      var key, value := "", "";
      var params: seq<(string, string)> := [];
      if line != "" {
        var foundSemicolon := Find(line, "; ");
        var head := TakeTo(line, foundSemicolon);
        line := if foundSemicolon.Some? then Erase(line, foundSemicolon.value + 2) else "";
        var headerSplit := Find(head, ": ");
        key := TakeTo(head, headerSplit);
        if Past(headerSplit, 2) > |head| {
          return Failed(OutOfRange);
        }
        value := head[Past(headerSplit, 2)..];
      }
      ghost var first := line;
      while line != ""
        invariant ParamsOf(first, []) == ParamsOf(line, params)
        decreases |line|
      {
        var foundSemicolon := Find(line, "; ");
        var param := TakeTo(line, foundSemicolon);
        line := if foundSemicolon.Some? then Erase(line, foundSemicolon.value + 2) else "";
        var paramSplit := Find(param, "=");
        params := Emplace(params, TakeTo(param, paramSplit), Trim(Erase(param, Past(paramSplit, 1))));
      }
      header := Done((key, Header(value, params)));
    }
  }

  /** A message that is printed and read back is the same message, with the same names. */
  method DumpAndParse(m: Message) returns (copy: Message, failure: Option<Failure>)
    requires m.Valid() && '\n' !in m.boundary
    requires forall k :: 0 <= k < |m.parts| ==> GoodPart(m.parts[k], DD + m.boundary)
    ensures failure == None
    ensures copy.boundary == m.boundary && copy.parts == m.parts && copy.partMap == m.partMap
  {
    hide GoodPart, PartsOf, DumpParts, NameOf, Named;
    var text := m.Dump();
    copy := new Message.Empty(m.boundary);
    RoundTrip(m.parts, m.boundary);
    failure := copy.ParseBody(text);
  }
}
