/**
 The parser as it runs: a loop over the bytes of one buffer, with a mark where unreported body bytes begin, whole
 stretches of body data taken at once, and the header fields that decide how a body is framed.
 */
module HttpParser {
  import opened Wrappers
  import opened HttpBody

  // ---- The value of a Content-Length header ----

  datatype LengthState = LengthDigits | LengthSpaces

  predicate IsNum(b: byte) { '0' as int <= b <= '9' as int }

  predicate IsHeaderChar(b: byte) { b == CR || b == LF || b == 9 || (b > 31 && b != 127) }

  /** The number the digits spell. */
  function DecimalValue(s: seq<byte>): nat
    requires forall k :: 0 <= k < |s| ==> IsNum(s[k])
  {
    if s == [] then 0 else assert IsNum(s[|s| - 1]); DecimalValue(s[..|s| - 1]) * 10 + (s[|s| - 1] - '0' as int)
  }

  /** The digits in front, and whether only spaces follow them. */
  function DigitsEnd(s: seq<byte>): (n: nat)
    ensures n <= |s| && forall k :: 0 <= k < n ==> IsNum(s[k])
    ensures n < |s| ==> !IsNum(s[n])
  {
    if s == [] || !IsNum(s[0]) then 0 else 1 + DigitsEnd(s[1..])
  }

  predicate OnlySpaces(s: seq<byte>, lo: nat, hi: nat) { forall k :: lo <= k < hi && k < |s| ==> s[k] == SPACE }

  lemma {:induction false} ValueGrows(s: seq<byte>, k: nat)
    requires k <= |s| && forall j :: 0 <= j < |s| ==> IsNum(s[j])
    ensures DecimalValue(s[..k]) <= DecimalValue(s)
    decreases |s|
  {
    if k == |s| {
      assert s[..k] == s;
    } else {
      assert s[..|s| - 1][..k] == s[..k];
      ValueGrows(s[..|s| - 1], k);
    }
  }

  /** The value of a second or first Content-Length header, from its first non-blank byte to the end of the line.  A
      value is accepted exactly when it is the first, spells a number below 2^64 - 6, and has at most spaces after
      it; then the number is what it spells. */
  method ReadContentLength(value: seq<byte>, seenBefore: bool) returns (r: Option<uint64>, errno: Option<Errno>)
    requires value != [] && forall k :: 0 <= k < |value| ==> value[k] != CR && value[k] != LF
    ensures r.Some? <==> errno.None?
    ensures r.Some? <==> !seenBefore && DigitsEnd(value) > 0 && OnlySpaces(value, DigitsEnd(value), |value|)
                         && DecimalValue(value[..DigitsEnd(value)]) < TWO64 - 6
    ensures r.Some? ==> r.value == DecimalValue(value[..DigitsEnd(value)]) < ULLONG_MAX
    ensures DigitsEnd(value) > 0 && seenBefore ==> errno == Some(UnexpectedContentLength)
  {
    ghost var n := DigitsEnd(value);
    DigitsEndAt(value, 0);
    if !IsNum(value[0]) {
      return None, Some(InvalidContentLength);
    }
    if seenBefore {
      return None, Some(UnexpectedContentLength);
    }
    var contentLength: uint64 := value[0] - '0' as int;
    DigitsEndAt(value, 1);
    DigitStep(value, n, 0);
    assert value[..0] == [] && DecimalValue(value[..0]) == 0;
    hide DigitsEnd, DecimalValue;
    var state := LengthDigits;
    var p := 1;
    while p < |value|
      invariant 1 <= p <= |value|
      invariant state == LengthDigits ==> p <= n && contentLength == DecimalValue(value[..p])
      invariant state == LengthSpaces ==>
                  n < p && OnlySpaces(value, n, p) && contentLength == DecimalValue(value[..n])
      invariant contentLength < TWO64 - 6
    {
      var ch := value[p];
      if state == LengthDigits { DigitsEndAt(value, p); }
      if !IsHeaderChar(ch) {
        return None, Some(InvalidHeaderToken);
      }
      match state {
        case LengthDigits =>
          if ch == SPACE {
            state := LengthSpaces;
          } else if !IsNum(ch) {
            return None, Some(InvalidContentLength);
          } else {
            DigitStep(value, n, p);
            var t := AppendDigit(contentLength, ch);
            if t.None? {
              return None, Some(InvalidContentLength);
            }
            contentLength := t.value;
          }
        case LengthSpaces =>
          if ch != SPACE {
            return None, Some(InvalidContentLength);
          }
      }
      p := p + 1;
    }
    return Some(contentLength), None;
  }

  /** The guard refuses exactly the numbers from 2^64 - 6 on, so the product never wraps. */
  method AppendDigit(contentLength: uint64, ch: byte) returns (r: Option<uint64>)
    requires IsNum(ch)
    ensures var v := contentLength * 10 + (ch - '0' as int);
            if v < TWO64 - 6 then r == Some(v) else r == None
  {
    var t := (contentLength * 10 + (ch - '0' as int)) % TWO64;
    if (ULLONG_MAX - 10) / 10 < contentLength {
      return None;
    }
    r := Some(t);
  }

  /** One more digit, and what it means for the whole number. */
  lemma DigitStep(s: seq<byte>, n: nat, p: nat)
    requires p < n <= |s| && forall k :: 0 <= k < n ==> IsNum(s[k])
    ensures DecimalValue(s[..p + 1]) == DecimalValue(s[..p]) * 10 + (s[p] - '0' as int)
    ensures DecimalValue(s[..p + 1]) <= DecimalValue(s[..n])
  {
    assert s[..p + 1][..p] == s[..p];
    assert s[..n][..p + 1] == s[..p + 1];
    ValueGrows(s[..n], p + 1);
  }

  lemma {:induction false} DigitsEndAt(s: seq<byte>, p: nat)
    requires p <= |s| && forall k :: 0 <= k < p ==> IsNum(s[k])
    ensures p <= DigitsEnd(s)
    ensures p < |s| && !IsNum(s[p]) ==> DigitsEnd(s) == p
    ensures p < |s| && IsNum(s[p]) ==> p < DigitsEnd(s)
    decreases |s|
  {
    if p > 0 { DigitsEndAt(s[1..], p - 1); }
  }

  // ---- How the body is framed ----

  datatype Framing = Nothing | Identity(length: uint64) | Chunked | Refused(errno: Errno)

  /** The end of the headers decides: an upgraded or skipped body is none, chunked wins over a length, any other
      transfer coding is refused, and a length of zero or no length at all is no body. */
  function BodyFraming(upgrade: bool, skipBody: bool, chunked: bool, usesTransferEncoding: bool,
                       contentLength: uint64): Framing {
    if upgrade || skipBody then Nothing
    else if chunked then Chunked
    else if usesTransferEncoding then Refused(InvalidTransferEncoding)
    else if contentLength == 0 || contentLength == ULLONG_MAX then Nothing
    else Identity(contentLength)
  }

  /** The machine at the first byte of a body. */
  function StartOf(f: Framing): Machine
    requires f.Identity? || f.Chunked?
  {
    Machine(if f.Chunked? then ChunkSizeStart else BodyIdentity, if f.Chunked? then 0 else f.length,
            0, None, 0, [], 0, [])
  }

  /** Whatever the headers say, a body starts in a state in which the parser's assertions hold. */
  lemma StartIsSane(upgrade: bool, skipBody: bool, chunked: bool, usesTransferEncoding: bool, contentLength: uint64)
    ensures var f := BodyFraming(upgrade, skipBody, chunked, usesTransferEncoding, contentLength);
            (f.Identity? || f.Chunked?) ==> Sane(StartOf(f)) && (f.Chunked? ==> AtChunk(StartOf(f)))
  {
  }

  // ---- The loop over a buffer ----

  class Parser {
    var state: State
    var contentLength: uint64
    var nread: nat
    var errno: Option<Errno>
    /** What on_body has been given. */
    var body: seq<byte>
    ghost var offset: nat
    ghost var completedAt: seq<nat>

    constructor (f: Framing)
      requires f.Identity? || f.Chunked?
      ensures View() == StartOf(f)
    {
      state := if f.Chunked? then ChunkSizeStart else BodyIdentity;
      contentLength := if f.Chunked? then 0 else f.length;
      nread, errno, body, offset, completedAt := 0, None, [], 0, [];
    }

    ghost function View(): Machine
      reads this
    {
      Machine(state, contentLength, nread, errno, offset, body, 0, completedAt)
    }

    /** The machine in the middle of a buffer: what stands between the mark and the end of the data is recognised
        but not reported. */
    ghost function ViewAt(data: seq<byte>, mark: Option<nat>, p: nat): Machine
      requires p <= |data| && (mark.Some? ==> mark.value <= p)
      reads this
    {
      if mark.None? then View()
      else View().(body := body + data[mark.value..p], pending := p - mark.value)
    }

    method OnBody(ghost data: seq<byte>, chunk: seq<byte>)
      modifies this`body
      ensures body == old(body) + chunk
    {
      body := body + chunk;
    }

    ghost method OnMessageComplete(at: nat)
      modifies this`completedAt
      ensures completedAt == old(completedAt) + [at]
    {
      completedAt := completedAt + [at];
    }

    /** One buffer: the parser does what the byte-by-byte machine does, and hands over what a buffer's end or a
        chunk's end allows.  The bytes before the returned position have been read. */
    method Execute(data: seq<byte>) returns (nparsed: nat)
      requires Sane(View())
      modifies this
      ensures old(errno).Some? ==> nparsed == 0 && View() == old(View())
      ensures old(errno).None? && data == [] ==> nparsed == 1 && View() == Fail(old(View()), InvalidEofState)
      ensures data != [] ==> View() == Feed(old(View()), data)
      ensures old(errno).None? && data != [] ==> nparsed == offset - old(offset) <= |data|
    {
      if errno.Some? {
        return 0;
      }
      if |data| == 0 {
        errno := Some(InvalidEofState);
        return 1;
      }
      hide Step, Sane, Run;
      var mark: Option<nat> := None;
      var p := 0;
      ghost var m0 := View();
      NothingRead(m0, data);
      while p < |data|
        invariant 0 <= p <= |data| && errno.None?
        invariant mark.Some? ==> mark.value < p && state in {ChunkData, ChunkDataAlmostDone, BodyIdentity}
        invariant ViewAt(data, mark, p) == Run(m0, data[..p])
        invariant offset == m0.offset + p
      {
        p, mark := ReadSome(data, p, mark, m0);
        if errno.Some? {
          return p;
        }
      }
      assert data[..p] == data;
      if mark.Some? {
        OnBody(data, data[mark.value..]);
      }
      nparsed := |data|;
    }

    /** One turn of the loop: a byte, or a stretch of body data. */
    method ReadSome(data: seq<byte>, p: nat, mark: Option<nat>, ghost m0: Machine) returns (p': nat, mark': Option<nat>)
      requires errno.None? && p < |data| && Sane(m0)
      requires mark.Some? ==> mark.value < p && state in {ChunkData, ChunkDataAlmostDone, BodyIdentity}
      requires ViewAt(data, mark, p) == Run(m0, data[..p])
      modifies this
      ensures errno.None? ==>
                && p < p' <= |data|
                && (mark'.Some? ==> mark'.value < p' && state in {ChunkData, ChunkDataAlmostDone, BodyIdentity})
                && ViewAt(data, mark', p') == Run(m0, data[..p'])
                && offset == old(offset) + (p' - p)
      ensures errno.Some? ==> p' == p && View() == Deliver(Run(m0, data)) && offset == old(offset)
    {
      hide Step, Sane, Run;
      RunSane(m0, data[..p]);
      if state in {ChunkData, BodyIdentity} {
        p', mark' := TakeBody(data, p, mark);
        RunMore(m0, data, p, p');
      } else {
        StepOffset(ViewAt(data, mark, p), data[p]);
        mark' := ReadByte(data, p, mark);
        RunMore(m0, data, p, p + 1);
        RunOne(Run(m0, data[..p]), data[p]);
        if errno.Some? {
          ErrorEndsRun(m0, data, p + 1);
          p' := p;
        } else {
          p' := p + 1;
        }
      }
    }

    /** A byte outside body data. */
    method ReadByte(data: seq<byte>, p: nat, mark: Option<nat>) returns (mark': Option<nat>)
      requires errno.None? && p < |data| && (mark.Some? ==> mark.value < p && state == ChunkDataAlmostDone)
      requires Sane(ViewAt(data, mark, p)) && state !in {ChunkData, BodyIdentity}
      modifies this
      ensures errno.None? ==> mark' == None && View() == Step(old(ViewAt(data, mark, p)), data[p])
      ensures errno.Some? ==> View() == Deliver(Step(old(ViewAt(data, mark, p)), data[p]))
    {
      mark' := mark;
      if ParsingHeader(state) {
        nread := nread + 1;
        if nread > MAX_HEADER_SIZE {
          errno := Some(HeaderOverflow);
          return;
        }
        ReadHeaderByte(data[p]);
      } else {
        mark' := ReadOtherByte(data, p, mark);
      }
    }

    /** A byte of a size line or of the end of the body. */
    method ReadHeaderByte(ch: byte)
      requires errno.None? && ParsingHeader(state)
      modifies this
      ensures View() == StepHeader(old(View()), ch)
    {
      match state
      case ChunkSizeStart =>
        var unhexVal := Unhex(ch);
        if unhexVal == -1 {
          errno := Some(InvalidChunkSize);
          return;
        }
        contentLength := unhexVal;
        state := ChunkSize;
        offset := offset + 1;
      case ChunkSize =>
        ReadSizeByte(ch);
      case ChunkParameters =>
        if ch == CR {
          state := ChunkSizeAlmostDone;
        }
        offset := offset + 1;
      case ChunkSizeAlmostDone =>
        if ch != LF {
          errno := Some(Strict);
          return;
        }
        nread := 0;
        state := if contentLength == 0 then TrailerStart else ChunkData;
        offset := offset + 1;
      case TrailerStart =>
        if ch == CR {
          state := TrailerAlmostDone;
        } else if ch == LF {
          state := TrailerAlmostDone;
          OnMessageComplete(offset);
        } else {
          state := TrailerField;
        }
        offset := offset + 1;
      case TrailerAlmostDone =>
        if ch != LF {
          errno := Some(Strict);
          return;
        }
        OnMessageComplete(offset);
        offset := offset + 1;
    }

    method ReadSizeByte(ch: byte)
      requires errno.None? && state == ChunkSize
      modifies this
      ensures View() == StepHeader(old(View()), ch)
    {
      if ch == CR {
        state := ChunkSizeAlmostDone;
      } else {
        var unhexVal := Unhex(ch);
        if unhexVal == -1 {
          if ch == SEMICOLON || ch == SPACE {
            state := ChunkParameters;
          } else {
            errno := Some(InvalidChunkSize);
            return;
          }
        } else {
          var t := (contentLength * 16 + unhexVal) % TWO64;
          if (ULLONG_MAX - 16) / 16 < contentLength {
            errno := Some(InvalidContentLength);
            return;
          }
          contentLength := t;
        }
      }
      offset := offset + 1;
    }

    /** A byte behind the data of a chunk, or behind the body. */
    method ReadOtherByte(data: seq<byte>, p: nat, mark: Option<nat>) returns (mark': Option<nat>)
      requires errno.None? && p < |data| && (mark.Some? ==> mark.value < p && state == ChunkDataAlmostDone)
      requires Sane(ViewAt(data, mark, p)) && state !in {ChunkData, BodyIdentity} && !ParsingHeader(state)
      modifies this
      ensures errno.None? ==> mark' == None && View() == StepBody(old(ViewAt(data, mark, p)), data[p])
      ensures errno.Some? ==> View() == Deliver(StepBody(old(ViewAt(data, mark, p)), data[p]))
    {
      var ch := data[p];
      mark' := mark;
      match state
      case ChunkDataAlmostDone =>
        assert contentLength == 0;
        if ch != CR {
          errno := Some(Strict);
          return;
        }
        state := ChunkDataDone;
        if mark.Some? {
          OnBody(data, data[mark.value..p]);
          mark' := None;
        }
        offset := offset + 1;
      case ChunkDataDone =>
        if ch != LF {
          errno := Some(Strict);
          return;
        }
        nread := 0;
        state := ChunkSizeStart;
        offset := offset + 1;
      case MessageDone =>
        OnMessageComplete(offset);
        offset := offset + 1;
      case TrailerField =>
        offset := offset + 1;
    }

    /** As many bytes of body data as the buffer and the length allow, at once. */
    method TakeBody(data: seq<byte>, p: nat, mark: Option<nat>) returns (p': nat, mark': Option<nat>)
      requires errno.None? && p < |data| && (mark.Some? ==> mark.value < p)
      requires state in {ChunkData, BodyIdentity} && Sane(ViewAt(data, mark, p))
      modifies this
      ensures p < p' <= |data| && errno.None?
      ensures mark'.Some? ==> mark'.value < p' && state in {ChunkData, ChunkDataAlmostDone, BodyIdentity}
      ensures ViewAt(data, mark', p') == Run(old(ViewAt(data, mark, p)), data[p..p'])
      ensures offset == old(offset) + (p' - p)
    {
      SaneBody(ViewAt(data, mark, p));
      hide Run, Sane;
      mark' := if mark.None? then Some(p) else mark;
      var toRead := if contentLength < |data| - p then contentLength else |data| - p;
      if state == ChunkData {
        p' := TakeChunkData(data, p, mark, toRead);
      } else {
        p' := TakeIdentity(data, p, mark, toRead);
        mark' := if state == MessageDone then None else mark';
      }
    }

    method TakeChunkData(data: seq<byte>, p: nat, mark: Option<nat>, toRead: nat) returns (p': nat)
      requires errno.None? && state == ChunkData && (mark.Some? ==> mark.value < p)
      requires 0 < toRead <= contentLength && p + toRead <= |data|
      modifies `state, `contentLength, `offset
      ensures p' == p + toRead && offset == old(offset) + toRead && state in {ChunkData, ChunkDataAlmostDone}
      ensures ViewAt(data, if mark.None? then Some(p) else mark, p') == Run(old(ViewAt(data, mark, p)), data[p..p'])
    {
      hide Run;
      p' := p + toRead;
      Advanced(data, mark, p, p');
      ChunkDataRun(ViewAt(data, mark, p), data[p..p']);
      contentLength := contentLength - toRead;
      offset := offset + toRead;
      if contentLength == 0 {
        state := ChunkDataAlmostDone;
      }
    }

    /** The last byte completes the message, and the body is handed over with it. */
    method TakeIdentity(data: seq<byte>, p: nat, mark: Option<nat>, toRead: nat) returns (p': nat)
      requires errno.None? && state == BodyIdentity && (mark.Some? ==> mark.value < p)
      requires 0 < toRead <= contentLength && p + toRead <= |data|
      modifies `state, `contentLength, `offset, `body, `completedAt
      ensures p' == p + toRead && offset == old(offset) + toRead && state in {BodyIdentity, MessageDone}
      ensures ViewAt(data, if state == MessageDone then None else if mark.None? then Some(p) else mark, p')
              == Run(old(ViewAt(data, mark, p)), data[p..p'])
    {
      hide Run;
      p' := p + toRead;
      Advanced(data, mark, p, p');
      IdentityRun(ViewAt(data, mark, p), data[p..p']);
      contentLength := contentLength - toRead;
      offset := offset + toRead;
      if contentLength == 0 {
        CompleteBody(data, if mark.None? then p else mark.value, p');
      }
    }

    /** The view with the bytes up to p' behind the mark. */
    lemma Advanced(data: seq<byte>, mark: Option<nat>, p: nat, p': nat)
      requires p <= p' <= |data| && (mark.Some? ==> mark.value <= p)
      ensures var m := ViewAt(data, mark, p);
              ViewAt(data, if mark.None? then Some(p) else mark, p')
              == m.(body := m.body + data[p..p'], pending := m.pending + (p' - p))
    {
      Stretch(body, data, if mark.None? then p else mark.value, p, p');
    }

    /** The last byte of the body was read. */
    method CompleteBody(data: seq<byte>, mark: nat, p: nat)
      requires mark <= p <= |data| && offset > 0
      modifies `state, `body, `completedAt
      ensures View() == old(ViewAt(data, Some(mark), p)).(state := MessageDone, pending := 0,
                                                         completedAt := old(completedAt) + [offset - 1])
    {
      state := MessageDone;
      OnBody(data, data[mark..p]);
      OnMessageComplete(offset - 1);
    }
  }

  lemma Stretch(body: seq<byte>, data: seq<byte>, a: nat, p: nat, p': nat)
    requires a <= p <= p' <= |data|
    ensures body + data[a..p] + data[p..p'] == body + data[a..p'] && body + data[p..p] == body
  {
  }

  /** The two assertions of the body states. */
  lemma SaneBody(m: Machine)
    requires Sane(m) && m.errno.None? && m.state in {ChunkData, BodyIdentity}
    ensures m.contentLength != 0 && m.contentLength != ULLONG_MAX
  {
  }

  lemma NothingRead(m: Machine, data: seq<byte>)
    ensures Run(m, data[..0]) == m
  {
  }

  lemma StepOffset(m: Machine, ch: byte)
    requires m.errno.None?
    ensures Step(m, ch).offset == if Step(m, ch).errno.Some? then m.offset else m.offset + 1
  {
  }

  lemma RunMore(m: Machine, data: seq<byte>, p: nat, q: nat)
    requires p <= q <= |data|
    ensures Run(m, data[..q]) == Run(Run(m, data[..p]), data[p..q])
    ensures p < |data| ==> data[p..p + 1] == [data[p]]
  {
    assert data[..q] == data[..p] + data[p..q];
    RunAppend(m, data[..p], data[p..q]);
  }

  lemma ErrorEndsRun(m: Machine, data: seq<byte>, q: nat)
    requires q <= |data| && Run(m, data[..q]).errno.Some?
    ensures Run(m, data) == Run(m, data[..q])
  {
    assert data == data[..q] + data[q..];
    RunAppend(m, data[..q], data[q..]);
    RunError(Run(m, data[..q]), data[q..]);
  }
}
