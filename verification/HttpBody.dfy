/**
 The body part of the HTTP parser, one byte at a time: content-length bodies, chunked bodies and the end of a chunked
 body without trailer fields.  HttpParser.dfy holds the loop over buffers and proves it against this.
 */
module HttpBody {
  import opened Wrappers

  type byte = b: int | 0 <= b < 256

  const CR: byte := 13
  const LF: byte := 10
  const SPACE: byte := 32
  const SEMICOLON: byte := 59

  const TWO64: int := 0x1_0000_0000_0000_0000

  type uint64 = n: int | 0 <= n < TWO64

  /** Stands for "no Content-Length header". */
  const ULLONG_MAX: uint64 := TWO64 - 1

  const MAX_HEADER_SIZE: nat := 80 * 1024

  datatype State =
    | ChunkSizeStart | ChunkSize | ChunkParameters | ChunkSizeAlmostDone
    | ChunkData | ChunkDataAlmostDone | ChunkDataDone
    | TrailerStart | TrailerAlmostDone
    | BodyIdentity | MessageDone
    | TrailerField   // the first byte of a trailer field was read; what follows is not modelled

  datatype Errno =
    | HeaderOverflow | InvalidChunkSize | InvalidContentLength | UnexpectedContentLength | InvalidHeaderToken
    | Strict | InvalidEofState | InvalidTransferEncoding

  /** The states in which every byte counts towards the header size limit. */
  predicate ParsingHeader(s: State) {
    s in {ChunkSizeStart, ChunkSize, ChunkParameters, ChunkSizeAlmostDone, TrailerStart, TrailerAlmostDone}
  }

  /** The digit table: -1 for a byte that is no digit, except that the table's upper half was never filled in. */
  function Unhex(b: byte): (v: int)
    ensures -1 <= v < 16
  {
    if '0' as int <= b <= '9' as int then b - '0' as int
    else if 'A' as int <= b <= 'F' as int then b - 'A' as int + 10
    else if 'a' as int <= b <= 'f' as int then b - 'a' as int + 10
    else if b >= 128 then 0
    else -1
  }

  /** The parser's fields, and what the stream has produced so far: the body bytes recognised, how many of them have
      not been handed over yet, and the offsets of the bytes that completed a message. */
  datatype Machine = Machine(
    state: State,
    contentLength: uint64,
    nread: nat,
    errno: Option<Errno>,
    offset: nat,
    body: seq<byte>,
    pending: nat,
    completedAt: seq<nat>)

  function Fail(m: Machine, e: Errno): Machine { m.(errno := Some(e)) }

  function Move(m: Machine, s: State): Machine { m.(state := s, offset := m.offset + 1) }

  function Complete(m: Machine): Machine {
    m.(offset := m.offset + 1, completedAt := m.completedAt + [m.offset])
  }

  /** One byte. An error leaves the byte unread; afterwards nothing is read any more. */
  function Step(m: Machine, ch: byte): Machine {
    if m.errno.Some? then m
    else if ParsingHeader(m.state) then
      var m1 := m.(nread := m.nread + 1);
      if m1.nread > MAX_HEADER_SIZE then Fail(m1, HeaderOverflow) else StepHeader(m1, ch)
    else StepBody(m, ch)
  }

  function StepHeader(m: Machine, ch: byte): Machine {
    match m.state
    case ChunkSizeStart =>
      if Unhex(ch) == -1 then Fail(m, InvalidChunkSize)
      else Move(m, ChunkSize).(contentLength := Unhex(ch))
    case ChunkSize =>
      if ch == CR then Move(m, ChunkSizeAlmostDone)
      else if Unhex(ch) == -1 then
        if ch == SEMICOLON || ch == SPACE then Move(m, ChunkParameters) else Fail(m, InvalidChunkSize)
      else if (ULLONG_MAX - 16) / 16 < m.contentLength then Fail(m, InvalidContentLength)
      else Move(m, ChunkSize).(contentLength := (m.contentLength * 16 + Unhex(ch)) % TWO64)
    case ChunkParameters => Move(m, if ch == CR then ChunkSizeAlmostDone else ChunkParameters)
    case ChunkSizeAlmostDone =>
      if ch != LF then Fail(m, Strict)
      else Move(m, if m.contentLength == 0 then TrailerStart else ChunkData).(nread := 0)
    case TrailerStart =>
      if ch == CR then Move(m, TrailerAlmostDone)
      else if ch == LF then Complete(m.(state := TrailerAlmostDone))
      else Move(m, TrailerField)
    case TrailerAlmostDone =>
      if ch != LF then Fail(m, Strict) else Complete(m)
    case _ => m
  }

  function StepBody(m: Machine, ch: byte): Machine {
    match m.state
    case ChunkData =>
      var left := if m.contentLength == 0 then 0 else m.contentLength - 1;
      Move(m, if left == 0 then ChunkDataAlmostDone else ChunkData)
      .(contentLength := left, body := m.body + [ch], pending := m.pending + 1)
    case ChunkDataAlmostDone =>
      if ch != CR then Fail(m, Strict) else Move(m, ChunkDataDone).(pending := 0)
    case ChunkDataDone =>
      if ch != LF then Fail(m, Strict) else Move(m, ChunkSizeStart).(nread := 0)
    case BodyIdentity =>
      var left := if m.contentLength == 0 then 0 else m.contentLength - 1;
      var m1 := m.(contentLength := left, body := m.body + [ch]);
      if left == 0 then Complete(m1.(state := MessageDone, pending := 0))
      else Move(m1, BodyIdentity).(pending := m.pending + 1)
    case MessageDone => Complete(m)
    case _ => Move(m, m.state)
  }

  function Run(m: Machine, s: seq<byte>): Machine
    decreases |s|
  {
    if s == [] then m else Run(Step(m, s[0]), s[1..])
  }

  lemma {:induction false} RunAppend(m: Machine, a: seq<byte>, b: seq<byte>)
    ensures Run(m, a + b) == Run(Run(m, a), b)
    decreases |a|
  {
    if a == [] {
      assert a + b == b;
    } else {
      assert (a + b)[1..] == a[1..] + b;
      RunAppend(Step(m, a[0]), a[1..], b);
    }
  }

  lemma RunOne(m: Machine, ch: byte)
    ensures Run(m, [ch]) == Step(m, ch)
  {
    assert [ch][1..] == [];
  }

  lemma {:induction false} RunError(m: Machine, s: seq<byte>)
    requires m.errno.Some?
    ensures Run(m, s) == m
  {
    if s != [] { RunError(m, s[1..]); }
  }

  // ---- What every reachable state keeps ----

  /** The length counters never wrap and never take the value that stands for "none"; inside a body they are never
      zero, so there is always a byte to wait for; and nothing is pending outside the data of a chunk. */
  predicate Sane(m: Machine) {
    && m.contentLength != ULLONG_MAX
    && (m.errno.None? && m.state == ChunkSizeStart ==> m.nread == 0)
    && (m.errno.None? && m.state in {ChunkData, BodyIdentity} ==> m.contentLength != 0)
    && (m.state == ChunkDataAlmostDone ==> m.contentLength == 0 && m.body != [])
    && (m.state !in {ChunkData, ChunkDataAlmostDone, BodyIdentity} ==> m.pending == 0)
    && (m.errno.None? ==> m.nread <= MAX_HEADER_SIZE)
    && m.pending <= |m.body|
    && (m.errno.Some? && m.pending > 0 ==> m.errno == Some(Strict) && m.state == ChunkDataAlmostDone)
  }

  lemma StepSane(m: Machine, ch: byte)
    requires Sane(m)
    ensures Sane(Step(m, ch))
  {
  }

  lemma {:induction false} RunSane(m: Machine, s: seq<byte>)
    requires Sane(m)
    ensures Sane(Run(m, s))
    decreases |s|
  {
    if s != [] {
      StepSane(m, s[0]);
      RunSane(Step(m, s[0]), s[1..]);
    }
  }

  /** The hexadecimal accumulator takes the true value: the guard fires before the product could wrap. */
  lemma SizeDigitIsExact(m: Machine, ch: byte)
    requires m.errno.None? && m.state == ChunkSize && m.nread < MAX_HEADER_SIZE && Unhex(ch) != -1
    ensures Step(m, ch).errno.None? ==> Step(m, ch).contentLength == m.contentLength * 16 + Unhex(ch) < ULLONG_MAX
    ensures Step(m, ch).errno.Some? <==> m.contentLength * 16 + Unhex(ch) >= TWO64 - 16
  {
  }

  // ---- Chunk size lines ----

  function HexValue(s: seq<byte>): nat
    requires forall k :: 0 <= k < |s| ==> Unhex(s[k]) != -1
  {
    if s == [] then 0 else HexValue(s[..|s| - 1]) * 16 + Unhex(s[|s| - 1])
  }

  /** A line of digits is read as the number it spells, and refused exactly when that number is 2^64 - 16 or more. */
  lemma {:induction false} SizeLine(m: Machine, s: seq<byte>)
    requires m.errno.None? && m.state == ChunkSizeStart && m.nread == 0
    requires s != [] && |s| <= MAX_HEADER_SIZE
    requires forall k :: 0 <= k < |s| ==> Unhex(s[k]) != -1
    ensures Run(m, s).errno == if HexValue(s) >= TWO64 - 16 then Some(InvalidContentLength) else None
    ensures HexValue(s) < TWO64 - 16 ==>
              Run(m, s) == m.(state := ChunkSize, contentLength := HexValue(s), nread := |s|, offset := m.offset + |s|)
  {
    var n := |s| - 1;
    var head := s[..n];
    assert s == head + [s[n]];
    RunAppend(m, head, [s[n]]);
    RunOne(Run(m, head), s[n]);
    assert head == [] ==> Run(m, head) == m;
    if head != [] {
      SizeLine(m, head);
      if HexValue(head) < TWO64 - 16 { SizeDigitStep(Run(m, head), s[n]); }
    } else {
      SizeStartStep(m, s[n]);
    }
    hide Run, Step;
  }

  lemma SizeStartStep(m: Machine, ch: byte)
    requires m.errno.None? && m.state == ChunkSizeStart && m.nread == 0 && Unhex(ch) != -1
    ensures Step(m, ch) == m.(state := ChunkSize, contentLength := Unhex(ch), nread := 1, offset := m.offset + 1)
  {
  }

  lemma SizeDigitStep(m: Machine, ch: byte)
    requires m.errno.None? && m.state == ChunkSize && m.nread < MAX_HEADER_SIZE && Unhex(ch) != -1
    ensures var v := m.contentLength * 16 + Unhex(ch);
            if v >= TWO64 - 16 then Step(m, ch).errno == Some(InvalidContentLength)
            else Step(m, ch) == m.(contentLength := v, nread := m.nread + 1, offset := m.offset + 1)
  {
    SizeDigitIsExact(m, ch);
  }

  // ---- Chunk data ----

  /** Reading n bytes of a chunk that has at least n left. */
  lemma {:induction false} ChunkDataRun(m: Machine, s: seq<byte>)
    requires m.errno.None? && m.state == ChunkData && 0 < |s| <= m.contentLength
    ensures Run(m, s)
         == m.(state := if |s| == m.contentLength then ChunkDataAlmostDone else ChunkData,
               contentLength := m.contentLength - |s|,
               offset := m.offset + |s|, body := m.body + s, pending := m.pending + |s|)
    decreases |s|
  {
    assert s == [s[0]] + s[1..];
    if |s| > 1 {
      ChunkDataRun(Step(m, s[0]), s[1..]);
      assert m.body + [s[0]] + s[1..] == m.body + s;
    }
  }

  /** Reading n bytes of a body that has at least n left: the last one completes the message. */
  lemma {:induction false} IdentityRun(m: Machine, s: seq<byte>)
    requires m.errno.None? && m.state == BodyIdentity && 0 < |s| <= m.contentLength
    ensures |s| < m.contentLength ==>
              Run(m, s) == m.(contentLength := m.contentLength - |s|, offset := m.offset + |s|, body := m.body + s,
                              pending := m.pending + |s|)
    ensures |s| == m.contentLength ==>
              Run(m, s) == m.(state := MessageDone, contentLength := 0, offset := m.offset + |s|, body := m.body + s,
                              pending := 0, completedAt := m.completedAt + [m.offset + |s| - 1])
    decreases |s|
  {
    assert s == [s[0]] + s[1..];
    if |s| > 1 {
      IdentityRun(Step(m, s[0]), s[1..]);
      assert m.body + [s[0]] + s[1..] == m.body + s;
    }
  }

  // ---- The chunked transfer coding ----

  /** What stands in front of a chunk: any digits that spell its length, and an extension that is skipped. */
  datatype Head = Head(size: seq<byte>, ext: seq<byte>)

  datatype Chunk = Chunk(head: Head, data: seq<byte>)

  predicate GoodChunk(c: Chunk) {
    c.data != [] && GoodHead(c.head) && HexValue(c.head.size) == |c.data|
  }

  /** The two bytes of the line end must fit under the header limit too. */
  predicate GoodHead(h: Head) {
    && h.size != [] && |h.size| + |h.ext| <= MAX_HEADER_SIZE - 2
    && (forall k :: 0 <= k < |h.size| ==> Unhex(h.size[k]) != -1)
    && HexValue(h.size) < TWO64 - 16
    && (h.ext != [] ==> h.ext[0] in {SEMICOLON, SPACE} && CR !in h.ext)
  }

  function HeadText(h: Head): seq<byte> { h.size + (h.ext + [CR, LF]) }

  function EncodeChunk(c: Chunk): seq<byte> { HeadText(c.head) + (c.data + [CR, LF]) }

  function Encode(chunks: seq<Chunk>, last: Head): seq<byte> {
    if chunks == [] then HeadText(last) + [CR, LF] else EncodeChunk(chunks[0]) + Encode(chunks[1..], last)
  }

  function Payload(chunks: seq<Chunk>): seq<byte> {
    if chunks == [] then [] else chunks[0].data + Payload(chunks[1..])
  }

  /** Ready for the next chunk. */
  predicate AtChunk(m: Machine) { m.errno.None? && m.state == ChunkSizeStart && m.nread == 0 && m.pending == 0 }

  lemma RunTwo(m: Machine, a: byte, b: byte)
    ensures Run(m, [a, b]) == Step(Step(m, a), b)
  {
    RunAppend(m, [a], [b]);
    RunOne(m, a);
    RunOne(Step(m, a), b);
    assert [a] + [b] == [a, b];
  }

  lemma HeadRun(m: Machine, h: Head)
    requires AtChunk(m) && GoodHead(h)
    ensures Run(m, HeadText(h))
         == m.(state := if HexValue(h.size) == 0 then TrailerStart else ChunkData, contentLength := HexValue(h.size),
               nread := 0, offset := m.offset + |HeadText(h)|)
  {
    SizeLine(m, h.size);
    RunAppend(m, h.size, h.ext + [CR, LF]);
    hide Run, HexValue;
    EndOfHead(Run(m, h.size), h.ext);
  }

  lemma EndOfHead(m: Machine, ext: seq<byte>)
    requires m.errno.None? && m.state == ChunkSize && m.nread + |ext| <= MAX_HEADER_SIZE - 2
    requires ext != [] ==> ext[0] in {SEMICOLON, SPACE} && CR !in ext
    ensures Run(m, ext + [CR, LF])
         == m.(state := if m.contentLength == 0 then TrailerStart else ChunkData, nread := 0,
               offset := m.offset + |ext| + 2)
  {
    RunAppend(m, ext, [CR, LF]);
    ExtensionSkipped(m, ext);
    hide Run, Step;
    EndOfLine(Run(m, ext));
  }

  lemma EndOfLine(m: Machine)
    requires m.errno.None? && m.state in {ChunkSize, ChunkParameters} && m.nread <= MAX_HEADER_SIZE - 2
    ensures Run(m, [CR, LF])
         == m.(state := if m.contentLength == 0 then TrailerStart else ChunkData, nread := 0, offset := m.offset + 2)
  {
    RunTwo(m, CR, LF);
    var m1 := m.(state := ChunkSizeAlmostDone, nread := m.nread + 1, offset := m.offset + 1);
    assert Step(m, CR) == m1;
  }

  lemma ExtensionSkipped(m: Machine, ext: seq<byte>)
    requires m.errno.None? && m.state == ChunkSize && m.nread + |ext| <= MAX_HEADER_SIZE
    requires ext != [] ==> ext[0] in {SEMICOLON, SPACE} && CR !in ext
    ensures Run(m, ext)
         == m.(state := if ext == [] then ChunkSize else ChunkParameters, nread := m.nread + |ext|,
               offset := m.offset + |ext|)
  {
    if ext != [] {
      var m1 := m.(state := ChunkParameters, nread := m.nread + 1, offset := m.offset + 1);
      assert Step(m, ext[0]) == m1;
      ExtensionRun(m1, ext[1..]);
    }
  }

  /** The bytes of an extension are skipped up to the CR. */
  lemma {:induction false} ExtensionRun(m: Machine, ext: seq<byte>)
    requires m.errno.None? && m.state == ChunkParameters && m.nread + |ext| <= MAX_HEADER_SIZE && CR !in ext
    ensures Run(m, ext) == m.(nread := m.nread + |ext|, offset := m.offset + |ext|)
    decreases |ext|
  {
    if ext != [] { ExtensionRun(Step(m, ext[0]), ext[1..]); }
  }

  lemma ChunkRun(m: Machine, c: Chunk)
    requires AtChunk(m) && GoodChunk(c)
    ensures Run(m, EncodeChunk(c))
         == m.(contentLength := 0, offset := m.offset + |EncodeChunk(c)|, body := m.body + c.data)
  {
    HeadRun(m, c.head);
    RunAppend(m, HeadText(c.head), c.data + [CR, LF]);
    hide Run, HexValue, HeadText;
    ChunkDataAndEnd(Run(m, HeadText(c.head)), c.data);
  }

  lemma ChunkDataAndEnd(m: Machine, data: seq<byte>)
    requires m.errno.None? && m.state == ChunkData && 0 < |data| == m.contentLength && m.pending == 0 && m.nread == 0
    ensures Run(m, data + [CR, LF])
         == m.(state := ChunkSizeStart, contentLength := 0, offset := m.offset + |data| + 2, body := m.body + data)
  {
    ChunkDataRun(m, data);
    RunAppend(m, data, [CR, LF]);
    RunTwo(Run(m, data), CR, LF);
  }

  /** Reading an encoded body gives exactly the data of its chunks, and completes on its last byte and not before. */
  lemma {:induction false} ChunkedRoundTrip(m: Machine, chunks: seq<Chunk>, last: Head)
    requires AtChunk(m)
    requires forall k :: 0 <= k < |chunks| ==> GoodChunk(chunks[k])
    requires GoodHead(last) && HexValue(last.size) == 0
    ensures var n := |Encode(chunks, last)|;
            var r := Run(m, Encode(chunks, last));
            && n > 0
            && r.errno.None? && r.state == TrailerAlmostDone && r.offset == m.offset + n
            && r.body == m.body + Payload(chunks) && r.pending == 0
            && r.completedAt == m.completedAt + [m.offset + n - 1]
    decreases |chunks|
  {
    hide Run, EncodeChunk, GoodHead, HexValue;
    if chunks == [] {
      LastChunkRun(m, last);
      assert m.body + Payload(chunks) == m.body;
    } else {
      ChunkRun(m, chunks[0]);
      RunAppend(m, EncodeChunk(chunks[0]), Encode(chunks[1..], last));
      var m1 := Run(m, EncodeChunk(chunks[0]));
      ChunkedRoundTrip(m1, chunks[1..], last);
      assert m.body + chunks[0].data + Payload(chunks[1..]) == m.body + Payload(chunks);
    }
  }

  lemma LastChunkRun(m: Machine, last: Head)
    requires AtChunk(m) && GoodHead(last) && HexValue(last.size) == 0
    ensures Run(m, HeadText(last) + [CR, LF])
         == m.(state := TrailerAlmostDone, contentLength := 0, nread := 2, offset := m.offset + |HeadText(last)| + 2,
               completedAt := m.completedAt + [m.offset + |HeadText(last)| + 1])
  {
    hide Run, HexValue, GoodHead, Step, HeadText;
    var line := HeadText(last);
    HeadRun(m, last);
    var m1 := m.(state := TrailerStart, contentLength := 0, nread := 0, offset := m.offset + |line|);
    assert Run(m, line) == m1;
    NoTrailersRun(m1);
    RunAppend(m, line, [CR, LF]);
  }

  /** The empty line after the last chunk completes the message with its LF. */
  lemma NoTrailersRun(m: Machine)
    requires m.errno.None? && m.state == TrailerStart && m.nread == 0
    ensures Run(m, [CR, LF])
         == m.(state := TrailerAlmostDone, nread := 2, offset := m.offset + 2,
               completedAt := m.completedAt + [m.offset + 1])
  {
    RunTwo(m, CR, LF);
    var m1 := m.(state := TrailerAlmostDone, nread := 1, offset := m.offset + 1);
    assert Step(m, CR) == m1;
    assert Step(m1, LF) == Complete(m1.(nread := 2));
  }

  // ---- Cutting the stream into buffers ----

  /** At the end of a buffer everything recognised has been handed over. */
  function Cut(m: Machine): Machine { m.(pending := 0) }

  /** What a caller has received after a buffer: an error loses what was recognised in it but not handed over yet. */
  function Deliver(m: Machine): Machine {
    m.(body := if m.errno.Some? && m.pending <= |m.body| then m.body[..|m.body| - m.pending] else m.body, pending := 0)
  }

  /** One call with one buffer; after an error a call does nothing. */
  function Feed(m: Machine, buffer: seq<byte>): Machine {
    if m.errno.Some? then m else Deliver(Run(m, buffer))
  }

  function FeedAll(m: Machine, buffers: seq<seq<byte>>): Machine
    decreases |buffers|
  {
    if buffers == [] then m else FeedAll(Feed(m, buffers[0]), buffers[1..])
  }

  function Concat(buffers: seq<seq<byte>>): seq<byte> {
    if buffers == [] then [] else buffers[0] + Concat(buffers[1..])
  }

  /** The data of a chunk was not followed by CR. */
  predicate BadTerminator(m: Machine) { m.errno == Some(Strict) && m.state == ChunkDataAlmostDone }

  /** The same parser state, error, offset and completed messages. */
  predicate SameParser(a: Machine, b: Machine) {
    && a.state == b.state && a.contentLength == b.contentLength && a.nread == b.nread && a.errno == b.errno
    && a.offset == b.offset && a.completedAt == b.completedAt
  }

  /** Pending bytes have no influence on anything else. */
  lemma {:induction false} PendingIsPassive(m: Machine, m': Machine, s: seq<byte>)
    requires Sane(m) && m' == m.(pending := m'.pending) && m'.pending <= m.pending
    ensures Run(m', s) == Run(m, s).(pending := Run(m', s).pending)
    ensures Run(m', s).pending <= Run(m, s).pending
    decreases |s|
  {
    hide Sane, Step;
    if s != [] {
      StepSane(m, s[0]);
      PendingStep(m, m', s[0]);
      PendingIsPassive(Step(m, s[0]), Step(m', s[0]), s[1..]);
    }
  }

  lemma PendingStep(m: Machine, m': Machine, ch: byte)
    requires Sane(m) && m' == m.(pending := m'.pending) && m'.pending <= m.pending
    ensures Step(m', ch) == Step(m, ch).(pending := Step(m', ch).pending)
    ensures Step(m', ch).pending <= Step(m, ch).pending
  {
  }

  /** However the same bytes are cut into buffers, the parser ends in the same state, with the same error, at the same
      offset, with the same messages completed; and the same body is handed over unless a chunk's data is not
      followed by CR. */
  lemma {:induction false} SplitInvariance(m: Machine, buffers: seq<seq<byte>>)
    requires Sane(m) && m.pending == 0
    ensures var whole := Feed(m, Concat(buffers));
            && SameParser(FeedAll(m, buffers), whole)
            && (!BadTerminator(whole) ==> FeedAll(m, buffers).body == whole.body)
    decreases |buffers|
  {
    if buffers != [] && m.errno.None? {
      var first, rest := buffers[0], Concat(buffers[1..]);
      var m1 := Run(m, first);
      RunAppend(m, first, rest);
      RunSane(m, first);
      if m1.errno.Some? {
        RunError(m1, rest);
        FeedError(Feed(m, first), buffers[1..]);
      } else {
        var next := Cut(m1);
        SplitInvariance(next, buffers[1..]);
        PendingIsPassive(m1, next, rest);
        RunSane(m1, rest);
        RunSane(next, rest);
      }
    } else if buffers != [] {
      FeedError(m, buffers);
    }
  }

  lemma {:induction false} FeedError(m: Machine, buffers: seq<seq<byte>>)
    requires m.errno.Some?
    ensures FeedAll(m, buffers) == m
  {
    if buffers != [] { FeedError(m, buffers[1..]); }
  }

  function Singles(s: seq<byte>): seq<seq<byte>> {
    if s == [] then [] else [[s[0]]] + Singles(s[1..])
  }

  lemma {:induction false} ConcatSingles(s: seq<byte>)
    ensures Concat(Singles(s)) == s
  {
    if s != [] {
      ConcatSingles(s[1..]);
      assert Singles(s)[1..] == Singles(s[1..]) && Singles(s)[0] == [s[0]];
      assert [s[0]] + s[1..] == s;
    }
  }

  /** Fed byte by byte, nothing recognised is ever lost. */
  lemma {:induction false} SinglesLoseNothing(m: Machine, s: seq<byte>)
    requires Sane(m) && m.pending == 0
    ensures FeedAll(m, Singles(s)).body == Run(m, s).body
    decreases |s|
  {
    if m.errno.Some? {
      FeedError(m, Singles(s));
      RunError(m, s);
    } else if s != [] {
      assert Singles(s)[1..] == Singles(s[1..]);
      RunOne(m, s[0]);
      var m1 := Step(m, s[0]);
      StepSane(m, s[0]);
      SinglesLoseNothing(Cut(m1), s[1..]);
      PendingIsPassive(m1, Cut(m1), s[1..]);
      if m1.errno.Some? {
        RunError(m1, s[1..]);
        FeedError(Feed(m, [s[0]]), Singles(s[1..]));
      }
    }
  }

  /** In one buffer, all of the chunk's data that stands in it is pending until the CR is seen. */
  lemma {:induction false} PendingAtTerminator(m: Machine, s: seq<byte>)
    requires Sane(m) && m.errno.None? && (m.state == ChunkDataAlmostDone ==> m.pending > 0)
    ensures BadTerminator(Run(m, s)) ==> Run(m, s).pending > 0
    decreases |s|
  {
    if s != [] {
      var m1 := Step(m, s[0]);
      StepSane(m, s[0]);
      if m1.errno.Some? {
        RunError(m1, s[1..]);
      } else {
        PendingAtTerminator(m1, s[1..]);
      }
    }
  }

  /** Somewhere in the stream the data of a chunk is over, and the next byte is not CR. */
  ghost predicate Unterminated(m: Machine, s: seq<byte>) {
    exists k :: 0 <= k < |s| && NotTerminatedAt(m, s, k)
  }

  predicate NotTerminatedAt(m: Machine, s: seq<byte>, k: nat)
    requires k < |s|
  {
    Run(m, s[..k]).errno.None? && Run(m, s[..k]).state == ChunkDataAlmostDone && s[k] != CR
  }

  lemma {:induction false} BadTerminatorIsUnterminated(m: Machine, s: seq<byte>)
    requires m.errno.None?
    ensures BadTerminator(Run(m, s)) <==> Unterminated(m, s)
    decreases |s|
  {
    hide Step;
    if s != [] {
      var m1, rest := Step(m, s[0]), s[1..];
      assert s[..0] == [];
      forall k | 0 < k < |s| ensures Run(m, s[..k]) == Run(m1, rest[..k - 1]) && s[k] == rest[k - 1] {
        assert s[..k][1..] == rest[..k - 1];
      }
      if m1.errno.Some? {
        RunError(m1, rest);
        BadStep(m, s[0]);
        forall k | 0 < k < |s| ensures !NotTerminatedAt(m, s, k) { RunError(m1, rest[..k - 1]); }
        assert NotTerminatedAt(m, s, 0) <==> BadTerminator(m1);
      } else {
        BadStep(m, s[0]);
        BadTerminatorIsUnterminated(m1, rest);
        assert forall k :: 0 < k < |s| ==> (NotTerminatedAt(m, s, k) <==> NotTerminatedAt(m1, rest, k - 1));
        forall k | 0 <= k < |rest| && NotTerminatedAt(m1, rest, k) ensures Unterminated(m, s) {
          assert NotTerminatedAt(m, s, k + 1);
        }
      }
    }
  }

  lemma BadStep(m: Machine, ch: byte)
    requires m.errno.None?
    ensures BadTerminator(Step(m, ch)) <==> m.state == ChunkDataAlmostDone && ch != CR
  {
  }

  /** From the start of a chunk, the same body is handed over in every way of cutting the stream exactly if every
      chunk's data is followed by CR. */
  lemma SplitsAgreeUnlessUnterminated(m: Machine, s: seq<byte>)
    requires Sane(m) && AtChunk(m)
    ensures (forall buffers :: Concat(buffers) == s ==> FeedAll(m, buffers).body == Feed(m, s).body)
            <==> !Unterminated(m, s)
  {
    RunSane(m, s);
    BadTerminatorIsUnterminated(m, s);
    if BadTerminator(Run(m, s)) {
      ConcatSingles(s);
      SinglesLoseNothing(m, s);
      PendingAtTerminator(m, s);
      assert |Feed(m, s).body| < |FeedAll(m, Singles(s)).body|;
    } else {
      forall buffers | Concat(buffers) == s
        ensures FeedAll(m, buffers).body == Feed(m, s).body
      {
        SplitInvariance(m, buffers);
      }
    }
  }

  lemma TwoBuffers(m: Machine, a: seq<byte>, b: seq<byte>)
    ensures FeedAll(m, [a, b]) == Feed(Feed(m, a), b)
  {
    assert [a, b][1..] == [b] && [b][1..] == [];
    assert FeedAll(Feed(m, a), [b]) == FeedAll(Feed(Feed(m, a), b), []);
  }

  /** A chunk of one byte X that is followed by LF alone: in one buffer the X is lost, cut before the LF it is not. */
  lemma OneByteLost(m: Machine)
    requires Sane(m) && AtChunk(m)
    ensures var s: seq<byte> := ['1' as int, CR, LF, 'X' as int, LF];
            && Unterminated(m, s)
            && Feed(m, s).body == m.body
            && FeedAll(m, [s[..4], s[4..]]).body == m.body + ['X' as int]
  {
    var s: seq<byte> := ['1' as int, CR, LF, 'X' as int, LF];
    var h := Head([s[0]], []);
    assert HexValue([]) == 0 && [s[0]][..0] == [];
    assert HexValue(h.size) == 1;
    HeadRun(m, h);
    assert s[..4] == HeadText(h) + [s[3]];
    RunAppend(m, HeadText(h), [s[3]]);
    var m1 := Run(m, HeadText(h));
    ChunkDataRun(m1, [s[3]]);
    var m2 := Run(m, s[..4]);
    assert m2 == m1.(state := ChunkDataAlmostDone, contentLength := 0, offset := m1.offset + 1,
                     body := m.body + [s[3]], pending := 1);
    assert s[4..] == [LF] && s == s[..4] + [LF];
    RunAppend(m, s[..4], [LF]);
    RunOne(m2, LF);
    RunOne(Cut(m2), LF);
    assert NotTerminatedAt(m, s, 4);
    hide Run;
    assert Run(m, s) == Fail(m2, Strict);
    TwoBuffers(m, s[..4], [LF]);
  }
}
