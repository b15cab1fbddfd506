/**
 The frames of RFC 6455 and the read state machine of a connection, as a function from one completed read to the next
 state.  Theorem DeliversMessages: however messages are fragmented, mixed with pings and pongs, masked and cut into
 payload chunks, the machine delivers exactly the messages.
 */
module WebSocketFrames {
  import opened Wrappers

  type Byte = b: int | 0 <= b < 256
  type Bytes = seq<Byte>
  type Key = k: Bytes | |k| == 4 witness [0, 0, 0, 0]
  type Nibble = n: int | 0 <= n < 16

  const TWO_TO_THE_32 := 0x1_0000_0000
  const TWO_TO_THE_64 := 0x1_0000_0000_0000_0000
  const BUFFER_SIZE := 4096
  const MESSAGE_TOO_BIG := 1009
  const NO_STATUS_CODE := 1005

  // ---- Bytes and masks ----

  function Power2(k: nat): (p: nat)
    ensures p > 0
  {
    if k == 0 then 1 else 2 * Power2(k - 1)
  }

  /** Exclusive or of the k low binary digits. */
  function XorDigits(a: nat, b: nat, k: nat): (r: nat)
    ensures r < Power2(k)
  {
    if k == 0 then 0 else (a + b) % 2 + 2 * XorDigits(a / 2, b / 2, k - 1)
  }

  lemma EightDigits()
    ensures Power2(8) == 256
  {
    assert Power2(8) == 2 * (2 * Power2(6)) && Power2(6) == 2 * (2 * Power2(4)) && Power2(4) == 2 * (2 * Power2(2));
  }

  function Xor(a: Byte, b: Byte): Byte {
    EightDigits();
    XorDigits(a, b, 8)
  }

  lemma {:induction false} XorDigitsTwice(a: nat, b: nat, k: nat)
    requires a < Power2(k)
    ensures XorDigits(XorDigits(a, b, k), b, k) == a
  {
    if k > 0 {
      XorDigitsTwice(a / 2, b / 2, k - 1);
      LowestDigit(a, b, XorDigits(a / 2, b / 2, k - 1));
    }
  }

  lemma LowestDigit(a: nat, b: nat, x: nat)
    ensures var r := (a + b) % 2 + 2 * x;
            r / 2 == x && (r + b) % 2 == a % 2
  {
    var r := (a + b) % 2 + 2 * x;
    assert r + b == a + 2 * (x + b) - 2 * ((a + b) / 2);
  }

  lemma XorTwice(a: Byte, b: Byte)
    ensures Xor(Xor(a, b), b) == a
  {
    EightDigits();
    XorDigitsTwice(a, b, 8);
  }

  /** Every byte combined with the byte of the key at its place. */
  function Masked(payload: Bytes, key: Key): (r: Bytes)
    ensures |r| == |payload|
  {
    seq(|payload|, i requires 0 <= i < |payload| => Xor(payload[i], key[i % 4]))
  }

  lemma MaskedTwice(payload: Bytes, key: Key)
    ensures Masked(Masked(payload, key), key) == payload
  {
    hide Xor;
    forall i | 0 <= i < |payload| ensures Masked(Masked(payload, key), key)[i] == payload[i] {
      XorTwice(payload[i], key[i % 4]);
    }
  }

  /** n as k bytes, the first one the most significant. */
  function BigEndian(n: nat, k: nat): (r: Bytes)
    ensures |r| == k
  {
    if k == 0 then [] else BigEndian(n / 256, k - 1) + [n % 256]
  }

  function Number(bytes: Bytes): nat {
    if bytes == [] then 0 else Number(bytes[..|bytes| - 1]) * 256 + bytes[|bytes| - 1]
  }

  function Power256(k: nat): nat { if k == 0 then 1 else 256 * Power256(k - 1) }

  lemma {:induction false} NumberOfBigEndian(n: nat, k: nat)
    requires n < Power256(k)
    ensures Number(BigEndian(n, k)) == n
  {
    if k > 0 {
      assert n / 256 < Power256(k - 1);
      NumberOfBigEndian(n / 256, k - 1);
      assert BigEndian(n, k)[..k - 1] == BigEndian(n / 256, k - 1);
    }
  }

  lemma Powers()
    ensures Power256(2) == 0x1_0000 && Power256(8) == TWO_TO_THE_64
  {
    assert Power256(2) == 256 * (256 * Power256(0));
    assert Power256(4) == 256 * (256 * Power256(2));
    assert Power256(6) == 256 * (256 * Power256(4));
    assert Power256(8) == 256 * (256 * Power256(6));
  }

  // ---- Frames ----

  datatype Frame = Frame(fin: bool, opcode: Nibble, key: Option<Key>, payload: Bytes)

  ghost predicate FrameOk(f: Frame) {
    |f.payload| < TWO_TO_THE_64
  }

  /** The seven bits of the length, and what follows them. */
  function ShortLength(n: nat): nat { if n < 126 then n else if n < 0x1_0000 then 126 else 127 }

  function LongLength(n: nat): Bytes {
    if n < 126 then [] else if n < 0x1_0000 then BigEndian(n, 2) else BigEndian(n, 8)
  }

  function FirstByte(fin: bool, opcode: Nibble): Byte
  {
    (if fin then 0x80 else 0) + opcode
  }

  function SecondByte(masked: bool, n: nat): Byte { (if masked then 0x80 else 0) + ShortLength(n) }

  function KeyBytes(f: Frame): Bytes { if f.key.Some? then f.key.value else [] }

  function Body(f: Frame): (r: Bytes)
    ensures |r| == |f.payload|
  {
    if f.key.Some? then Masked(f.payload, f.key.value) else f.payload
  }

  /** The bytes of a frame, section 5.2 of RFC 6455. */
  function Wire(f: Frame): Bytes
  {
    [FirstByte(f.fin, f.opcode), SecondByte(f.key.Some?, |f.payload|)] + LongLength(|f.payload|) + KeyBytes(f) + Body(f)
  }

  // ---- The read state machine ----

  datatype ReadState = MiniHeader | Len16 | Len64 | Mask | Payload | Closed

  /** delivered, written and closes record the calls of the handlers and the bytes that were sent. */
  datatype Machine = Machine(state: ReadState, miniHeader: nat, hasMask: bool, remaining: nat, mask: Key,
                             fragment: Bytes, message: Bytes, isBinary: bool, pongReceived: bool,
                             sentClose: bool, receivedClose: bool, closeHandled: bool, maxPayload: nat,
                             delivered: seq<(Bytes, bool)>, written: Bytes, closes: seq<(Bytes, nat)>)

  predicate IsFin(header: nat) { header / 0x8000 % 2 == 1 }

  function Opcode(header: nat): Nibble { header / 0x100 % 16 }

  predicate IsMasked(header: nat) { header / 0x80 % 2 == 1 }

  /** The header of a frame that is sent: final and without a mask. */
  function BuildHeader(opcode: Nibble, size: nat): Bytes
  {
    [FirstByte(true, opcode), SecondByte(false, size)] + LongLength(size)
  }

  const UNCLEANLY: Bytes := [117, 110, 99, 108, 101, 97, 110, 108, 121]

  function Destroyed(m: Machine, code: nat): Machine {
    m.(state := Closed, closes := if m.closeHandled then m.closes else m.closes + [(UNCLEANLY, code)])
  }

  /** Sending a close frame. */
  function SendClose(m: Machine, msg: Bytes, code: nat): Machine {
    var handled := m.receivedClose && !m.closeHandled;
    m.(sentClose := true, closeHandled := m.closeHandled || m.receivedClose,
       closes := if handled then m.closes + [(msg, code)] else m.closes,
       written := m.written + BuildHeader(8, |msg| + 2) + BigEndian(code, 2) + msg)
  }

  function AppendData(m: Machine): Machine {
    if IsFin(m.miniHeader)
    then m.(message := [], delivered := m.delivered + [(m.message + m.fragment, m.isBinary)])
    else m.(message := m.message + m.fragment)
  }

  /** A close frame starts with a status code, or has none. */
  function CloseCode(fragment: Bytes): nat {
    if |fragment| >= 2 then fragment[0] as int * 256 + fragment[1] else NO_STATUS_CODE
  }

  function CloseText(fragment: Bytes): Bytes { if |fragment| >= 2 then fragment[2..] else fragment }

  function ReceiveClose(m: Machine): Machine {
    var m1 := m.(receivedClose := true);
    var code, msg := CloseCode(m.fragment), CloseText(m.fragment);
    if !m.sentClose then SendClose(m1, msg, code).(fragment := [])
    else
      m1.(state := Closed, closeHandled := true,
          closes := if m.closeHandled then m.closes else m.closes + [(msg, code)])
  }

  /** The payload without its mask. */
  function Fragment(m: Machine): Bytes { if m.hasMask then Masked(m.fragment, m.mask) else m.fragment }

  /** A continuation, text or binary frame. */
  function HandleData(m: Machine): Machine {
    var opcode := Opcode(m.miniHeader);
    AppendData(m.(isBinary := if opcode == 0 then m.isBinary else opcode == 2)).(fragment := [])
  }

  function HandleControl(m: Machine): Machine {
    var opcode := Opcode(m.miniHeader);
    if opcode == 8 then ReceiveClose(m)
    else if opcode == 9 then m.(written := m.written + BuildHeader(0xA, |m.fragment|) + m.fragment, fragment := [])
    else if opcode == 0xA then m.(pongReceived := true, fragment := [])
    else m.(fragment := [])
  }

  function HandleFragment(m: Machine): Machine {
    var unmasked := m.(fragment := Fragment(m));
    if Opcode(m.miniHeader) <= 2 then HandleData(unmasked) else HandleControl(unmasked)
  }

  /** After the last byte of a payload. */
  function Finish(m: Machine): Machine
  {
    var m1 := HandleFragment(m);
    if m1.state.Closed? then m1 else Ask(m1.(state := MiniHeader))
  }

  /** Asking for the next bytes; a read of no bytes completes at once. */
  function Ask(m: Machine): Machine
    requires m.state.MiniHeader? || m.state.Len16? || m.state.Len64?
  {
    if m.sentClose && m.receivedClose then m.(state := Closed) else m
  }

  function AskMask(m: Machine): Machine
    requires m.state.Mask?
  {
    if m.sentClose && m.receivedClose then m.(state := Closed)
    else if m.remaining > m.maxPayload then Destroyed(m, MESSAGE_TOO_BIG)
    else if m.hasMask then m
    else AskPayload(m.(state := Payload))
  }

  function AskPayload(m: Machine): Machine
    requires m.state.Payload?
  {
    if m.sentClose && m.receivedClose then m.(state := Closed)
    else if m.remaining == 0 then Finish(m)
    else m
  }

  /** What the pending read may complete with: one or both of the first two bytes of a frame, the other fixed parts
      whole, and a payload in pieces of any size. */
  predicate Admissible(m: Machine, data: Bytes) {
    match m.state
    case MiniHeader => 1 <= |data| <= 2
    case Len16 => |data| == 2
    case Len64 => |data| == 8
    case Mask => |data| == 4
    case Payload => 0 < |data| <= m.remaining && |data| <= BUFFER_SIZE
    case Closed => false
  }

  function OnRead(m: Machine, data: Bytes): Machine
    requires Admissible(m, data)
  {
    match m.state
    case MiniHeader =>
      // a byte that has not come counts as zero
      var header := data[0] as int * 256 + if |data| == 2 then data[1] else 0;
      var m1 := m.(miniHeader := header, hasMask := IsMasked(header));
      if header % 128 == 127 then Ask(m1.(state := Len64))
      else if header % 128 == 126 then Ask(m1.(state := Len16))
      else AskMask(m1.(remaining := header % 128, state := Mask))
    case Len16 => AskMask(m.(remaining := Number(data), state := Mask))
    case Len64 => AskMask(m.(remaining := Number(data), state := Mask))
    case Mask => AskPayload(m.(mask := data, state := Payload))
    case Payload =>
      AskPayload(m.(fragment := m.fragment + data, remaining := m.remaining - |data|))
  }

  ghost predicate IsRun(m: Machine, chunks: seq<Bytes>)
    decreases |chunks|
  {
    chunks == [] || (Admissible(m, chunks[0]) && IsRun(OnRead(m, chunks[0]), chunks[1..]))
  }

  predicate IsWholeRead(m: Machine, data: Bytes) { Admissible(m, data) && (m.state.MiniHeader? ==> |data| == 2) }

  /** A run in which no read cuts the first two bytes of a frame apart. */
  ghost predicate IsWholeRun(m: Machine, chunks: seq<Bytes>): (b: bool)
    ensures b ==> IsRun(m, chunks)
    decreases |chunks|
  {
    chunks == [] || (IsWholeRead(m, chunks[0]) && IsWholeRun(OnRead(m, chunks[0]), chunks[1..]))
  }

  function Run(m: Machine, chunks: seq<Bytes>): Machine
    requires IsRun(m, chunks)
    decreases |chunks|
  {
    if chunks == [] then m else Run(OnRead(m, chunks[0]), chunks[1..])
  }

  function Concat(chunks: seq<Bytes>): Bytes {
    if chunks == [] then [] else chunks[0] + Concat(chunks[1..])
  }

  // ---- One frame ----

  /** Between two frames. */
  ghost predicate Ready(m: Machine) {
    m.state.MiniHeader? && m.fragment == [] && !(m.sentClose && m.receivedClose)
  }

  function HeaderOf(f: Frame): nat
  {
    FirstByte(f.fin, f.opcode) * 256 + SecondByte(f.key.Some?, |f.payload|)
  }

  lemma HeaderFields(fin: bool, opcode: Nibble, masked: bool, n: nat)
    ensures var h := FirstByte(fin, opcode) * 256 + SecondByte(masked, n);
            IsFin(h) == fin && Opcode(h) == opcode && IsMasked(h) == masked && h % 128 == ShortLength(n)
  {
    var a, b := if fin then 1 else 0, if masked then 1 else 0;
    var h := FirstByte(fin, opcode) * 256 + SecondByte(masked, n);
    assert h == a * 0x8000 + opcode * 0x100 + b * 0x80 + ShortLength(n);
    assert h / 0x80 == a * 0x100 + opcode * 2 + b;
    assert h / 0x100 == a * 0x80 + opcode;
    assert h / 0x8000 == a;
  }

  /** The machine with the whole of a frame read, before the fragment is handled. */
  function Loaded(m: Machine, f: Frame): Machine
  {
    m.(state := Payload, miniHeader := HeaderOf(f), hasMask := f.key.Some?, remaining := 0,
       mask := if f.key.Some? then f.key.value else m.mask, fragment := Body(f))
  }

  lemma Split(chunks: seq<Bytes>, head: Bytes, rest: Bytes)
    requires chunks != [] && Concat(chunks) == head + rest && |chunks[0]| == |head|
    ensures chunks[0] == head && Concat(chunks[1..]) == rest
  {
    assert chunks[0] == Concat(chunks)[..|head|];
    assert Concat(chunks[1..]) == Concat(chunks)[|head|..];
    assert (head + rest)[..|head|] == head && (head + rest)[|head|..] == rest;
  }

  lemma Step(m: Machine, chunks: seq<Bytes>, head: Bytes, rest: Bytes)
    requires IsRun(m, chunks) && Concat(chunks) == head + rest && head != [] && !m.state.Payload?
    requires forall data :: IsWholeRead(m, data) ==> |data| == |head|
    requires m.state.MiniHeader? && chunks != [] ==> |chunks[0]| == 2
    ensures Admissible(m, head) && IsRun(OnRead(m, head), chunks[1..])
    ensures IsWholeRun(m, chunks) <==> IsWholeRun(OnRead(m, head), chunks[1..])
    ensures Run(m, chunks) == Run(OnRead(m, head), chunks[1..]) && Concat(chunks[1..]) == rest
  {
    hide OnRead, Admissible;
    Split(chunks, head, rest);
  }

  /** The machine that has read the header and the length of a frame. */
  function Headed(m: Machine, f: Frame): Machine
  {
    m.(state := Mask, miniHeader := HeaderOf(f), hasMask := f.key.Some?, remaining := |f.payload|)
  }

  function FirstTwo(f: Frame): Bytes
  {
    [FirstByte(f.fin, f.opcode), SecondByte(f.key.Some?, |f.payload|)]
  }

  /** The machine that waits for a long length. */
  function HalfHeaded(m: Machine, f: Frame): Machine
  {
    m.(state := if |f.payload| < 0x1_0000 then Len16 else Len64, miniHeader := HeaderOf(f), hasMask := f.key.Some?)
  }

  lemma ReadTwo(m: Machine, f: Frame)
    requires Ready(m) && FrameOk(f)
    ensures OnRead(m, FirstTwo(f)) == if |f.payload| < 126 then AskMask(Headed(m, f)) else HalfHeaded(m, f)
  {
    HeaderOfFrame(f);
    hide FirstTwo, HeaderOf, AskMask, IsMasked, FrameOk, Opcode, IsFin;
  }

  lemma HeaderOfFrame(f: Frame)
    ensures |FirstTwo(f)| == 2 && FirstTwo(f)[0] as int * 256 + FirstTwo(f)[1] == HeaderOf(f)
    ensures IsFin(HeaderOf(f)) == f.fin && Opcode(HeaderOf(f)) == f.opcode && IsMasked(HeaderOf(f)) == f.key.Some?
    ensures HeaderOf(f) % 128 == ShortLength(|f.payload|)
  {
    HeaderFields(f.fin, f.opcode, f.key.Some?, |f.payload|);
    hide FirstByte, SecondByte, IsMasked, IsFin, Opcode;
  }

  lemma ReadLong(m: Machine, f: Frame)
    requires Ready(m) && FrameOk(f) && |f.payload| >= 126
    ensures OnRead(HalfHeaded(m, f), LongLength(|f.payload|)) == AskMask(Headed(m, f))
  {
    LongLengthNumber(|f.payload|);
    hide HeaderOf, AskMask, Number;
  }

  lemma WireParts(f: Frame, rest: Bytes)
    ensures Wire(f) + rest == FirstTwo(f) + (LongLength(|f.payload|) + (KeyBytes(f) + Body(f) + rest))
    ensures |f.payload| < 126 ==>
              LongLength(|f.payload|) + (KeyBytes(f) + Body(f) + rest) == KeyBytes(f) + Body(f) + rest
  {
    hide FirstByte, SecondByte, KeyBytes, Body;
  }

  lemma RunHeader(m: Machine, chunks: seq<Bytes>, f: Frame, rest: Bytes) returns (left: seq<Bytes>)
    requires Ready(m) && FrameOk(f) && IsRun(m, chunks) && (chunks != [] ==> |chunks[0]| == 2)
    requires Concat(chunks) == Wire(f) + rest
    ensures IsRun(AskMask(Headed(m, f)), left) && Run(m, chunks) == Run(AskMask(Headed(m, f)), left)
    ensures IsWholeRun(m, chunks) <==> IsWholeRun(AskMask(Headed(m, f)), left)
    ensures Concat(left) == KeyBytes(f) + Body(f) + rest
  {
    var tail := KeyBytes(f) + Body(f) + rest;
    WireParts(f, rest);
    ReadTwo(m, f);
    assert FirstTwo(f) != [];
    hide FirstTwo, KeyBytes, Body, Wire, AskMask, Headed, OnRead, IsRun, IsWholeRun, Run, Concat, HeaderOf;
    Step(m, chunks, FirstTwo(f), LongLength(|f.payload|) + tail);
    left := chunks[1..];
    if |f.payload| >= 126 {
      ReadLong(m, f);
      Step(HalfHeaded(m, f), left, LongLength(|f.payload|), tail);
      left := left[1..];
    }
  }

  lemma LongLengthNumber(n: nat)
    requires 126 <= n < TWO_TO_THE_64
    ensures Number(LongLength(n)) == n
  {
    Powers();
    NumberOfBigEndian(n, if n < 0x1_0000 then 2 else 8);
  }

  /** The rest of a payload, in reads of any size. */
  lemma {:induction false} RunPayload(m: Machine, chunks: seq<Bytes>, body: Bytes, rest: Bytes)
    returns (left: seq<Bytes>)
    requires m.state.Payload? && !(m.sentClose && m.receivedClose) && m.remaining == |body| > 0
    requires IsRun(m, chunks) && Concat(chunks) == body + rest
    ensures var m' := Finish(m.(fragment := m.fragment + body, remaining := 0));
            && IsRun(m', left) && Run(m, chunks) == Run(m', left)
            && (IsWholeRun(m, chunks) <==> IsWholeRun(m', left))
    ensures Concat(left) == rest
    decreases |body|
  {
    hide Finish;
    var data := chunks[0];
    var k := |data|;
    assert Admissible(m, data);
    assert data == Concat(chunks)[..k] && Concat(chunks[1..]) == Concat(chunks)[k..];
    assert (body + rest)[..k] == body[..k] && (body + rest)[k..] == body[k..] + rest;
    var m1 := m.(fragment := m.fragment + data, remaining := m.remaining - k);
    assert OnRead(m, data) == AskPayload(m1);
    if k == |body| {
      assert body[..k] == body && body[k..] + rest == rest;
      left := chunks[1..];
    } else {
      assert AskPayload(m1) == m1;
      left := RunPayload(m1, chunks[1..], body[k..], rest);
      assert m.fragment + data + body[k..] == m.fragment + body;
    }
  }

  lemma RunKey(m: Machine, chunks: seq<Bytes>, f: Frame, rest: Bytes) returns (left: seq<Bytes>)
    requires Ready(m) && FrameOk(f) && |f.payload| <= m.maxPayload && IsRun(AskMask(Headed(m, f)), chunks)
    requires Concat(chunks) == KeyBytes(f) + Body(f) + rest
    ensures IsRun(AskPayload(Keyed(m, f)), left)
    ensures Run(AskMask(Headed(m, f)), chunks) == Run(AskPayload(Keyed(m, f)), left)
    ensures IsWholeRun(AskMask(Headed(m, f)), chunks) <==> IsWholeRun(AskPayload(Keyed(m, f)), left)
    ensures Concat(left) == Body(f) + rest
  {
    left := chunks;
    if f.key.Some? {
      assert KeyBytes(f) + Body(f) + rest == f.key.value + (Body(f) + rest);
      hide AskPayload, Body, HeaderOf, IsRun, IsWholeRun, Run, Concat;
      var m1 := Headed(m, f);
      assert AskMask(m1) == m1;
      Step(m1, left, f.key.value, Body(f) + rest);
      left := left[1..];
      assert OnRead(m1, f.key.value) == AskPayload(Keyed(m, f));
    } else {
      assert KeyBytes(f) + Body(f) + rest == Body(f) + rest;
      hide AskPayload, Body, HeaderOf, IsRun, IsWholeRun, Run, Concat;
      assert AskMask(Headed(m, f)) == AskPayload(Keyed(m, f));
    }
  }

  /** The machine that waits for the payload of a frame. */
  function Keyed(m: Machine, f: Frame): Machine
  {
    m.(state := Payload, miniHeader := HeaderOf(f), hasMask := f.key.Some?, remaining := |f.payload|,
       mask := if f.key.Some? then f.key.value else m.mask)
  }

  /** A whole frame, whatever the sizes of the payload reads. */
  lemma RunFrame(m: Machine, chunks: seq<Bytes>, f: Frame, rest: Bytes) returns (left: seq<Bytes>)
    requires Ready(m) && FrameOk(f) && |f.payload| <= m.maxPayload && IsRun(m, chunks)
    requires Concat(chunks) == Wire(f) + rest && (chunks != [] ==> |chunks[0]| == 2)
    ensures IsRun(Finish(Loaded(m, f)), left) && Run(m, chunks) == Run(Finish(Loaded(m, f)), left)
    ensures IsWholeRun(m, chunks) <==> IsWholeRun(Finish(Loaded(m, f)), left)
    ensures Concat(left) == rest
  {
    left := RunHeader(m, chunks, f, rest);
    left := RunKey(m, left, f, rest);
    hide Wire, AskPayload, Headed, Loaded, Keyed, Body, Finish, IsRun, IsWholeRun, Run, Concat;
    left := RunBody(m, left, f, rest);
  }

  lemma RunBody(m: Machine, chunks: seq<Bytes>, f: Frame, rest: Bytes) returns (left: seq<Bytes>)
    requires Ready(m) && IsRun(AskPayload(Keyed(m, f)), chunks)
    requires Concat(chunks) == Body(f) + rest
    ensures IsRun(Finish(Loaded(m, f)), left)
    ensures Run(AskPayload(Keyed(m, f)), chunks) == Run(Finish(Loaded(m, f)), left)
    ensures IsWholeRun(AskPayload(Keyed(m, f)), chunks) <==> IsWholeRun(Finish(Loaded(m, f)), left)
    ensures Concat(left) == rest
  {
    left := chunks;
    var m2 := Keyed(m, f);
    if f.payload == [] {
      assert Body(f) == [];
      assert Body(f) + rest == rest;
      hide Finish, HeaderOf, IsRun, IsWholeRun, Run, Concat;
      assert m2 == Loaded(m, f);
    } else {
      hide Finish, HeaderOf, Body, IsRun, IsWholeRun, Run, Concat;
      assert AskPayload(m2) == m2;
      assert m2.fragment + Body(f) == Body(f);
      left := RunPayload(m2, left, Body(f), rest);
      assert m2.(fragment := m2.fragment + Body(f), remaining := 0) == Loaded(m, f);
    }
  }

  lemma RunWholeFrame(m: Machine, chunks: seq<Bytes>, f: Frame, rest: Bytes) returns (left: seq<Bytes>)
    requires Ready(m) && FrameOk(f) && |f.payload| <= m.maxPayload && IsWholeRun(m, chunks)
    requires Concat(chunks) == Wire(f) + rest
    ensures IsWholeRun(Finish(Loaded(m, f)), left) && Run(m, chunks) == Run(Finish(Loaded(m, f)), left)
    ensures Concat(left) == rest
  {
    assert chunks != [] ==> |chunks[0]| == 2;
    hide *;
    left := RunFrame(m, chunks, f, rest);
  }

  // ---- Messages ----

  /** A ping or a pong. */
  datatype Control = Control(ping: bool, key: Option<Key>, payload: Bytes)

  /** A part of a message. */
  datatype Piece = Piece(key: Option<Key>, payload: Bytes)

  /** What a sender may put on the wire, section 5.4 of RFC 6455: control frames, and messages in any number of pieces
      with control frames between them. */
  datatype Item =
    | Alone(control: Control)
    | Message(binary: bool, first: Piece, more: seq<(seq<Control>, Piece)>)

  function ControlFrame(c: Control): Frame { Frame(true, if c.ping then 9 else 0xA, c.key, c.payload) }

  function ControlFrames(cs: seq<Control>): seq<Frame> {
    if cs == [] then [] else [ControlFrame(cs[0])] + ControlFrames(cs[1..])
  }

  function MoreFrames(more: seq<(seq<Control>, Piece)>): seq<Frame> {
    if more == [] then []
    else
      ControlFrames(more[0].0) + [Frame(|more| == 1, 0, more[0].1.key, more[0].1.payload)] + MoreFrames(more[1..])
  }

  function Frames(item: Item): seq<Frame> {
    match item
    case Alone(c) => [ControlFrame(c)]
    case Message(binary, first, more) =>
      [Frame(more == [], if binary then 2 else 1, first.key, first.payload)] + MoreFrames(more)
  }

  function AllFrames(items: seq<Item>): seq<Frame> {
    if items == [] then [] else Frames(items[0]) + AllFrames(items[1..])
  }

  function WireAll(frames: seq<Frame>): Bytes
  {
    if frames == [] then [] else Wire(frames[0]) + WireAll(frames[1..])
  }

  // What must come out

  function MoreText(more: seq<(seq<Control>, Piece)>): Bytes {
    if more == [] then [] else more[0].1.payload + MoreText(more[1..])
  }

  function Messages(items: seq<Item>): seq<(Bytes, bool)> {
    if items == [] then []
    else
      (match items[0]
       case Alone(_) => []
       case Message(binary, first, more) => [(first.payload + MoreText(more), binary)])
      + Messages(items[1..])
  }

  /** The answer to a ping: a frame with the same payload. */
  function Pong(c: Control): Bytes { if c.ping then Wire(Frame(true, 0xA, None, c.payload)) else [] }

  function Pongs(cs: seq<Control>): Bytes {
    if cs == [] then []
    else Pong(cs[0]) + Pongs(cs[1..])
  }

  function Controls(more: seq<(seq<Control>, Piece)>): seq<Control> {
    if more == [] then [] else more[0].0 + Controls(more[1..])
  }

  function AllControls(items: seq<Item>): seq<Control> {
    if items == [] then []
    else
      (match items[0]
       case Alone(c) => [c]
       case Message(_, _, more) => Controls(more))
      + AllControls(items[1..])
  }

  // ---- What one frame does ----

  ghost predicate Fits(m: Machine, f: Frame) { FrameOk(f) && |f.payload| <= m.maxPayload }

  /** Nothing but the message in progress and the record of what happened can differ. */
  ghost predicate Same(m: Machine, m': Machine) {
    m'.maxPayload == m.maxPayload && m'.sentClose == m.sentClose && m'.receivedClose == m.receivedClose
    && m'.closes == m.closes && m'.closeHandled == m.closeHandled
  }

  lemma LoadedFrame(m: Machine, f: Frame)
    requires Ready(m)
    ensures var l := Loaded(m, f);
            && Fragment(l) == f.payload && Same(m, l) && l.state == Payload && !(l.sentClose && l.receivedClose)
            && l.message == m.message && l.isBinary == m.isBinary
            && l.delivered == m.delivered && l.written == m.written
            && IsFin(l.miniHeader) == f.fin && Opcode(l.miniHeader) == f.opcode
  {
    if f.key.Some? { MaskedTwice(f.payload, f.key.value); }
    HeaderOfFrame(f);
    hide Masked, HeaderOf, IsFin, Opcode, IsMasked;
  }

  lemma DataFrame(m: Machine, f: Frame)
    requires Ready(m) && f.opcode <= 2
    ensures var m' := Finish(Loaded(m, f));
            && Ready(m') && Same(m, m') && m'.written == m.written
            && m'.isBinary == (if f.opcode == 0 then m.isBinary else f.opcode == 2)
            && m'.message == (if f.fin then [] else m.message + f.payload)
            && m'.delivered == if f.fin then m.delivered + [(m.message + f.payload, m'.isBinary)] else m.delivered
  {
    LoadedFrame(m, f);
    hide Loaded, IsFin, Opcode, Masked;
    DataHandled(Loaded(m, f));
    hide Finish;
  }

  lemma DataHandled(l: Machine)
    requires l.state == Payload && Opcode(l.miniHeader) <= 2 && !(l.sentClose && l.receivedClose)
    ensures var m' := Finish(l);
            var op := Opcode(l.miniHeader);
            && Ready(m') && Same(l, m') && m'.written == l.written
            && m'.isBinary == (if op == 0 then l.isBinary else op == 2)
            && m'.message == (if IsFin(l.miniHeader) then [] else l.message + Fragment(l))
            && m'.delivered == if IsFin(l.miniHeader) then l.delivered + [(l.message + Fragment(l), m'.isBinary)]
                               else l.delivered
  {
    hide Opcode, Fragment;
    if IsFin(l.miniHeader) {
      hide IsFin;
    } else {
      hide IsFin;
    }
  }

  lemma ControlHandled(l: Machine)
    requires l.state == Payload && 9 <= Opcode(l.miniHeader) <= 0xA && !(l.sentClose && l.receivedClose)
    ensures var m' := Finish(l);
            && Ready(m') && Same(l, m') && m'.message == l.message && m'.isBinary == l.isBinary
            && m'.delivered == l.delivered
            && m'.written == if Opcode(l.miniHeader) == 9
                             then l.written + BuildHeader(0xA, |Fragment(l)|) + Fragment(l) else l.written
  {
    hide IsFin, Opcode, Masked, BuildHeader;
  }

  lemma ControlFrameDone(m: Machine, c: Control)
    requires Ready(m)
    ensures var m' := Finish(Loaded(m, ControlFrame(c)));
            && Ready(m') && Same(m, m') && m'.message == m.message && m'.isBinary == m.isBinary
            && m'.delivered == m.delivered && m'.written == m.written + Pongs([c])
  {
    var f := ControlFrame(c);
    LoadedFrame(m, f);
    PongBytes(c);
    hide Loaded, IsFin, Opcode, Masked, BuildHeader, Pongs;
    ControlHandled(Loaded(m, f));
    hide Finish, Fragment;
    assert m.written + [] == m.written;
    assert m.written + BuildHeader(0xA, |c.payload|) + c.payload
        == m.written + (BuildHeader(0xA, |c.payload|) + c.payload);
  }

  lemma PongBytes(c: Control)
    ensures Pongs([c]) == if c.ping then BuildHeader(0xA, |c.payload|) + c.payload else []
  {
    assert [c][1..] == [];
    assert Pongs([]) == [];
    BuiltHeaderIsAFrame(0xA, c.payload);
  }

  /** The header that is sent before a payload makes it a final frame without a mask. */
  lemma BuiltHeaderIsAFrame(opcode: Nibble, payload: Bytes)
    ensures BuildHeader(opcode, |payload|) + payload == Wire(Frame(true, opcode, None, payload))
  {
  }

  // ---- Whole streams ----

  predicate ControlFits(max: nat, c: Control) { |c.payload| < TWO_TO_THE_64 && |c.payload| <= max }

  predicate PieceFits(max: nat, p: Piece) { |p.payload| < TWO_TO_THE_64 && |p.payload| <= max }

  predicate MoreFit(max: nat, more: seq<(seq<Control>, Piece)>) {
    forall k :: 0 <= k < |more| ==>
      PieceFits(max, more[k].1) && forall j :: 0 <= j < |more[k].0| ==> ControlFits(max, more[k].0[j])
  }

  predicate ItemFits(max: nat, item: Item) {
    match item
    case Alone(c) => ControlFits(max, c)
    case Message(_, first, more) => PieceFits(max, first) && MoreFit(max, more)
  }

  lemma Assoc<T>(a: seq<T>, b: seq<T>, c: seq<T>)
    ensures a + b + c == a + (b + c)
  {
  }

  lemma {:induction false} WireAllConcat(a: seq<Frame>, b: seq<Frame>)
    ensures WireAll(a + b) == WireAll(a) + WireAll(b)
  {
    hide Wire;
    if a == [] {
      assert a + b == b;
    } else {
      WireAllConcat(a[1..], b);
      assert (a + b)[1..] == a[1..] + b;
      Assoc(Wire(a[0]), WireAll(a[1..]), WireAll(b));
    }
  }

  lemma {:induction false} RunControls(m: Machine, chunks: seq<Bytes>, cs: seq<Control>, rest: Bytes)
    returns (m': Machine, left: seq<Bytes>)
    requires Ready(m) && IsWholeRun(m, chunks)
    requires forall j :: 0 <= j < |cs| ==> ControlFits(m.maxPayload, cs[j])
    requires Concat(chunks) == WireAll(ControlFrames(cs)) + rest
    ensures Ready(m') && Same(m, m') && IsWholeRun(m', left) && Run(m, chunks) == Run(m', left) && Concat(left) == rest
    ensures m'.message == m.message && m'.isBinary == m.isBinary && m'.delivered == m.delivered
    ensures m'.written == m.written + Pongs(cs)
    decreases |cs|
  {
    hide Wire, Ready, IsRun, IsWholeRun, Run, Concat, Loaded, Finish;
    if cs == [] {
      m', left := m, chunks;
      assert m.written + [] == m.written;
      assert WireAll(ControlFrames(cs)) + rest == rest;
    } else {
      var f := ControlFrame(cs[0]);
      assert ControlFrames(cs)[0] == f && ControlFrames(cs)[1..] == ControlFrames(cs[1..]);
      assert WireAll(ControlFrames(cs)) + rest == Wire(f) + (WireAll(ControlFrames(cs[1..])) + rest);
      left := RunWholeFrame(m, chunks, f, WireAll(ControlFrames(cs[1..])) + rest);
      ControlFrameDone(m, cs[0]);
      PongsConcat([cs[0]], cs[1..]);
      assert [cs[0]] + cs[1..] == cs;
      hide WireAll, ControlFrames, Pongs;
      m', left := RunControls(Finish(Loaded(m, f)), left, cs[1..], rest);
      Assoc(m.written, Pongs([cs[0]]), Pongs(cs[1..]));
    }
  }

  lemma {:induction false} PongsConcat(a: seq<Control>, b: seq<Control>)
    ensures Pongs(a + b) == Pongs(a) + Pongs(b)
  {
    hide Pong;
    if a == [] {
      assert a + b == b;
    } else {
      PongsConcat(a[1..], b);
      assert (a + b)[1..] == a[1..] + b;
      Assoc(Pong(a[0]), Pongs(a[1..]), Pongs(b));
    }
  }

  /** The wire of the first frames, then of the others. */
  lemma WireSplit(a: seq<Frame>, f: Frame, b: seq<Frame>, rest: Bytes)
    ensures WireAll(a + [f] + b) + rest == WireAll(a) + (Wire(f) + (WireAll(b) + rest))
  {
    WireAllConcat(a, [f]);
    WireAllConcat(a + [f], b);
    OneFrame(f);
    hide WireAll, Wire;
    Assoc(WireAll(a), Wire(f), WireAll(b));
    Assoc(WireAll(a), Wire(f) + WireAll(b), rest);
    Assoc(Wire(f), WireAll(b), rest);
  }

  lemma OneFrame(f: Frame)
    ensures WireAll([f]) == Wire(f)
  {
    hide Wire;
    assert [f][1..] == [];
    assert WireAll([]) == [];
  }

  /** The rest of a message that has begun. */
  lemma {:induction false} RunMore(m: Machine, chunks: seq<Bytes>, more: seq<(seq<Control>, Piece)>, rest: Bytes)
    returns (m': Machine, left: seq<Bytes>)
    requires Ready(m) && IsWholeRun(m, chunks) && MoreFit(m.maxPayload, more) && more != []
    requires Concat(chunks) == WireAll(MoreFrames(more)) + rest
    ensures Ready(m') && Same(m, m') && IsWholeRun(m', left) && Run(m, chunks) == Run(m', left) && Concat(left) == rest
    ensures m'.message == [] && m'.delivered == m.delivered + [(m.message + MoreText(more), m.isBinary)]
    ensures m'.written == m.written + Pongs(Controls(more))
    decreases |more|
  {
    var cs, piece := more[0].0, more[0].1;
    var f := Frame(|more| == 1, 0, piece.key, piece.payload);
    WireSplit(ControlFrames(cs), f, MoreFrames(more[1..]), rest);
    MoreFitStep(m.maxPayload, more);
    hide Wire, Ready, IsRun, IsWholeRun, Run, Concat, Loaded, Finish, Pongs, ControlFrames, WireAll;
    hide MoreFit, ControlFits;
    m', left := RunPiece(m, chunks, cs, f, WireAll(MoreFrames(more[1..])) + rest);
    PongsConcat(cs, Controls(more[1..]));
    Assoc(m.written, Pongs(cs), Pongs(Controls(more[1..])));
    Assoc(m.message, piece.payload, MoreText(more[1..]));
    if |more| == 1 {
      NoMore(more[1..], rest);
      assert m.message + (piece.payload + []) == m.message + piece.payload;
      assert m.written + Pongs(cs) + [] == m.written + Pongs(cs);
    } else {
      m', left := RunMore(m', left, more[1..], rest);
    }
  }

  lemma MoreFitStep(max: nat, more: seq<(seq<Control>, Piece)>)
    requires MoreFit(max, more) && more != []
    ensures PieceFits(max, more[0].1) && forall j :: 0 <= j < |more[0].0| ==> ControlFits(max, more[0].0[j])
    ensures MoreFit(max, more[1..])
  {
  }

  lemma RunPiece(m: Machine, chunks: seq<Bytes>, cs: seq<Control>, f: Frame, rest: Bytes)
    returns (m': Machine, left: seq<Bytes>)
    requires Ready(m) && IsWholeRun(m, chunks) && Fits(m, f) && f.opcode == 0
    requires forall j :: 0 <= j < |cs| ==> ControlFits(m.maxPayload, cs[j])
    requires Concat(chunks) == WireAll(ControlFrames(cs)) + (Wire(f) + rest)
    ensures Ready(m') && Same(m, m') && IsWholeRun(m', left) && Run(m, chunks) == Run(m', left) && Concat(left) == rest
    ensures m'.isBinary == m.isBinary && m'.written == m.written + Pongs(cs)
    ensures m'.message == (if f.fin then [] else m.message + f.payload)
    ensures m'.delivered == if f.fin then m.delivered + [(m.message + f.payload, m.isBinary)] else m.delivered
  {
    hide Wire, Ready, IsRun, IsWholeRun, Run, Concat, Loaded, Finish, Pongs, ControlFrames, WireAll;
    m', left := RunControls(m, chunks, cs, Wire(f) + rest);
    left := RunWholeFrame(m', left, f, rest);
    DataFrame(m', f);
    m' := Finish(Loaded(m', f));
  }

  lemma NoMore(more: seq<(seq<Control>, Piece)>, rest: Bytes)
    requires more == []
    ensures MoreFrames(more) == [] && MoreText(more) == [] && Pongs(Controls(more)) == []
    ensures WireAll(MoreFrames(more)) + rest == rest
  {
  }

  lemma RunItem(m: Machine, chunks: seq<Bytes>, item: Item, rest: Bytes) returns (m': Machine, left: seq<Bytes>)
    requires Ready(m) && m.message == [] && IsWholeRun(m, chunks) && ItemFits(m.maxPayload, item)
    requires Concat(chunks) == WireAll(Frames(item)) + rest
    ensures Ready(m') && Same(m, m') && IsWholeRun(m', left) && Run(m, chunks) == Run(m', left) && Concat(left) == rest
    ensures m'.message == [] && m'.delivered == m.delivered + Messages([item])
    ensures m'.written == m.written + Pongs(AllControls([item]))
  {
    OneItem(item);
    match item
    case Alone(c) =>
      OneFrame(ControlFrame(c));
      left := RunWholeFrame(m, chunks, ControlFrame(c), rest);
      ControlFrameDone(m, c);
      m' := Finish(Loaded(m, ControlFrame(c)));
      hide Wire, Ready, IsRun, IsWholeRun, Run, Concat, Loaded, Finish, Pongs, WireAll, Messages, AllControls;
      assert m.delivered + [] == m.delivered;
    case Message(binary, first, more) =>
      m', left := RunMessage(m, chunks, binary, first, more, rest);
      hide Wire, Ready, IsRun, IsWholeRun, Run, Concat, Pongs, WireAll, Messages, AllControls;
  }

  lemma OneItem(item: Item)
    ensures Messages([item]) == match item
                                case Alone(_) => []
                                case Message(binary, first, more) => [(first.payload + MoreText(more), binary)]
    ensures AllControls([item]) == match item
                                   case Alone(c) => [c]
                                   case Message(_, _, more) => Controls(more)
  {
    assert [item][1..] == [];
    assert Messages([]) == [] && AllControls([]) == [];
  }

  lemma RunMessage(m: Machine, chunks: seq<Bytes>, binary: bool, first: Piece, more: seq<(seq<Control>, Piece)>,
                   rest: Bytes)
    returns (m': Machine, left: seq<Bytes>)
    requires Ready(m) && m.message == [] && IsWholeRun(m, chunks)
    requires PieceFits(m.maxPayload, first) && MoreFit(m.maxPayload, more)
    requires Concat(chunks) == WireAll(Frames(Message(binary, first, more))) + rest
    ensures Ready(m') && Same(m, m') && IsWholeRun(m', left) && Run(m, chunks) == Run(m', left) && Concat(left) == rest
    ensures m'.message == [] && m'.delivered == m.delivered + [(first.payload + MoreText(more), binary)]
    ensures m'.written == m.written + Pongs(Controls(more))
  {
    var f := Frame(more == [], if binary then 2 else 1, first.key, first.payload);
    var behind := WireAll(MoreFrames(more)) + rest;
    WireSplit([], f, MoreFrames(more), rest);
    assert [] + [f] + MoreFrames(more) == Frames(Message(binary, first, more));
    assert WireAll([]) + (Wire(f) + behind) == Wire(f) + behind;
    left := RunWholeFrame(m, chunks, f, behind);
    DataFrame(m, f);
    m' := Finish(Loaded(m, f));
    hide Wire, Ready, IsRun, IsWholeRun, Run, Concat, Loaded, Finish, Pongs, WireAll, MoreFrames, MoreText;
    assert m.message + first.payload == first.payload;
    if more == [] {
      NoMore(more, rest);
      assert first.payload + [] == first.payload && m.written + [] == m.written;
    } else {
      m', left := RunMore(m', left, more, rest);
    }
  }

  lemma {:induction false} RunItems(m: Machine, chunks: seq<Bytes>, items: seq<Item>)
    returns (m': Machine, left: seq<Bytes>)
    requires Ready(m) && m.message == [] && IsWholeRun(m, chunks)
    requires forall k :: 0 <= k < |items| ==> ItemFits(m.maxPayload, items[k])
    requires Concat(chunks) == WireAll(AllFrames(items))
    ensures Ready(m') && Same(m, m') && IsWholeRun(m', left) && Run(m, chunks) == Run(m', left) && Concat(left) == []
    ensures m'.message == [] && m'.delivered == m.delivered + Messages(items)
    ensures m'.written == m.written + Pongs(AllControls(items))
    decreases |items|
  {
    hide Wire, Ready, IsRun, IsWholeRun, Run, Concat, Loaded, Finish;
    if items == [] {
      m', left := m, chunks;
      assert m.delivered + [] == m.delivered && m.written + [] == m.written;
    } else {
      WireAllConcat(Frames(items[0]), AllFrames(items[1..]));
      ItemsStep(items);
      hide WireAll, Frames, Messages, AllControls, Pongs;
      m', left := RunItem(m, chunks, items[0], WireAll(AllFrames(items[1..])));
      var m1 := m';
      m', left := RunItems(m1, left, items[1..]);
      Assoc(m.delivered, Messages([items[0]]), Messages(items[1..]));
      Assoc(m.written, Pongs(AllControls([items[0]])), Pongs(AllControls(items[1..])));
    }
  }

  lemma ItemsStep(items: seq<Item>)
    requires items != []
    ensures Messages(items) == Messages([items[0]]) + Messages(items[1..])
    ensures Pongs(AllControls(items)) == Pongs(AllControls([items[0]])) + Pongs(AllControls(items[1..]))
  {
    OneItem(items[0]);
    hide Pongs;
    PongsConcat(AllControls([items[0]]), AllControls(items[1..]));
  }

  /** Any messages, in any fragments, with any masks, with pings and pongs anywhere, in payload reads of any size,
      as long as no header is cut apart: exactly the messages are delivered, in order, each as text or binary as it was
      begun, and every ping is answered. */
  lemma DeliversMessages(m: Machine, chunks: seq<Bytes>, items: seq<Item>)
    requires Ready(m) && m.message == [] && IsWholeRun(m, chunks)
    requires forall k :: 0 <= k < |items| ==> ItemFits(m.maxPayload, items[k])
    requires Concat(chunks) == WireAll(AllFrames(items))
    ensures var m' := Run(m, chunks);
            && Ready(m') && m'.message == []
            && m'.delivered == m.delivered + Messages(items)
            && m'.written == m.written + Pongs(AllControls(items))
            && m'.closes == m.closes
  {
    hide WireAll, AllFrames, Ready, Messages, Pongs;
    var m', left := RunItems(m, chunks, items);
    assert left == [];
  }

  /** Reading back a header that was built: final, the same opcode, no mask, the same length. */
  lemma BuiltHeaderReadsBack(opcode: Nibble, n: nat)
    requires n < TWO_TO_THE_64
    ensures var h := BuildHeader(opcode, n);
            var header := h[0] as int * 256 + h[1];
            && IsFin(header) && Opcode(header) == opcode && !IsMasked(header)
            && (if header % 128 < 126 then header % 128 == n && |h| == 2
                else Number(h[2..]) == n && |h| == if header % 128 == 126 then 4 else 10)
  {
    HeaderFields(true, opcode, false, n);
    assert BuildHeader(opcode, n)[2..] == LongLength(n);
    if n >= 126 { LongLengthNumber(n); }
  }

  // ---- Headers in two reads ----

  /** One byte alone is taken for a whole frame of its opcode without a payload. */
  lemma ShortHeader(m: Machine, fin: bool, opcode: Nibble)
    requires Ready(m)
    ensures Admissible(m, [FirstByte(fin, opcode)])
    ensures OnRead(m, [FirstByte(fin, opcode)]) == Finish(Loaded(m, Frame(fin, opcode, None, [])))
  {
    var f := Frame(fin, opcode, None, []);
    HeaderOfFrame(f);
    hide IsMasked, Finish, FirstByte;
    assert HeaderOf(f) == FirstByte(fin, opcode) * 256;
  }

  lemma DataGrows(m: Machine)
    ensures m.delivered <= HandleData(m).delivered
  {
    hide Opcode, IsFin;
  }

  lemma ControlDeliversNothing(m: Machine)
    ensures HandleControl(m).delivered == m.delivered
  {
    assert ReceiveClose(m).delivered == m.delivered by { hide BuildHeader, BigEndian; }
    hide Opcode, ReceiveClose, BuildHeader;
  }

  lemma HandleGrows(m: Machine)
    ensures m.delivered <= HandleFragment(m).delivered
  {
    var unmasked := m.(fragment := Fragment(m));
    DataGrows(unmasked);
    ControlDeliversNothing(unmasked);
    hide Fragment, Opcode, HandleData, HandleControl;
  }

  /** What has been delivered stays delivered. */
  lemma {:induction false} DeliveredGrows(m: Machine, chunks: seq<Bytes>)
    requires IsRun(m, chunks)
    ensures m.delivered <= Run(m, chunks).delivered
    decreases |chunks|
  {
    if chunks != [] {
      ReadGrows(m, chunks[0]);
      hide OnRead;
      DeliveredGrows(OnRead(m, chunks[0]), chunks[1..]);
    }
  }

  lemma FinishGrows(m: Machine)
    ensures m.delivered <= Finish(m).delivered
  {
    HandleGrows(m);
    hide HandleFragment;
  }

  lemma AskPayloadGrows(m: Machine)
    requires m.state.Payload?
    ensures m.delivered <= AskPayload(m).delivered
  {
    FinishGrows(m);
    hide Finish;
  }

  lemma AskMaskGrows(m: Machine)
    requires m.state.Mask?
    ensures m.delivered <= AskMask(m).delivered
  {
    AskPayloadGrows(m.(state := Payload));
    hide AskPayload;
  }

  lemma ReadGrows(m: Machine, data: Bytes)
    requires Admissible(m, data)
    ensures m.delivered <= OnRead(m, data).delivered
  {
    if m.state.MiniHeader? {
      HeaderGrows(m, data);
    } else if m.state.Payload? {
      AskPayloadGrows(m.(fragment := m.fragment + data, remaining := m.remaining - |data|));
      hide AskMask, AskPayload, Number, IsMasked;
    } else if m.state.Mask? {
      AskPayloadGrows(m.(mask := data, state := Payload));
      hide AskMask, AskPayload, Number, IsMasked;
    } else {
      AskMaskGrows(m.(remaining := Number(data), state := Mask));
      hide AskMask, AskPayload, Number, IsMasked;
    }
  }

  lemma HeaderGrows(m: Machine, data: Bytes)
    requires m.state.MiniHeader? && Admissible(m, data)
    ensures m.delivered <= OnRead(m, data).delivered
  {
    hide AskMask, IsMasked;
    var header := data[0] as int * 256 + if |data| == 2 then data[1] else 0;
    AskMaskGrows(m.(miniHeader := header, hasMask := IsMasked(header), remaining := header % 128, state := Mask));
  }

  /** A message in one piece that is not empty. */
  predicate IsPlain(item: Item) { item.Message? && item.more == [] && item.first.payload != [] }

  /** A stream of such messages is delivered exactly if no header is cut apart. */
  lemma {:induction false} HeadersMustArriveWhole(m: Machine, chunks: seq<Bytes>, items: seq<Item>)
    requires Ready(m) && m.message == [] && IsRun(m, chunks)
    requires forall k :: 0 <= k < |items| ==> ItemFits(m.maxPayload, items[k]) && IsPlain(items[k])
    requires Concat(chunks) == WireAll(AllFrames(items))
    ensures Run(m, chunks).delivered == m.delivered + Messages(items) <==> IsWholeRun(m, chunks)
    decreases |items|
  {
    if items == [] {
      NothingRead(m, chunks);
    } else {
      var f := PlainFrame(items[0]);
      var rest := WireAll(AllFrames(items[1..]));
      var message := (f.payload, items[0].binary);
      FirstPlain(items);
      WireStarts(f, chunks, rest);
      assert Fits(m, f);
      hide Wire, WireAll, AllFrames, Messages, Loaded, Finish, IsRun, IsWholeRun, Run, Concat;
      assert m.message + f.payload == f.payload;
      if |chunks[0]| == 2 {
        DataFrame(m, f);
        hide Ready;
        var left := RunFrame(m, chunks, f, rest);
        HeadersMustArriveWhole(Finish(Loaded(m, f)), left, items[1..]);
        Assoc(m.delivered, [message], Messages(items[1..]));
      } else {
        CutHeader(m, chunks, f);
        hide *;
        assert (m.delivered + Messages(items))[|m.delivered|] == message;
      }
    }
  }

  lemma NothingRead(m: Machine, chunks: seq<Bytes>)
    requires IsRun(m, chunks) && Concat(chunks) == []
    ensures chunks == [] && Run(m, chunks).delivered == m.delivered + Messages([])
  {
    assert m.delivered + [] == m.delivered;
  }

  function PlainFrame(item: Item): Frame
    requires IsPlain(item)
  {
    Frame(true, if item.binary then 2 else 1, item.first.key, item.first.payload)
  }

  lemma FirstPlain(items: seq<Item>)
    requires items != [] && IsPlain(items[0])
    ensures WireAll(AllFrames(items)) == Wire(PlainFrame(items[0])) + WireAll(AllFrames(items[1..]))
    ensures Messages(items) == [(PlainFrame(items[0]).payload, items[0].binary)] + Messages(items[1..])
  {
    var f := PlainFrame(items[0]);
    assert Frames(items[0]) == [f];
    assert f.payload + MoreText([]) == f.payload;
    WireAllConcat([f], AllFrames(items[1..]));
    OneFrame(f);
    hide WireAll, Wire;
  }

  lemma WireStarts(f: Frame, chunks: seq<Bytes>, rest: Bytes)
    requires Concat(chunks) == Wire(f) + rest
    ensures chunks != [] && (chunks[0] != [] ==> chunks[0][0] == FirstByte(f.fin, f.opcode))
  {
    hide FirstByte, SecondByte, LongLength, KeyBytes, Body;
    var wire := Wire(f);
    assert wire[0] == FirstByte(f.fin, f.opcode);
    if chunks[0] != [] { assert chunks[0][0] == Concat(chunks)[0]; }
  }

  /** A cut header makes the first message an empty one. */
  lemma CutHeader(m: Machine, chunks: seq<Bytes>, f: Frame)
    requires Ready(m) && m.message == [] && IsRun(m, chunks) && f.fin && 1 <= f.opcode <= 2
    requires chunks != [] && (chunks[0] != [] ==> chunks[0][0] == FirstByte(f.fin, f.opcode)) && |chunks[0]| != 2
    ensures !IsWholeRun(m, chunks)
    ensures m.delivered + [([], f.opcode == 2)] <= Run(m, chunks).delivered
  {
    RunFirst(m, chunks);
    hide FirstByte, IsRun, IsWholeRun, Run;
    assert chunks[0] == [FirstByte(f.fin, f.opcode)];
    ShortHeader(m, true, f.opcode);
    DataFrame(m, Frame(true, f.opcode, None, []));
    assert m.message + [] == [];
    hide OnRead, Finish, Loaded, Admissible;
    DeliveredGrows(OnRead(m, chunks[0]), chunks[1..]);
  }

  lemma RunFirst(m: Machine, chunks: seq<Bytes>)
    requires IsRun(m, chunks) && chunks != []
    ensures Admissible(m, chunks[0]) && IsRun(OnRead(m, chunks[0]), chunks[1..])
    ensures Run(m, chunks) == Run(OnRead(m, chunks[0]), chunks[1..])
    ensures m.state.MiniHeader? ==> 1 <= |chunks[0]| <= 2 && (IsWholeRun(m, chunks) ==> |chunks[0]| == 2)
  {
    hide OnRead;
  }
}
