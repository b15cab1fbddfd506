/** A connection: its read handlers and the header it writes, over the fields that they update. */
module WebSocket {
  import opened WebSocketFrames

  // ---- The byte order of the host ----

  /** How a number of k bytes lies in the memory of the host. */
  function LittleEndian(n: nat, k: nat): (r: Bytes)
    ensures |r| == k
  {
    if k == 0 then [] else [n % 256] + LittleEndian(n / 256, k - 1)
  }

  /** The number that the host reads from memory. */
  function InMemory(bytes: Bytes): nat {
    if bytes == [] then 0 else bytes[0] + 256 * InMemory(bytes[1..])
  }

  /** htonl and htons: the number whose bytes in memory are the k bytes of n, most significant first. */
  function HostToNet(n: nat, k: nat): nat { InMemory(BigEndian(n, k)) }

  lemma LowByte(low: nat, rest: nat)
    requires low < 256
    ensures (low + 256 * rest) % 256 == low && (low + 256 * rest) / 256 == rest
  {
  }

  lemma {:induction false} StoreWhatWasRead(bytes: Bytes)
    ensures InMemory(bytes) < Power256(|bytes|) && LittleEndian(InMemory(bytes), |bytes|) == bytes
  {
    if bytes != [] {
      StoreWhatWasRead(bytes[1..]);
      LowByte(bytes[0], InMemory(bytes[1..]));
    }
  }

  /** Two numbers of four bytes stored as one of eight. */
  lemma {:induction false} LittleEndianPair(low: nat, high: nat, j: nat, k: nat)
    requires low < Power256(j)
    ensures LittleEndian(low + Power256(j) * high, j + k) == LittleEndian(low, j) + LittleEndian(high, k)
  {
    if j == 0 {
      assert low + Power256(0) * high == high;
    } else {
      var n := low + Power256(j) * high;
      assert n == low % 256 + 256 * (low / 256 + Power256(j - 1) * high) by {
        assert Power256(j) * high == 256 * (Power256(j - 1) * high);
      }
      LowByte(low % 256, low / 256 + Power256(j - 1) * high);
      LittleEndianPair(low / 256, high, j - 1, k);
    }
  }

  lemma {:induction false} BigEndianConcat(high: nat, low: nat, j: nat, k: nat)
    requires low < Power256(k)
    ensures BigEndian(high * Power256(k) + low, j + k) == BigEndian(high, j) + BigEndian(low, k)
  {
    if k == 0 {
      assert high * Power256(0) + low == high;
    } else {
      var n := high * Power256(k) + low;
      assert n == 256 * (high * Power256(k - 1) + low / 256) + low % 256 by {
        assert high * Power256(k) == 256 * (high * Power256(k - 1));
      }
      LowByte(low % 256, high * Power256(k - 1) + low / 256);
      BigEndianConcat(high, low / 256, j, k - 1);
      assert BigEndian(n, j + k) == BigEndian(n / 256, j + k - 1) + [n % 256];
    }
  }

  /** The 64-bit length that the two halves are swapped into lies in memory most significant byte first. */
  lemma SwappedHalves(size: nat)
    requires size < TWO_TO_THE_64
    ensures HostToNet(size / TWO_TO_THE_32, 4) < TWO_TO_THE_32
    ensures LittleEndian(HostToNet(size % TWO_TO_THE_32, 4) * TWO_TO_THE_32 + HostToNet(size / TWO_TO_THE_32, 4), 8)
            == BigEndian(size, 8)
  {
    var high, low := size / TWO_TO_THE_32, size % TWO_TO_THE_32;
    FourBytes();
    StoreWhatWasRead(BigEndian(high, 4));
    StoreWhatWasRead(BigEndian(low, 4));
    hide InMemory, LittleEndian, BigEndian;
    LittleEndianPair(HostToNet(high, 4), HostToNet(low, 4), 4, 4);
    BigEndianConcat(high, low, 4, 4);
    assert size == high * TWO_TO_THE_32 + low;
  }

  lemma FourBytes()
    ensures Power256(4) == TWO_TO_THE_32
  {
    assert Power256(4) == 256 * (256 * Power256(2)) && Power256(2) == 256 * (256 * Power256(0));
  }

  // ---- The connection ----

  class Connection {
    var state: ReadState
    var miniHeader: nat
    var hasMask: bool
    var remainingLength: nat
    var mask: Key
    var fragment: Bytes
    var message: Bytes
    var isBinary: bool
    var pongReceived: bool
    var hasSentClose: bool
    var hasReceivedClose: bool
    var isCloseHandlerCalled: bool
    var maxPayloadBytes: nat
    // What the handlers were called with, and what was handed to the socket.
    var delivered: seq<(Bytes, bool)>
    var written: Bytes
    var closes: seq<(Bytes, nat)>

    ghost function View(): Machine
      reads this
    {
      Machine(state, miniHeader, hasMask, remainingLength, mask, fragment, message, isBinary, pongReceived,
              hasSentClose, hasReceivedClose, isCloseHandlerCalled, maxPayloadBytes, delivered, written, closes)
    }

    constructor (maxPayload: nat)
      ensures Ready(View()) && message == [] && delivered == [] && written == [] && closes == []
      ensures maxPayloadBytes == maxPayload && !hasSentClose && !hasReceivedClose
    {
      state, miniHeader, hasMask, remainingLength, mask := MiniHeader, 0, false, 0, [0, 0, 0, 0];
      fragment, message, isBinary, pongReceived := [], [], false, false;
      hasSentClose, hasReceivedClose, isCloseHandlerCalled := false, false, false;
      maxPayloadBytes := maxPayload;
      delivered, written, closes := [], [], [];
    }

    static method BuildHeader(opcode: Nibble, size: nat) returns (header: Bytes)
      requires size < TWO_TO_THE_64
      ensures header == WebSocketFrames.BuildHeader(opcode, size)
    {
      var buf: Bytes := [0x80 + opcode, 0];
      if size < 126 {
        header := buf[1 := size];
      } else if size < 0x1_0000 {
        StoreWhatWasRead(BigEndian(size, 2));
        header := buf[1 := 126] + LittleEndian(HostToNet(size, 2), 2);
      } else {
        SwappedHalves(size);
        var swapped := HostToNet(size % TWO_TO_THE_32, 4) * TWO_TO_THE_32 + HostToNet(size / TWO_TO_THE_32, 4);
        header := buf[1 := 127] + LittleEndian(swapped, 8);
      }
    }

    predicate IsFin()
      reads this
    {
      WebSocketFrames.IsFin(miniHeader)
    }

    function Opcode(): Nibble
      reads this
    {
      WebSocketFrames.Opcode(miniHeader)
    }

    method CheckDestroy(code: nat)
      modifies this
      ensures View() == Destroyed(old(View()), code)
    {
      state := Closed;
      if !isCloseHandlerCalled {
        closes := closes + [(UNCLEANLY, code)];
      }
    }

    method Close(msg: Bytes, statusCode: nat)
      requires |msg| + 2 < TWO_TO_THE_64
      modifies `hasSentClose, `isCloseHandlerCalled, `closes, `written
      ensures View() == SendClose(old(View()), msg, statusCode)
    {
      hasSentClose := true;
      if hasReceivedClose && !isCloseHandlerCalled {
        isCloseHandlerCalled := true;
        closes := closes + [(msg, statusCode)];
      }
      var header := BuildHeader(8, |msg| + 2);
      written := written + header + BigEndian(statusCode, 2) + msg;
    }

    method SendPong(payload: Bytes)
      requires |payload| < TWO_TO_THE_64
      modifies `written
      ensures written == old(written) + WebSocketFrames.BuildHeader(0xA, |payload|) + payload
    {
      var header := BuildHeader(0xA, |payload|);
      written := written + header;
      written := written + payload;
    }

    /** Takes the mask off the fragment, byte by byte. */
    method Unmask()
      modifies `fragment
      ensures fragment == if hasMask then Masked(old(fragment), mask) else old(fragment)
    {
      if hasMask {
        var i := 0;
        while i < |fragment|
          invariant i <= |fragment| == |old(fragment)|
          invariant forall k :: 0 <= k < i ==> fragment[k] == Xor(old(fragment)[k], mask[k % 4])
          invariant forall k :: i <= k < |fragment| ==> fragment[k] == old(fragment)[k]
        {
          hide Xor;
          fragment := fragment[i := Xor(fragment[i], mask[i % 4])];
          i := i + 1;
        }
      }
    }

    method AppendToMessage()
      modifies `message, `delivered
      ensures View() == AppendData(old(View()))
    {
      message := message + fragment;
      if IsFin() {
        delivered := delivered + [(message, isBinary)];
        message := [];
      }
    }

    method ReceiveClose()
      requires |fragment| < TWO_TO_THE_64
      modifies this
      ensures View() == WebSocketFrames.ReceiveClose(old(View()))
    {
      hide SendClose, CloseCode, CloseText;
      hasReceivedClose := true;
      var message, statusCode := CloseReason();
      if !hasSentClose {
        Close(message, statusCode);
        fragment := [];
      } else {
        EndClose(message, statusCode);
      }
    }

    method CloseReason() returns (message: Bytes, statusCode: nat)
      ensures message == CloseText(fragment) && statusCode == CloseCode(fragment)
      ensures |message| + 2 <= if |fragment| >= 2 then |fragment| else 3
    {
      statusCode := NO_STATUS_CODE;
      var messageStart := 2;
      if |fragment| >= 2 {
        statusCode := fragment[0] as int * 256 + fragment[1];
      } else {
        messageStart := 0;
      }
      message := fragment[messageStart..];
    }

    /** Both sides have sent a close frame. */
    method EndClose(msg: Bytes, statusCode: nat)
      modifies `state, `closes, `isCloseHandlerCalled
      ensures state == Closed && isCloseHandlerCalled
      ensures closes == if old(isCloseHandlerCalled) then old(closes) else old(closes) + [(msg, statusCode)]
    {
      if !isCloseHandlerCalled {
        closes := closes + [(msg, statusCode)];
        isCloseHandlerCalled := true;
      }
      state := Closed;
    }

    /** A text, binary or continuation frame. */
    method HandleData()
      requires Opcode() <= 2
      modifies `message, `delivered, `isBinary, `fragment
      ensures View() == WebSocketFrames.HandleData(old(View()))
    {
      hide AppendData, WebSocketFrames.Opcode;
      if Opcode() == 1 {
        isBinary := false;
      } else if Opcode() == 2 {
        isBinary := true;
      }
      AppendToMessage();
      fragment := [];
    }

    /** Whether the connection goes on reading. */
    method HandleFragment() returns (goesOn: bool)
      requires |fragment| < TWO_TO_THE_64 && !state.Closed?
      modifies this
      ensures View() == WebSocketFrames.HandleFragment(old(View())) && goesOn == !state.Closed?
    {
      hide WebSocketFrames.HandleData, WebSocketFrames.HandleControl, WebSocketFrames.Opcode, Masked;
      Unmask();
      goesOn := true;
      if Opcode() <= 2 {
        HandleData();
      } else {
        goesOn := HandleControl();
      }
    }

    method HandleControl() returns (goesOn: bool)
      requires |fragment| < TWO_TO_THE_64 && !state.Closed?
      modifies this
      ensures View() == WebSocketFrames.HandleControl(old(View())) && goesOn == !state.Closed?
    {
      hide WebSocketFrames.ReceiveClose, WebSocketFrames.BuildHeader, WebSocketFrames.Opcode;
      goesOn := true;
      if Opcode() == 8 {
        ReceiveClose();
        return !state.Closed?;
      } else if Opcode() == 9 {
        SendPong(fragment);
      } else if Opcode() == 0xA {
        pongReceived := true;
      }
      fragment := [];
    }

    // ---- Reading ----

    ghost predicate Valid()
      reads this
    {
      && remainingLength < TWO_TO_THE_64
      && (if state.Payload? then |fragment| + remainingLength < TWO_TO_THE_64
          else state.Closed? || fragment == [])
    }

    /** What the pending read asks for, as a state. */
    static function Asked(m: Machine): Machine {
      match m.state
      case Mask => AskMask(m)
      case Payload => AskPayload(m)
      case Closed => m
      case _ => Ask(m)
    }

    /** Asks for the next bytes; goes on by itself where nothing has to be read. */
    method DoRead()
      requires Valid() && !state.Closed?
      modifies this
      ensures Valid() && View() == Asked(old(View()))
      decreases if state.Mask? then 2 else if state.Payload? then 1 else 0, 1
    {
      hide WebSocketFrames.HandleFragment;
      if hasSentClose && hasReceivedClose {
        state := Closed;
        return;
      }
      if state.Mask? {
        if remainingLength > maxPayloadBytes {
          CheckDestroy(MESSAGE_TOO_BIG);
        } else if !hasMask {
          state := Payload;
          DoRead();
        }
      } else if state.Payload? && remainingLength == 0 {
        FinishFragment();
      }
    }

    /** The payload is complete. */
    method FinishFragment()
      requires Valid() && state.Payload? && remainingLength == 0
      modifies this
      ensures Valid() && View() == Finish(old(View()))
      decreases 1, 0
    {
      ClearsFragment(View());
      hide WebSocketFrames.HandleFragment;
      var goesOn := HandleFragment();
      if goesOn {
        state := MiniHeader;
        DoRead();
      }
    }

    static lemma ClearsFragment(m: Machine)
      ensures var m' := WebSocketFrames.HandleFragment(m);
              (m'.state.Closed? || m'.fragment == []) && m'.remaining == m.remaining
    {
      hide Fragment, WebSocketFrames.HandleControl, WebSocketFrames.HandleData;
      var unmasked := m.(fragment := Fragment(m));
      if WebSocketFrames.Opcode(m.miniHeader) <= 2 { ClearsData(unmasked); } else { ClearsControl(unmasked); }
    }

    static lemma ClearsData(m: Machine)
      ensures WebSocketFrames.HandleData(m).fragment == [] && WebSocketFrames.HandleData(m).remaining == m.remaining
    {
      hide WebSocketFrames.Opcode, WebSocketFrames.IsFin;
    }

    static lemma ClearsControl(m: Machine)
      ensures var m' := WebSocketFrames.HandleControl(m);
              (m'.state.Closed? || m'.fragment == []) && m'.remaining == m.remaining
    {
      ClearsClose(m);
      hide WebSocketFrames.Opcode, WebSocketFrames.BuildHeader, WebSocketFrames.ReceiveClose;
    }

    static lemma ClearsClose(m: Machine)
      ensures var m' := WebSocketFrames.ReceiveClose(m);
              (m'.state.Closed? || m'.fragment == []) && m'.remaining == m.remaining
    {
      hide WebSocketFrames.BuildHeader;
    }

    /** The machine that has seen the first two bytes of a frame. */
    static function Begun(m: Machine, header: nat): Machine {
      var m1 := m.(miniHeader := header, hasMask := IsMasked(header));
      if header % 128 == 127 then m1.(state := Len64)
      else if header % 128 == 126 then m1.(state := Len16)
      else m1.(remaining := header % 128, state := Mask)
    }

    static lemma BegunIsRead(m: Machine, data: Bytes)
      requires m.state.MiniHeader? && 1 <= |data| <= 2
      ensures WebSocketFrames.OnRead(m, data)
              == Asked(Begun(m, data[0] as int * 256 + if |data| == 2 then data[1] else 0))
    {
      hide IsMasked, AskMask;
    }

    /** The header starts as zero, so a byte that has not come is zero. */
    method OnMiniHeader(data: Bytes)
      requires Valid() && state.MiniHeader? && 1 <= |data| <= 2
      modifies this
      ensures Valid() && View() == WebSocketFrames.OnRead(old(View()), data)
    {
      BegunIsRead(View(), data);
      hide *;
      Begin(data[0] as int * 256 + if |data| == 2 then data[1] else 0);
      DoRead();
    }

    method Begin(header: nat)
      requires Valid() && state.MiniHeader?
      modifies `miniHeader, `hasMask, `remainingLength, `state
      ensures Valid() && !state.Closed? && View() == Begun(old(View()), header)
    {
      hide IsMasked;
      miniHeader := header;
      hasMask := IsMasked(miniHeader);
      if miniHeader % 128 == 127 {
        state := Len64;
      } else if miniHeader % 128 == 126 {
        state := Len16;
      } else {
        remainingLength := miniHeader % 128;
        state := Mask;
      }
    }

    method OnLength(data: Bytes)
      requires Valid() && (if state.Len16? then |data| == 2 else state.Len64? && |data| == 8)
      modifies this
      ensures Valid() && View() == WebSocketFrames.OnRead(old(View()), data)
    {
      NumberBelow(data);
      Powers();
      hide AskMask;
      remainingLength := Number(data);
      state := Mask;
      DoRead();
    }

    method OnMask(data: Bytes)
      requires Valid() && state.Mask? && |data| == 4
      modifies this
      ensures Valid() && View() == WebSocketFrames.OnRead(old(View()), data)
    {
      hide AskPayload;
      mask := data;
      state := Payload;
      DoRead();
    }

    method OnPayload(data: Bytes)
      requires Valid() && state.Payload? && Admissible(View(), data)
      modifies this
      ensures Valid() && View() == WebSocketFrames.OnRead(old(View()), data)
    {
      hide AskPayload;
      fragment := fragment + data;
      remainingLength := remainingLength - |data|;
      DoRead();
    }

    /** The pending read completes. */
    method OnRead(data: Bytes)
      requires Valid() && Admissible(View(), data)
      modifies this
      ensures Valid() && View() == WebSocketFrames.OnRead(old(View()), data)
    {
      hide WebSocketFrames.OnRead;
      match state {
        case MiniHeader => OnMiniHeader(data);
        case Len16 => OnLength(data);
        case Len64 => OnLength(data);
        case Mask => OnMask(data);
        case Payload => OnPayload(data);
      }
    }
  }

  lemma {:induction false} NumberBelow(bytes: Bytes)
    ensures Number(bytes) < Power256(|bytes|)
  {
    if bytes != [] { NumberBelow(bytes[..|bytes| - 1]); }
  }

  /** The reads of a whole stream complete one after the other: what the handlers get is what was sent. */
  method ReceiveAll(c: Connection, chunks: seq<Bytes>, ghost items: seq<Item>)
    requires c.Valid() && Ready(c.View()) && c.message == [] && IsWholeRun(c.View(), chunks)
    requires forall k :: 0 <= k < |items| ==> ItemFits(c.maxPayloadBytes, items[k])
    requires Concat(chunks) == WireAll(AllFrames(items))
    modifies c
    ensures c.delivered == old(c.delivered) + Messages(items)
    ensures c.written == old(c.written) + Pongs(AllControls(items))
  {
    hide WebSocketFrames.OnRead, Admissible, Ready, Concat, WireAll, AllFrames, Messages, AllControls, Pongs;
    ghost var m := c.View();
    DeliversMessages(m, chunks, items);
    var i := 0;
    while i < |chunks|
      invariant i <= |chunks| && c.Valid()
      invariant IsWholeRun(c.View(), chunks[i..]) && Run(m, chunks) == Run(c.View(), chunks[i..])
    {
      assert chunks[i..][1..] == chunks[i + 1..];
      c.OnRead(chunks[i]);
      i := i + 1;
    }
  }
}
