/** A websocket connection: the frame reader, reassembly, and the double-buffered writer. */
module WsConnection {
  import opened Common
  import opened WsFrame

  datatype ReadState = MiniHeader | ReadLen16 | ReadLen64 | Mask | ReadPayload

  const BUFFER_SIZE: nat := 4096

  const CLOSE := 8
  const PING := 9
  const PONG := 10

  // What the application is told.
  datatype Call = Message(text: seq<byte>, isBinary: bool) | CloseHandler(text: seq<byte>) | Uncleanly | ErrorHandler

  // The fields that belong to reading, to writing, and to closing.
  datatype Reader = Reader(state: ReadState, mini: nat, remaining: nat, hasMask: bool, mask: seq<byte>,
                           fragment: seq<byte>, isReading: bool)
  datatype Writer = Writer(waiting: seq<seq<byte>>, sending: seq<seq<byte>>)
  datatype Flags = Flags(sentClose: bool, recvClose: bool, closing: bool, handlerCalled: bool, pong: bool)

  datatype Conn = Conn(r: Reader, w: Writer, message: seq<byte>, isBinary: bool, flags: Flags, calls: seq<Call>)

  predicate IsFin(mini: nat) { mini / 0x8000 % 2 == 1 }

  function OpcodeOf(mini: nat): nat { mini / 0x100 % 16 }

  // Writing ----------------------------------------------------------------------

  // The form of the length that build_header chooses.
  function FormFor(n: nat): Form {
    if n < 126 then Len7 else if n < TWO16 then Len16 else Len64
  }

  // build_header: FIN is set, there is no mask.
  function Header(op: nat, n: nat): seq<byte>
    requires op < 16 && n < TWO64
  {
    Start(0x80 + op, FormFor(n), false, n)
  }

  // do_write: if no write is in flight, all that is waiting is sent.
  function Written(w: Writer): Writer {
    if w.sending == [] then Writer([], w.waiting) else w
  }

  // A header and its payload are queued.
  function Queued(w: Writer, op: nat, text: seq<byte>): Writer
    requires op < 16 && |text| < TWO64
  {
    Written(w.(waiting := w.waiting + [Header(op, |text|), text]))
  }

  function Closing(c: Conn, text: seq<byte>): Conn
    requires |text| < TWO64
  {
    var tell := c.flags.recvClose && !c.flags.handlerCalled;
    c.(flags := c.flags.(sentClose := true, handlerCalled := c.flags.handlerCalled || tell),
       calls := if tell then c.calls + [CloseHandler(text)] else c.calls,
       w := Queued(c.w, CLOSE, text))
  }

  // check_destroy, up to the deletion of the object.
  function Checked(c: Conn): Conn {
    if c.flags.handlerCalled then c else c.(calls := c.calls + [Uncleanly])
  }

  // The asynchronous write has ended.
  function WriteEnded(c: Conn, ok: bool): Conn {
    var w := c.w.(sending := []);
    if ok && !c.flags.closing then
      c.(w := if w.waiting != [] then Written(w) else w, flags := c.flags.(closing := c.flags.sentClose))
    else Checked(c.(w := w, flags := c.flags.(closing := true)))
  }

  // Reading ------------------------------------------------------------------------

  // The number of bytes that the pending read asks for.
  function Wanted(r: Reader): nat {
    match r.state
    case MiniHeader => 2
    case ReadLen16 => 2
    case ReadLen64 => 8
    case Mask => 4
    case ReadPayload => if r.remaining < BUFFER_SIZE then r.remaining else BUFFER_SIZE
  }

  // A read of the payload may bring less than it asks for, but not nothing.
  predicate CanArrive(r: Reader, bytes: seq<byte>) {
    && r.isReading
    && if r.state == ReadPayload then |bytes| <= Wanted(r) && (bytes == [] ==> Wanted(r) == 0)
       else |bytes| == Wanted(r)
  }

  // do_read: without a mask there is nothing to read in state Mask.
  function Reading(r: Reader): Reader {
    r.(isReading := true, state := if r.state == Mask && !r.hasMask then ReadPayload else r.state)
  }

  function HeaderRead(r: Reader, mini: nat): Reader {
    var d := r.(mini := mini, hasMask := mini / 0x80 % 2 == 1);
    Reading(if mini % 0x80 == 127 then d.(state := ReadLen64)
            else if mini % 0x80 == 126 then d.(state := ReadLen16)
            else d.(remaining := mini % 0x80, state := Mask))
  }

  function LengthRead(r: Reader, n: nat): Reader {
    Reading(r.(remaining := n, state := Mask))
  }

  function MaskRead(r: Reader, key: seq<byte>): Reader {
    Reading(r.(mask := key, state := ReadPayload))
  }

  // What the fragment says once it is unmasked.
  function Unmasked(r: Reader): (text: seq<byte>)
    ensures |text| == |r.fragment|
  {
    if r.hasMask && |r.mask| == 4 then Masked(r.fragment, r.mask) else r.fragment
  }

  // Part of a message; the last part completes it.
  function Joined(c: Conn, part: seq<byte>): Conn {
    var text := c.message + part;
    if IsFin(c.r.mini) then c.(message := [], calls := c.calls + [Message(text, c.isBinary)]) else c.(message := text)
  }

  // A close frame: it is answered, or ends the connection.
  function CloseRead(c: Conn, text: seq<byte>): Conn
    requires |text| < TWO64
  {
    var d := c.(flags := c.flags.(recvClose := true));
    if !d.flags.sentClose then Closing(d, text)
    else
      d.(flags := d.flags.(closing := true, handlerCalled := true),
         calls := if d.flags.handlerCalled then d.calls else d.calls + [CloseHandler(text)])
  }

  // Continuation, text and binary frames.
  function DataRead(c: Conn, op: nat, text: seq<byte>): Conn {
    Joined(if op == 0 then c else c.(isBinary := op == 2), text)
  }

  // The other frames.
  function ControlRead(c: Conn, op: nat, text: seq<byte>): Conn
    requires |text| < TWO64
  {
    if op == CLOSE then CloseRead(c, text)
    else if op == PING then c.(w := Queued(c.w, PONG, text))
    else if op == PONG then c.(flags := c.flags.(pong := true))
    else c
  }

  function FragmentRead(c: Conn): Conn
    requires |c.r.fragment| < TWO64
  {
    var text := Unmasked(c.r);
    var op := OpcodeOf(c.r.mini);
    var u := c.(r := c.r.(fragment := []));
    if op <= 2 then DataRead(u, op, text) else ControlRead(u, op, text)
  }

  // Payload bytes join the fragment.
  function Collected(r: Reader, bytes: seq<byte>): Reader
    requires |bytes| <= r.remaining
  {
    r.(isReading := false, fragment := r.fragment + bytes, remaining := r.remaining - |bytes|)
  }

  function FrameDone(c: Conn): Conn
    requires |c.r.fragment| < TWO64
  {
    var d := FragmentRead(c);
    d.(r := Reading(d.r.(state := MiniHeader)))
  }

  function PayloadRead(c: Conn, bytes: seq<byte>): Conn
    requires |bytes| <= c.r.remaining && |c.r.fragment| + c.r.remaining < TWO64
  {
    var d := c.(r := Collected(c.r, bytes));
    if d.r.remaining == 0 then FrameDone(d) else d.(r := Reading(d.r))
  }

  // Whatever read was pending has failed.
  function ReadFailed(c: Conn): Conn {
    var d := c.(r := c.r.(isReading := false), flags := c.flags.(closing := true), calls := c.calls + [ErrorHandler]);
    if c.r.state == Mask || c.r.state == ReadPayload then d else Checked(d)
  }

  // After start.
  function Begun(hello: seq<seq<byte>>, isBinary: bool): Conn {
    Conn(Reader(MiniHeader, 0, 0, false, [], [], true), Written(Writer(hello, [])), [], isBinary,
         Flags(false, false, false, false, false), [])
  }

  // The object ------------------------------------------------------------------------

  class Connection {
    var state: ReadState
    var mini: nat
    var remaining: nat
    var hasMask: bool
    var mask: seq<byte>
    var fragment: seq<byte>
    var isReading: bool
    var message: seq<byte>
    var isBinary: bool
    var hasSentClose: bool
    var hasRecvClose: bool
    var closeConnection: bool
    var closeHandlerCalled: bool
    var pongReceived: bool
    var writeBuffers: seq<seq<byte>>
    var sendingBuffers: seq<seq<byte>>
    var calls: seq<Call>

    function NowReader(): Reader
      reads this
    {
      Reader(state, mini, remaining, hasMask, mask, fragment, isReading)
    }

    function NowWriter(): Writer
      reads this
    {
      Writer(writeBuffers, sendingBuffers)
    }

    function NowFlags(): Flags
      reads this
    {
      Flags(hasSentClose, hasRecvClose, closeConnection, closeHandlerCalled, pongReceived)
    }

    function Now(): Conn
      reads this
    {
      Conn(NowReader(), NowWriter(), message, isBinary, NowFlags(), calls)
    }

    // start: the handshake's answer is written and the first read begins.
    constructor (hello: seq<seq<byte>>, isBinary: bool)
      ensures Now() == Begun(hello, isBinary)
    {
      state, mini, remaining, hasMask, mask, fragment := MiniHeader, 0, 0, false, [], [];
      message, this.isBinary := [], isBinary;
      hasSentClose, hasRecvClose, closeConnection, closeHandlerCalled, pongReceived := false, false, false, false, false;
      writeBuffers, sendingBuffers, calls := hello, [], [];
      isReading := true;
      new;
      DoWrite();
    }

    method DoWrite()
      modifies this`writeBuffers, this`sendingBuffers
      ensures NowWriter() == Written(old(NowWriter()))
    {
      if |sendingBuffers| == 0 {
        sendingBuffers, writeBuffers := writeBuffers, sendingBuffers;
      }
    }

    method BuildHeader(op: nat, n: nat) returns (h: seq<byte>)
      requires op < 16 && n < TWO64
      ensures h == Header(op, n)
    {
      var first := 0x80 + op;
      if n < 126 {
        h := [first, n];
        assert BigEndian(n, 0) == [];
      } else if n < TWO16 {
        h := [first, 126] + BigEndian(n, 2);
      } else {
        h := [first, 127] + BigEndian(n, 8);
      }
    }

    // send_text, send_binary, send_ping, send_pong
    method Send(op: nat, text: seq<byte>)
      requires op < 16 && |text| < TWO64
      modifies this`writeBuffers, this`sendingBuffers
      ensures NowWriter() == Queued(old(NowWriter()), op, text)
    {
      hide Header;
      var header := BuildHeader(op, |text|);
      writeBuffers := writeBuffers + [header];
      writeBuffers := writeBuffers + [text];
      assert writeBuffers == old(writeBuffers) + [header, text];
      DoWrite();
    }

    method Close(text: seq<byte>)
      requires |text| < TWO64
      modifies this`writeBuffers, this`sendingBuffers, this`hasSentClose, this`closeHandlerCalled, this`calls
      ensures Now() == Closing(old(Now()), text)
    {
      hide Queued;
      hasSentClose := true;
      if hasRecvClose && !closeHandlerCalled {
        closeHandlerCalled := true;
        calls := calls + [CloseHandler(text)];
      }
      Send(CLOSE, text);
    }

    method CheckDestroy()
      modifies this`calls
      ensures calls == old(Checked(Now()).calls)
    {
      if !closeHandlerCalled {
        calls := calls + [Uncleanly];
      }
    }

    method OnWritten(ok: bool)
      modifies this`sendingBuffers, this`writeBuffers, this`closeConnection, this`calls
      ensures Now() == WriteEnded(old(Now()), ok)
    {
      sendingBuffers := [];
      if ok && !closeConnection {
        if writeBuffers != [] {
          DoWrite();
        }
        if hasSentClose {
          closeConnection := true;
        }
      } else {
        closeConnection := true;
        CheckDestroy();
      }
    }

    method DoRead()
      modifies this`isReading, this`state
      ensures NowReader() == Reading(old(NowReader()))
    {
      isReading := true;
      if state == Mask && !hasMask {
        state := ReadPayload;
      }
    }

    method OnMiniHeader(bytes: seq<byte>)
      requires |bytes| == 2
      modifies this`isReading, this`state, this`mini, this`hasMask, this`remaining
      ensures NowReader() == HeaderRead(old(NowReader()), FromBigEndian(bytes))
    {
      hide FromBigEndian;
      isReading := false;
      mini := FromBigEndian(bytes);
      hasMask := mini / 0x80 % 2 == 1;
      if mini % 0x80 == 127 {
        state := ReadLen64;
      } else if mini % 0x80 == 126 {
        state := ReadLen16;
      } else {
        remaining := mini % 0x80;
        state := Mask;
      }
      DoRead();
    }

    // The two or eight bytes of a longer length.
    method OnLength(bytes: seq<byte>)
      modifies this`isReading, this`state, this`remaining
      ensures NowReader() == LengthRead(old(NowReader()), FromBigEndian(bytes))
    {
      hide FromBigEndian;
      isReading := false;
      remaining := FromBigEndian(bytes);
      state := Mask;
      DoRead();
    }

    method OnMask(bytes: seq<byte>)
      modifies this`isReading, this`state, this`mask
      ensures NowReader() == MaskRead(old(NowReader()), bytes)
    {
      isReading := false;
      mask := bytes;
      state := ReadPayload;
      DoRead();
    }

    method Collect(bytes: seq<byte>)
      requires |bytes| <= remaining
      modifies this`isReading, this`fragment, this`remaining
      ensures NowReader() == Collected(old(NowReader()), bytes)
    {
      isReading := false;
      fragment := fragment + bytes;
      remaining := remaining - |bytes|;
    }

    method OnPayload(bytes: seq<byte>)
      requires |bytes| <= remaining && |fragment| + remaining < TWO64
      requires hasMask ==> |mask| == 4
      modifies this
      ensures Now() == PayloadRead(old(Now()), bytes)
    {
      hide FrameDone, Reading;
      Collect(bytes);
      if remaining == 0 {
        FinishFrame();
      } else {
        DoRead();
      }
    }

    method FinishFrame()
      requires hasMask ==> |mask| == 4
      requires |fragment| < TWO64
      modifies this
      ensures Now() == FrameDone(old(Now()))
    {
      hide FragmentRead, Reading;
      HandleFragment();
      state := MiniHeader;
      DoRead();
    }

    method OnReadFailed()
      modifies this`isReading, this`closeConnection, this`calls
      ensures Now() == ReadFailed(old(Now()))
    {
      isReading := false;
      closeConnection := true;
      calls := calls + [ErrorHandler];
      if state != Mask && state != ReadPayload {
        CheckDestroy();
      }
    }

    // The fragment is unmasked in place.
    method Unmask()
      requires hasMask ==> |mask| == 4
      modifies this`fragment
      ensures fragment == old(Unmasked(NowReader()))
    {
      if hasMask {
        for i := 0 to |fragment|
          invariant |fragment| == |old(fragment)|
          invariant forall k :: 0 <= k < |fragment| ==>
                      fragment[k] == if k < i then Xor(old(fragment)[k], mask[k % 4]) else old(fragment)[k]
        {
          fragment := fragment[i := Xor(fragment[i], mask[i % 4])];
        }
      }
    }

    method HandleFragment()
      requires hasMask ==> |mask| == 4
      requires |fragment| < TWO64
      modifies this
      ensures Now() == FragmentRead(old(Now()))
    {
      hide Unmasked, OpcodeOf, DataRead, ControlRead;
      Unmask();
      var text := fragment;
      fragment := [];
      var op := OpcodeOf(mini);
      if op <= 2 {
        HandleData(op, text);
      } else {
        HandleControl(op, text);
      }
    }

    method HandleData(op: nat, text: seq<byte>)
      modifies this`isBinary, this`message, this`calls
      ensures Now() == DataRead(old(Now()), op, text)
    {
      hide Joined;
      if op != 0 {
        isBinary := op == 2;
      }
      JoinFragment(text);
    }

    method HandleControl(op: nat, text: seq<byte>)
      requires |text| < TWO64
      modifies this
      ensures Now() == ControlRead(old(Now()), op, text)
    {
      hide CloseRead, Queued;
      if op == CLOSE {
        HandleClose(text);
      } else if op == PING {
        Send(PONG, text);
      } else if op == PONG {
        pongReceived := true;
      }
    }

    method JoinFragment(text: seq<byte>)
      modifies this`message, this`calls
      ensures Now() == Joined(old(Now()), text)
    {
      message := message + text;
      if IsFin(mini) {
        calls := calls + [Message(message, isBinary)];
        message := [];
      }
    }

    method HandleClose(text: seq<byte>)
      requires |text| < TWO64
      modifies this
      ensures Now() == CloseRead(old(Now()), text)
    {
      hide Closing;
      hasRecvClose := true;
      if !hasSentClose {
        Close(text);
      } else {
        closeConnection := true;
        if !closeHandlerCalled {
          calls := calls + [CloseHandler(text)];
          closeHandlerCalled := true;
        }
        CheckDestroy();
      }
    }
  }
}
