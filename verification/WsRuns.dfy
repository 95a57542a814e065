/** All runs of a websocket connection: what reaches the application, and what reaches the wire. */
module WsRuns {
  import opened Common
  import opened WsFrame
  import opened WsConnection

  // What has been handed to the writer: the handshake's answer, or a frame.
  datatype Out = Hello(parts: seq<seq<byte>>) | Item(op: nat, text: seq<byte>)

  // A connection with its history: the bytes received, and of them those of the frame that is
  // being read; the frames handled; the pings answered; everything queued for writing, how
  // much of it has been taken by writes and how much is written; the bytes on the wire.
  datatype World = World(c: Conn, received: seq<byte>, current: seq<byte>, done: seq<Frame>, replies: seq<seq<byte>>,
                         queue: seq<Out>, written: nat, taken: nat, wire: seq<byte>, broken: bool)

  datatype Event = Read(bytes: seq<byte>) | ReadError | Wrote(ok: bool) | Send(op: nat, text: seq<byte>) | CloseNow(text: seq<byte>)

  predicate Legal(w: World, e: Event) {
    match e
    case Read(bytes) => CanArrive(w.c.r, bytes) && |w.c.r.fragment| + w.c.r.remaining < TWO64
    case ReadError => w.c.r.isReading
    case Wrote(_) => w.c.w.sending != []
    case Send(op, text) => (op == 1 || op == 2 || op == PING || op == PONG) && |text| < TWO64
    case CloseNow(text) => |text| < TWO64
  }

  // Bytes for the wire ---------------------------------------------------------------

  function Flat(parts: seq<seq<byte>>): seq<byte> {
    if parts == [] then [] else Flat(parts[..|parts| - 1]) + parts[|parts| - 1]
  }

  predicate ValidOut(o: Out) {
    o.Item? ==> o.op < 16 && |o.text| < TWO64
  }

  function BytesOf(o: Out): seq<byte>
    requires ValidOut(o)
  {
    match o case Hello(parts) => Flat(parts) case Item(op, text) => Header(op, |text|) + text
  }

  function OutBytes(outs: seq<Out>): seq<byte>
    requires forall o :: o in outs ==> ValidOut(o)
  {
    if outs == [] then [] else OutBytes(outs[..|outs| - 1]) + BytesOf(outs[|outs| - 1])
  }

  // Writing --------------------------------------------------------------------------

  // Something has been queued; if the writer was idle, it has taken all.
  function Noted(w: World, c: Conn, o: Out): World {
    w.(c := c, queue := w.queue + [o], taken := if w.c.w.sending == [] then |w.queue| + 1 else w.taken)
  }

  function WriteStep(w: World, ok: bool): World {
    var c := WriteEnded(w.c, ok);
    w.(c := c, written := if ok then w.taken else w.written, broken := w.broken || !ok,
       taken := if ok && !w.c.flags.closing && w.c.w.waiting != [] then |w.queue| else w.taken,
       wire := if ok && !w.broken then w.wire + Flat(w.c.w.sending) else w.wire)
  }

  // What is written, in flight and waiting is all that was queued, in order; only whole
  // frames are in each part. After a failed write nothing more is counted.
  ghost predicate SendInv(w: World) {
    && (forall o :: o in w.queue ==> ValidOut(o))
    && w.written <= w.taken <= |w.queue|
    && (!w.broken ==>
          && w.wire == OutBytes(w.queue[..w.written])
          && Flat(w.c.w.sending) == OutBytes(w.queue[w.written..w.taken])
          && Flat(w.c.w.waiting) == OutBytes(w.queue[w.taken..])
          && (w.c.w.sending == [] ==> w.written == w.taken)
          && (w.c.w.waiting == [] ==> w.taken == |w.queue|))
  }

  lemma {:induction false} FlatConcat(a: seq<seq<byte>>, b: seq<seq<byte>>)
    ensures Flat(a + b) == Flat(a) + Flat(b)
    decreases |b|
  {
    if b == [] {
      assert a + b == a;
    } else {
      var last := |b| - 1;
      assert (a + b)[..|a + b| - 1] == a + b[..last];
      FlatConcat(a, b[..last]);
    }
  }

  lemma FlatTwo(a: seq<seq<byte>>, x: seq<byte>, y: seq<byte>)
    ensures Flat(a + [x, y]) == Flat(a) + (x + y)
  {
    FlatConcat(a, [x, y]);
    assert [x, y][..1] == [x];
    assert Flat([x]) == x by { assert [x][..0] == []; }
  }

  lemma OutBytesNext(outs: seq<Out>, o: Out)
    requires (forall p :: p in outs ==> ValidOut(p)) && ValidOut(o)
    ensures OutBytes(outs + [o]) == OutBytes(outs) + BytesOf(o)
  {
    assert (outs + [o])[..|outs|] == outs;
  }

  lemma {:induction false} OutBytesConcat(a: seq<Out>, b: seq<Out>)
    requires (forall o :: o in a ==> ValidOut(o)) && (forall o :: o in b ==> ValidOut(o))
    ensures OutBytes(a + b) == OutBytes(a) + OutBytes(b)
    decreases |b|
  {
    hide BytesOf, ValidOut;
    if b == [] {
      assert a + b == a;
    } else {
      var last := |b| - 1;
      assert (a + b)[..|a + b| - 1] == a + b[..last];
      OutBytesConcat(a, b[..last]);
      assert OutBytes(a) + OutBytes(b[..last]) + BytesOf(b[last]) == OutBytes(a) + OutBytes(b);
    }
  }

  // Queueing one more frame keeps all in order.
  lemma NotedKeeps(w: World, c: Conn, op: nat, text: seq<byte>)
    requires SendInv(w) && op < 16 && |text| < TWO64 && c.w == Queued(w.c.w, op, text)
    ensures SendInv(Noted(w, c, Item(op, text)))
    ensures c.w.sending != []
  {
    hide Header, OutBytes, Flat, BytesOf;
    var o := Item(op, text);
    var v := Noted(w, c, o);
    var h := Header(op, |text|);
    assert BytesOf(o) == h + text by { ItemBytes(op, text); }
    if !w.broken {
      FlatTwo(w.c.w.waiting, h, text);
      OutBytesNext(w.queue[w.taken..], o);
      assert v.queue[..w.written] == w.queue[..w.written];
      if w.c.w.sending == [] {
        assert v.queue[w.taken..v.taken] == w.queue[w.taken..] + [o];
        assert v.queue[v.taken..] == [];
        NothingOut();
      } else {
        assert v.queue[w.written..w.taken] == w.queue[w.written..w.taken];
        assert v.queue[w.taken..] == w.queue[w.taken..] + [o];
      }
    }
  }

  lemma ItemBytes(op: nat, text: seq<byte>)
    requires op < 16 && |text| < TWO64
    ensures BytesOf(Item(op, text)) == Header(op, |text|) + text
  {
  }

  lemma NothingOut()
    ensures OutBytes([]) == [] && Flat([]) == []
  {
  }

  lemma WriteKeeps(w: World, ok: bool)
    requires SendInv(w)
    ensures SendInv(WriteStep(w, ok))
  {
    hide OutBytes, Flat, BytesOf, ValidOut;
    var v := WriteStep(w, ok);
    NothingOut();
    if !v.broken {
      assert w.queue[..w.taken] == w.queue[..w.written] + w.queue[w.written..w.taken];
      assert forall o :: o in w.queue[..w.written] ==> o in w.queue;
      assert forall o :: o in w.queue[w.written..w.taken] ==> o in w.queue;
      OutBytesConcat(w.queue[..w.written], w.queue[w.written..w.taken]);
      assert v.queue[v.written..v.taken] == if v.taken == w.taken then [] else w.queue[w.taken..];
      assert v.queue[v.taken..] == if v.taken == w.taken then w.queue[w.taken..] else [];
    }
  }

  // Reading --------------------------------------------------------------------------

  function FormOf(mini: nat): Form {
    if mini % 0x80 == 127 then Len64 else if mini % 0x80 == 126 then Len16 else Len7
  }

  // The frame that has been read.
  function FrameOf(r: Reader): Frame {
    Frame(r.mini / 0x100, FormOf(r.mini), if r.hasMask then Some(r.mask) else None, r.fragment)
  }

  // The bytes of the frame that is being read, as far as they have come.
  ghost predicate SoFar(r: Reader, current: seq<byte>) {
    && r.mini < 0x1_0000 && (r.hasMask <==> r.mini / 0x80 % 2 == 1)
    && match r.state
       case MiniHeader => current == [] && r.fragment == []
       case ReadLen16 => FormOf(r.mini) == Len16 && current == BigEndian(r.mini, 2) && r.fragment == []
       case ReadLen64 => FormOf(r.mini) == Len64 && current == BigEndian(r.mini, 2) && r.fragment == []
       case Mask =>
         && r.hasMask && r.remaining < Limit(FormOf(r.mini)) && r.fragment == []
         && current == Start(r.mini / 0x100, FormOf(r.mini), true, r.remaining)
       case ReadPayload =>
         && (r.hasMask ==> |r.mask| == 4) && |r.fragment| + r.remaining < Limit(FormOf(r.mini))
         && current == Start(r.mini / 0x100, FormOf(r.mini), r.hasMask, |r.fragment| + r.remaining)
                       + Key(FrameOf(r).mask) + r.fragment
  }

  lemma TwoBytes(mini: nat)
    requires mini < 0x1_0000
    ensures BigEndian(mini, 2) == [mini / 0x100, mini % 0x100]
  {
    assert BigEndian(mini / 0x100 / 0x100, 0) == [];
    assert BigEndian(mini / 0x100, 1) == [mini / 0x100 % 0x100];
  }

  // Section 5.2: what the first two bytes say about the start of the frame.
  lemma StartOfMini(mini: nat, n: nat)
    requires mini < 0x1_0000 && n < Limit(FormOf(mini)) && (FormOf(mini) == Len7 ==> n == mini % 0x80)
    ensures Start(mini / 0x100, FormOf(mini), mini / 0x80 % 2 == 1, n) == BigEndian(mini, 2) + LengthBytes(FormOf(mini), n)
  {
    hide BigEndian;
    TwoBytes(mini);
    assert Second(FormOf(mini), mini / 0x80 % 2 == 1, n) == mini % 0x100;
  }

  lemma MiniRead(r: Reader, bytes: seq<byte>)
    requires r.state == MiniHeader && SoFar(r, []) && |bytes| == 2
    ensures SoFar(HeaderRead(r, FromBigEndian(bytes)), bytes)
  {
    hide BigEndian, FromBigEndian, Start, Pow256;
    var mini := FromBigEndian(bytes);
    FromBigEndianRoundTrip(bytes);
    Powers();
    if FormOf(mini) == Len7 {
      StartOfMini(mini, mini % 0x80);
      assert bytes + LengthBytes(Len7, mini % 0x80) == bytes;
      var d := HeaderRead(r, mini);
      assert bytes + Key(FrameOf(d).mask) + d.fragment == bytes || d.state == Mask;
    }
  }

  lemma LengthIsRead(r: Reader, current: seq<byte>, bytes: seq<byte>)
    requires r.state == ReadLen16 || r.state == ReadLen64
    requires SoFar(r, current) && |bytes| == (if r.state == ReadLen16 then 2 else 8)
    ensures SoFar(LengthRead(r, FromBigEndian(bytes)), current + bytes)
  {
    hide BigEndian, FromBigEndian, Start, Pow256;
    var n := FromBigEndian(bytes);
    FromBigEndianRoundTrip(bytes);
    Powers();
    StartOfMini(r.mini, n);
    var d := LengthRead(r, n);
    assert d.state == ReadPayload ==> current + bytes + Key(FrameOf(d).mask) + d.fragment == current + bytes;
  }

  lemma MaskIsRead(r: Reader, current: seq<byte>, bytes: seq<byte>)
    requires r.state == Mask && SoFar(r, current) && |bytes| == 4
    ensures SoFar(MaskRead(r, bytes), current + bytes)
  {
    hide Start;
    var d := MaskRead(r, bytes);
    assert current + bytes + d.fragment == current + bytes;
  }

  lemma PayloadIsRead(r: Reader, current: seq<byte>, bytes: seq<byte>)
    requires r.state == ReadPayload && SoFar(r, current) && |bytes| <= r.remaining
    ensures SoFar(Collected(r, bytes), current + bytes)
  {
    hide Start;
    var start := Start(r.mini / 0x100, FormOf(r.mini), r.hasMask, |r.fragment| + r.remaining);
    assert start + Key(FrameOf(r).mask) + r.fragment + bytes == start + Key(FrameOf(r).mask) + (r.fragment + bytes);
  }

  // With the last byte of the payload the frame is complete.
  lemma FrameIsRead(r: Reader, current: seq<byte>)
    requires r.state == ReadPayload && SoFar(r, current) && r.remaining == 0
    ensures ValidFrame(FrameOf(r)) && Encode(FrameOf(r)) == current && Payload(FrameOf(r)) == Unmasked(r)
    ensures |r.fragment| < TWO64
  {
    hide Start;
  }

  // Steps ----------------------------------------------------------------------------

  // The frame that was being read is complete and has been handled.
  function Finished(w: World): World
    requires |w.c.r.fragment| < TWO64
  {
    var text := Unmasked(w.c.r);
    var op := OpcodeOf(w.c.r.mini);
    var c := FrameDone(w.c);
    var v := if op == PING then Noted(w, c, Item(PONG, text))
             else if op == CLOSE && !w.c.flags.sentClose then Noted(w, c, Item(CLOSE, text))
             else w.(c := c);
    v.(current := [], done := w.done + [FrameOf(w.c.r)], replies := if op == PING then w.replies + [text] else w.replies)
  }

  function ReadStep(w: World, bytes: seq<byte>): World
    requires CanArrive(w.c.r, bytes) && |w.c.r.fragment| + w.c.r.remaining < TWO64
  {
    var r := w.c.r;
    var v := w.(received := w.received + bytes, current := w.current + bytes);
    match r.state
    case MiniHeader => v.(c := w.c.(r := HeaderRead(r, FromBigEndian(bytes))))
    case ReadLen16 => v.(c := w.c.(r := LengthRead(r, FromBigEndian(bytes))))
    case ReadLen64 => v.(c := w.c.(r := LengthRead(r, FromBigEndian(bytes))))
    case Mask => v.(c := w.c.(r := MaskRead(r, bytes)))
    case ReadPayload =>
      var d := Collected(r, bytes);
      if d.remaining == 0 then Finished(v.(c := w.c.(r := d))) else v.(c := w.c.(r := Reading(d)))
  }

  // The connection changes as OnPayload changes it.
  lemma ReadStepIsPayloadRead(w: World, bytes: seq<byte>)
    requires w.c.r.state == ReadPayload && CanArrive(w.c.r, bytes) && |w.c.r.fragment| + w.c.r.remaining < TWO64
    ensures ReadStep(w, bytes).c == PayloadRead(w.c, bytes)
  {
    hide FrameDone;
  }

  function Step(w: World, e: Event): World
    requires Legal(w, e)
  {
    match e
    case Read(bytes) => ReadStep(w, bytes)
    case ReadError => w.(c := ReadFailed(w.c))
    case Wrote(ok) => WriteStep(w, ok)
    case Send(op, text) => Noted(w, w.c.(w := Queued(w.c.w, op, text)), Item(op, text))
    case CloseNow(text) => Noted(w, Closing(w.c, text), Item(CLOSE, text))
  }

  ghost predicate ReadInv(w: World) {
    && (forall f :: f in w.done ==> ValidFrame(f))
    && w.received == EncodeAll(w.done) + w.current
    && SoFar(w.c.r, w.current)
    && |w.c.r.fragment| + w.c.r.remaining < TWO64
  }

  // What the application sees -----------------------------------------------------------

  // The message in progress, the messages delivered and the pings answered.
  datatype Digest = Digest(message: seq<byte>, isBinary: bool, told: seq<Call>, replies: seq<seq<byte>>)

  function Handle(d: Digest, fin: bool, op: nat, text: seq<byte>): Digest {
    if op <= 2 then
      var b := if op == 0 then d.isBinary else op == 2;
      if fin then d.(message := [], isBinary := b, told := d.told + [Message(d.message + text, b)])
      else d.(message := d.message + text, isBinary := b)
    else if op == PING then d.(replies := d.replies + [text])
    else d
  }

  function HandleOne(d: Digest, f: Frame): Digest
    requires ValidFrame(f)
  {
    Handle(d, Fin(f.first), Opcode(f.first), Payload(f))
  }

  function Handled(d: Digest, fs: seq<Frame>): Digest
    requires forall f :: f in fs ==> ValidFrame(f)
  {
    if fs == [] then d else HandleOne(Handled(d, fs[..|fs| - 1]), fs[|fs| - 1])
  }

  // The calls of the message handler among all calls.
  function Told(calls: seq<Call>): seq<Call> {
    if calls == [] then []
    else if calls[|calls| - 1].Message? then Told(calls[..|calls| - 1]) + [calls[|calls| - 1]]
    else Told(calls[..|calls| - 1])
  }

  lemma ToldNext(calls: seq<Call>, call: Call)
    ensures Told(calls + [call]) == if call.Message? then Told(calls) + [call] else Told(calls)
  {
    assert (calls + [call])[..|calls|] == calls;
  }

  function DigestOf(w: World): Digest {
    Digest(w.c.message, w.c.isBinary, Told(w.c.calls), w.replies)
  }

  ghost predicate Inv(w: World, d: Digest) {
    SendInv(w) && ReadInv(w) && DigestOf(w) == Handled(d, w.done)
  }

  lemma HandledNext(d: Digest, fs: seq<Frame>, f: Frame)
    requires (forall g :: g in fs ==> ValidFrame(g)) && ValidFrame(f)
    ensures Handled(d, fs + [f]) == HandleOne(Handled(d, fs), f)
  {
    assert (fs + [f])[..|fs|] == fs;
  }

  // Closing and failing leave what was delivered as it is.
  lemma QuietSteps(c: Conn, ok: bool, text: seq<byte>)
    requires |text| < TWO64
    ensures var d := WriteEnded(c, ok); Told(d.calls) == Told(c.calls) && d.r == c.r && d.message == c.message && d.isBinary == c.isBinary
    ensures var d := ReadFailed(c); Told(d.calls) == Told(c.calls) && d.message == c.message && d.isBinary == c.isBinary && d.w == c.w
    ensures var d := Closing(c, text); Told(d.calls) == Told(c.calls) && d.r == c.r && d.message == c.message && d.isBinary == c.isBinary
    ensures var d := CloseRead(c, text); Told(d.calls) == Told(c.calls) && d.r == c.r && d.message == c.message && d.isBinary == c.isBinary
  {
    hide Told, Queued;
    ToldNext(c.calls, Uncleanly);
    ToldNext(c.calls, ErrorHandler);
    ToldNext(c.calls + [ErrorHandler], Uncleanly);
    ToldNext(c.calls, CloseHandler(text));
  }

  // Handling the frame that was read is what the digest says.
  lemma FragmentHandled(c: Conn, replies: seq<seq<byte>>)
    requires |c.r.fragment| < TWO64 && c.r.mini < 0x1_0000
    ensures var d := FragmentRead(c);
            var op := OpcodeOf(c.r.mini);
            var text := Unmasked(c.r);
            && Digest(d.message, d.isBinary, Told(d.calls), if op == PING then replies + [text] else replies)
               == Handle(Digest(c.message, c.isBinary, Told(c.calls), replies), IsFin(c.r.mini), op, text)
            && d.r == c.r.(fragment := [])
            && d.w == if op == PING then Queued(c.w, PONG, text)
                      else if op == CLOSE && !c.flags.sentClose then Queued(c.w, CLOSE, text) else c.w
  {
    hide Told, Queued, Unmasked, OpcodeOf, IsFin, WriteEnded, ReadFailed, Closing, CloseRead;
    var text := Unmasked(c.r);
    var op := OpcodeOf(c.r.mini);
    ToldNext(c.calls, Message(c.message + text, op == 2));
    ToldNext(c.calls, Message(c.message + text, c.isBinary));
    var u := c.(r := c.r.(fragment := []));
    QuietSteps(u, true, text);
    CloseReadWriter(u, text);
  }

  lemma CloseReadWriter(c: Conn, text: seq<byte>)
    requires |text| < TWO64
    ensures CloseRead(c, text).w == if c.flags.sentClose then c.w else Queued(c.w, CLOSE, text)
  {
    hide Queued;
  }

  lemma FinishedKeeps(w: World, d: Digest)
    requires SendInv(w) && (forall f :: f in w.done ==> ValidFrame(f)) && w.received == EncodeAll(w.done) + w.current
    requires SoFar(w.c.r, w.current) && w.c.r.state == ReadPayload && w.c.r.remaining == 0 && |w.c.r.fragment| < TWO64
    requires DigestOf(w) == Handled(d, w.done)
    ensures Inv(Finished(w), d)
  {
    hide Handled, HandleOne, Handle, EncodeAll, Encode, ValidFrame, Payload, Unmasked, FragmentRead, SendInv, Told, Queued, OpcodeOf,
         IsFin, Noted, Start, FrameOf;
    var f := FrameOf(w.c.r);
    FrameIsRead(w.c.r, w.current);
    FragmentHandled(w.c, w.replies);
    HandledNext(d, w.done, f);
    EncodeAllNext(w.done, f);
    SameNumbers(w.c.r);
    FinishedSends(w);
    NotedOnly(w);
  }

  lemma EncodeAllNext(fs: seq<Frame>, f: Frame)
    requires (forall g :: g in fs ==> ValidFrame(g)) && ValidFrame(f)
    ensures EncodeAll(fs + [f]) == EncodeAll(fs) + Encode(f)
  {
    hide Encode, ValidFrame;
    EncodeAllConcat(fs, [f]);
    assert EncodeAll([f]) == Encode(f) + EncodeAll([]);
  }

  lemma SameNumbers(r: Reader)
    requires r.mini < 0x1_0000 && ValidFrame(FrameOf(r)) && Payload(FrameOf(r)) == Unmasked(r)
    ensures forall d: Digest :: HandleOne(d, FrameOf(r)) == Handle(d, IsFin(r.mini), OpcodeOf(r.mini), Unmasked(r))
  {
    hide Handle, Unmasked, Payload;
  }

  lemma NotedOnly(w: World)
    requires |w.c.r.fragment| < TWO64
    ensures var v := Finished(w);
            && v.c == FrameDone(w.c) && v.received == w.received && v.current == [] && v.done == w.done + [FrameOf(w.c.r)]
            && v.replies == if OpcodeOf(w.c.r.mini) == PING then w.replies + [Unmasked(w.c.r)] else w.replies
  {
    hide FrameDone, Unmasked, FrameOf;
  }

  lemma FinishedSends(w: World)
    requires SendInv(w) && |w.c.r.fragment| < TWO64 && w.c.r.mini < 0x1_0000
    ensures SendInv(Finished(w))
  {
    hide Queued, Unmasked, FragmentRead, OpcodeOf, OutBytes, Flat, FrameOf;
    var text := Unmasked(w.c.r);
    var op := OpcodeOf(w.c.r.mini);
    FragmentHandled(w.c, w.replies);
    var c := FrameDone(w.c);
    if op == PING {
      NotedKeeps(w, c, PONG, text);
    } else if op == CLOSE && !w.c.flags.sentClose {
      NotedKeeps(w, c, CLOSE, text);
    }
  }

  // Runs ---------------------------------------------------------------------------------

  lemma ReadKeeps(w: World, d: Digest, bytes: seq<byte>)
    requires Inv(w, d) && Legal(w, Read(bytes))
    ensures Inv(Step(w, Read(bytes)), d)
  {
    hide SendInv, Handled, Told, EncodeAll, ValidFrame, FromBigEndian, Finished, SoFar, Start, BigEndian, Collected, FrameOf;
    var r := w.c.r;
    assert w.received + bytes == EncodeAll(w.done) + (w.current + bytes);
    SoFarFits(r, w.current);
    var v := w.(received := w.received + bytes, current := w.current + bytes);
    match r.state
    case MiniHeader =>
      assert w.current + bytes == bytes;
      MiniRead(r, bytes);
      SoFarFits(HeaderRead(r, FromBigEndian(bytes)), bytes);
      SendsSame(w, ReadStep(w, bytes));
    case ReadLen16 =>
      LengthIsRead(r, w.current, bytes);
      SoFarFits(LengthRead(r, FromBigEndian(bytes)), w.current + bytes);
      SendsSame(w, ReadStep(w, bytes));
    case ReadLen64 =>
      LengthIsRead(r, w.current, bytes);
      SoFarFits(LengthRead(r, FromBigEndian(bytes)), w.current + bytes);
      SendsSame(w, ReadStep(w, bytes));
    case Mask =>
      MaskIsRead(r, w.current, bytes);
      SoFarFits(MaskRead(r, bytes), w.current + bytes);
      SendsSame(w, ReadStep(w, bytes));
    case ReadPayload =>
      PayloadIsRead(r, w.current, bytes);
      CollectedOnly(r, bytes);
      var c := Collected(r, bytes);
      SoFarFits(c, w.current + bytes);
      SendsSame(w, v.(c := w.c.(r := c)));
      if c.remaining == 0 {
        FinishedKeeps(v.(c := w.c.(r := c)), d);
      } else {
        StillReading(c, w.current + bytes);
        SendsSame(w, ReadStep(w, bytes));
      }
  }

  lemma CollectedOnly(r: Reader, bytes: seq<byte>)
    requires |bytes| <= r.remaining && r.state == ReadPayload
    ensures Collected(r, bytes).state == r.state
    ensures |Collected(r, bytes).fragment| + Collected(r, bytes).remaining == |r.fragment| + r.remaining
  {
  }

  lemma StillReading(r: Reader, current: seq<byte>)
    requires SoFar(r, current) && r.state == ReadPayload
    ensures SoFar(Reading(r), current) && Reading(r).fragment == r.fragment && Reading(r).remaining == r.remaining
  {
    hide Start;
  }

  lemma SoFarFits(r: Reader, current: seq<byte>)
    requires SoFar(r, current)
    ensures r.state == MiniHeader ==> current == []
    ensures r.state == Mask || r.state == ReadPayload ==> |r.fragment| + r.remaining < TWO64
  {
    hide Start, BigEndian;
  }

  // Only the writer's part matters to what is sent.
  lemma SendsSame(w: World, v: World)
    requires SendInv(w) && v.c.w == w.c.w && v.queue == w.queue && v.written == w.written && v.taken == w.taken
    requires v.wire == w.wire && v.broken == w.broken
    ensures SendInv(v)
  {
    hide OutBytes, Flat;
  }

  lemma StepKeeps(w: World, d: Digest, e: Event)
    requires Inv(w, d) && Legal(w, e)
    ensures Inv(Step(w, e), d)
  {
    hide SendInv, Handled, Told, EncodeAll, ValidFrame, SoFar, WriteEnded, ReadFailed, Closing, Queued, Noted, ReadStep, WriteStep;
    match e
    case Read(bytes) => ReadKeeps(w, d, bytes);
    case ReadError =>
      QuietSteps(w.c, true, []);
      StillSoFar(w);
      SendsSame(w, Step(w, e));
    case Wrote(ok) =>
      QuietSteps(w.c, ok, []);
      WriteKeeps(w, ok);
      WriteOnly(w, ok);
    case Send(op, text) =>
      NotedKeeps(w, w.c.(w := Queued(w.c.w, op, text)), op, text);
      NoteOnly(w, w.c.(w := Queued(w.c.w, op, text)), Item(op, text));
    case CloseNow(text) =>
      QuietSteps(w.c, true, text);
      ClosingWriter(w.c, text);
      NotedKeeps(w, Closing(w.c, text), CLOSE, text);
      NoteOnly(w, Closing(w.c, text), Item(CLOSE, text));
  }

  lemma StillSoFar(w: World)
    requires ReadInv(w)
    ensures ReadInv(w.(c := ReadFailed(w.c)))
  {
    hide EncodeAll, Start, BigEndian, ValidFrame;
  }

  lemma WriteOnly(w: World, ok: bool)
    ensures var v := WriteStep(w, ok);
            && v.c == WriteEnded(w.c, ok) && v.received == w.received && v.current == w.current && v.done == w.done
            && v.replies == w.replies
  {
    hide WriteEnded;
  }

  lemma NoteOnly(w: World, c: Conn, o: Out)
    ensures var v := Noted(w, c, o);
            && v.c == c && v.received == w.received && v.current == w.current && v.done == w.done && v.replies == w.replies
  {
  }

  lemma ClosingWriter(c: Conn, text: seq<byte>)
    requires |text| < TWO64
    ensures Closing(c, text).w == Queued(c.w, CLOSE, text)
  {
    hide Queued;
  }

  predicate LegalRun(w: World, es: seq<Event>)
    decreases |es|
  {
    es == [] || (Legal(w, es[0]) && LegalRun(Step(w, es[0]), es[1..]))
  }

  function After(w: World, es: seq<Event>): World
    requires LegalRun(w, es)
    decreases |es|
  {
    if es == [] then w else After(Step(w, es[0]), es[1..])
  }

  function First(hello: seq<seq<byte>>, isBinary: bool): World {
    World(Begun(hello, isBinary), [], [], [], [], [Hello(hello)], 0, 1, [], false)
  }

  lemma {:induction false} RunKeeps(w: World, d: Digest, es: seq<Event>)
    requires Inv(w, d) && LegalRun(w, es)
    ensures Inv(After(w, es), d)
    decreases |es|
  {
    hide Inv, Step, Legal;
    if es != [] {
      StepKeeps(w, d, es[0]);
      RunKeeps(Step(w, es[0]), d, es[1..]);
    }
  }

  lemma FirstInv(hello: seq<seq<byte>>, isBinary: bool)
    requires hello != []
    ensures Inv(First(hello, isBinary), DigestOf(First(hello, isBinary)))
  {
    hide Flat;
    var w := First(hello, isBinary);
    NothingOut();
    assert w.queue[..0] == [] && w.queue[1..] == [] && w.queue[0..1] == [Hello(hello)];
    OutBytesNext([], Hello(hello));
    assert [] + [Hello(hello)] == [Hello(hello)];
    assert OutBytes([]) + Flat(hello) == Flat(hello);
  }

  // Every run of the connection keeps the bytes in order, both ways.
  lemma AllRuns(hello: seq<seq<byte>>, isBinary: bool, es: seq<Event>)
    requires hello != [] && LegalRun(First(hello, isBinary), es)
    ensures Inv(After(First(hello, isBinary), es), DigestOf(First(hello, isBinary)))
    ensures DigestOf(First(hello, isBinary)) == Digest([], isBinary, [], [])
  {
    hide Inv;
    FirstInv(hello, isBinary);
    RunKeeps(First(hello, isBinary), DigestOf(First(hello, isBinary)), es);
  }

  // In every run a read of the size asked for is possible: the next state is never undefined.
  lemma ReadsAreLegal(w: World, d: Digest, bytes: seq<byte>)
    requires Inv(w, d) && CanArrive(w.c.r, bytes)
    ensures Legal(w, Read(bytes))
  {
  }

  // Reassembly ------------------------------------------------------------------------------

  // However the bytes of some frames arrive, the frames handled are the first of them, in
  // order, and all of them once the last read has ended.
  lemma FramesArrive(w: World, d: Digest, fs: seq<Frame>, missing: seq<byte>)
    requires Inv(w, d) && (forall f :: f in fs ==> ValidFrame(f)) && w.received + missing == EncodeAll(fs)
    ensures |w.done| <= |fs| && w.done == fs[..|w.done|]
    ensures missing == [] && w.c.r.state == MiniHeader ==> w.done == fs
  {
    hide SendInv, SoFar, Encode, ValidFrame, Handled, EncodeAll;
    FramesTell(w.done, w.current, fs, missing);
    SoFarFits(w.c.r, w.current);
    if missing == [] && w.c.r.state == MiniHeader {
      assert w.current + missing == [];
      assert forall f :: f in fs[|w.done|..] ==> f in fs;
      if |w.done| < |fs| {
        SomeBytes(fs[|w.done|..]);
      }
      assert fs[..|fs|] == fs;
    }
  }

  lemma SomeBytes(fs: seq<Frame>)
    requires fs != [] && forall f :: f in fs ==> ValidFrame(f)
    ensures EncodeAll(fs) != []
  {
    EncodeNotEmpty(fs[0]);
  }

  predicate IsData(f: Frame) { Opcode(f.first) <= 2 }

  function DataOf(fs: seq<Frame>): seq<Frame> {
    if fs == [] then []
    else if IsData(fs[|fs| - 1]) then DataOf(fs[..|fs| - 1]) + [fs[|fs| - 1]] else DataOf(fs[..|fs| - 1])
  }

  function Pings(fs: seq<Frame>): seq<seq<byte>>
    requires forall f :: f in fs ==> ValidFrame(f)
  {
    if fs == [] then []
    else if Opcode(fs[|fs| - 1].first) == PING then Pings(fs[..|fs| - 1]) + [Payload(fs[|fs| - 1])]
    else Pings(fs[..|fs| - 1])
  }

  // A message in parts, each of which is one frame; section 5.4.
  datatype Msg = Msg(isBinary: bool, parts: seq<seq<byte>>)

  ghost predicate Carries(fs: seq<Frame>, m: Msg) {
    && |fs| == |m.parts| > 0
    && forall i :: 0 <= i < |fs| ==>
         && ValidFrame(fs[i]) && Payload(fs[i]) == m.parts[i]
         && Opcode(fs[i].first) == (if i > 0 then 0 else if m.isBinary then 2 else 1)
         && (Fin(fs[i].first) <==> i == |fs| - 1)
  }

  function Groups(gs: seq<seq<Frame>>): seq<Frame> {
    if gs == [] then [] else Groups(gs[..|gs| - 1]) + gs[|gs| - 1]
  }

  function Delivered(ms: seq<Msg>): seq<Call> {
    if ms == [] then [] else Delivered(ms[..|ms| - 1]) + [Message(Flat(ms[|ms| - 1].parts), ms[|ms| - 1].isBinary)]
  }

  ghost predicate SameText(d: Digest, e: Digest) {
    d.message == e.message && d.isBinary == e.isBinary && d.told == e.told
  }

  // Frames that are no data do not matter to messages.
  lemma {:induction false} OnlyDataMatters(d: Digest, fs: seq<Frame>)
    requires forall f :: f in fs ==> ValidFrame(f)
    ensures (forall f :: f in DataOf(fs) ==> ValidFrame(f)) && SameText(Handled(d, fs), Handled(d, DataOf(fs)))
    decreases |fs|
  {
    hide ValidFrame, HandleOne, IsData;
    if fs != [] {
      var init := fs[..|fs| - 1];
      var f := fs[|fs| - 1];
      OnlyDataMatters(d, init);
      if IsData(f) {
        HandledNext(d, DataOf(init), f);
      }
      SameStep(Handled(d, init), Handled(d, DataOf(init)), f);
    }
  }

  lemma SameStep(d: Digest, e: Digest, f: Frame)
    requires ValidFrame(f) && SameText(d, e)
    ensures if IsData(f) then SameText(HandleOne(d, f), HandleOne(e, f)) else SameText(HandleOne(d, f), e)
  {
    hide ValidFrame, Payload;
  }

  // The pings answered are those among the frames.
  lemma {:induction false} PingsAnswered(d: Digest, fs: seq<Frame>)
    requires forall f :: f in fs ==> ValidFrame(f)
    ensures Handled(d, fs).replies == d.replies + Pings(fs)
    decreases |fs|
  {
    hide ValidFrame, Payload;
    if fs == [] {
      assert d.replies + [] == d.replies;
    } else {
      var init := fs[..|fs| - 1];
      var f := fs[|fs| - 1];
      PingsAnswered(d, init);
      if Opcode(f.first) == PING {
        assert d.replies + (Pings(init) + [Payload(f)]) == d.replies + Pings(init) + [Payload(f)];
      }
    }
  }

  // One more frame of a message.
  lemma PartJoins(d: Digest, e: Digest, f: Frame, m: Msg, k: nat)
    requires 0 < k <= |m.parts| && d.message == [] && ValidFrame(f) && Payload(f) == m.parts[k - 1]
    requires Opcode(f.first) == (if k > 1 then 0 else if m.isBinary then 2 else 1) && (Fin(f.first) <==> k == |m.parts|)
    requires SameText(e, if k == 1 then d else d.(message := Flat(m.parts[..k - 1]), isBinary := m.isBinary))
    ensures SameText(HandleOne(e, f),
                     if k < |m.parts| then d.(message := Flat(m.parts[..k]), isBinary := m.isBinary)
                     else d.(isBinary := m.isBinary, told := d.told + [Message(Flat(m.parts), m.isBinary)]))
  {
    hide ValidFrame, Payload, Flat;
    FlatPart(m.parts, k);
    assert m.parts[..|m.parts|] == m.parts;
    assert [] + m.parts[0] == m.parts[0];
  }

  lemma FlatPart(parts: seq<seq<byte>>, k: nat)
    requires 0 < k <= |parts|
    ensures Flat(parts[..k]) == if k == 1 then parts[0] else Flat(parts[..k - 1]) + parts[k - 1]
  {
    assert parts[..k][..k - 1] == parts[..k - 1];
    if k == 1 {
      assert Flat([]) + parts[0] == parts[0];
    }
  }

  // The first k frames of a message.
  lemma {:induction false} PartsJoin(d: Digest, fs: seq<Frame>, m: Msg, k: nat)
    requires Carries(fs, m) && 0 < k <= |fs| && d.message == []
    ensures forall f :: f in fs[..k] ==> ValidFrame(f)
    ensures SameText(Handled(d, fs[..k]),
                     if k < |fs| then d.(message := Flat(m.parts[..k]), isBinary := m.isBinary)
                     else d.(isBinary := m.isBinary, told := d.told + [Message(Flat(m.parts), m.isBinary)]))
    decreases k
  {
    hide ValidFrame, Payload, Flat, HandleOne;
    var f := fs[k - 1];
    assert forall g :: g in fs[..k] ==> exists i :: 0 <= i < k && fs[i] == g;
    assert fs[..k] == fs[..k - 1] + [f];
    if k == 1 {
      assert fs[..0] == [];
    } else {
      PartsJoin(d, fs, m, k - 1);
    }
    HandledNext(d, fs[..k - 1], f);
    PartJoins(d, Handled(d, fs[..k - 1]), f, m, k);
  }

  lemma {:induction false} HandledConcat(d: Digest, fs: seq<Frame>, gs: seq<Frame>)
    requires (forall f :: f in fs ==> ValidFrame(f)) && (forall g :: g in gs ==> ValidFrame(g))
    ensures Handled(d, fs + gs) == Handled(Handled(d, fs), gs)
    decreases |gs|
  {
    hide HandleOne, ValidFrame;
    if gs == [] {
      assert fs + gs == fs;
    } else {
      var last := |gs| - 1;
      assert (fs + gs)[..|fs + gs| - 1] == fs + gs[..last];
      HandledConcat(d, fs, gs[..last]);
    }
  }

  // A whole message is delivered.
  lemma MessageJoins(d: Digest, fs: seq<Frame>, m: Msg)
    requires Carries(fs, m) && d.message == []
    ensures forall f :: f in fs ==> ValidFrame(f)
    ensures Handled(d, fs).message == [] && Handled(d, fs).told == d.told + [Message(Flat(m.parts), m.isBinary)]
  {
    hide ValidFrame, Flat, Handled;
    assert |fs| > 0;
    PartsJoin(d, fs, m, |fs|);
    assert fs[..|fs|] == fs;
  }

  lemma GroupsValid(gs: seq<seq<Frame>>, ms: seq<Msg>)
    requires |gs| == |ms| && forall i :: 0 <= i < |gs| ==> Carries(gs[i], ms[i])
    ensures forall f :: f in Groups(gs) ==> ValidFrame(f)
    decreases |gs|
  {
    hide ValidFrame;
    if gs != [] {
      var last := |gs| - 1;
      GroupsValid(gs[..last], ms[..last]);
      assert Carries(gs[last], ms[last]);
      assert forall f :: f in gs[last] ==> exists i :: 0 <= i < |gs[last]| && gs[last][i] == f;
    }
  }

  // Whole messages are delivered one by one.
  lemma {:induction false} GroupsJoin(d: Digest, gs: seq<seq<Frame>>, ms: seq<Msg>)
    requires |gs| == |ms| && (forall i :: 0 <= i < |gs| ==> Carries(gs[i], ms[i])) && d.message == []
    ensures forall f :: f in Groups(gs) ==> ValidFrame(f)
    ensures Handled(d, Groups(gs)).message == [] && Handled(d, Groups(gs)).told == d.told + Delivered(ms)
    decreases |gs|
  {
    hide ValidFrame, Flat, HandleOne, Carries;
    GroupsValid(gs, ms);
    if gs == [] {
      assert d.told + [] == d.told;
    } else {
      var last := |gs| - 1;
      GroupsJoin(d, gs[..last], ms[..last]);
      var e := Handled(d, Groups(gs[..last]));
      MessageJoins(e, gs[last], ms[last]);
      HandledConcat(d, Groups(gs[..last]), gs[last]);
      assert d.told + Delivered(ms[..last]) + [Message(Flat(ms[last].parts), ms[last].isBinary)] == d.told + Delivered(ms);
    }
  }

  // What is queued ------------------------------------------------------------------------------

  ghost predicate IsItem(o: Out) {
    o.Item? && ValidOut(o) && o.op != 0
  }

  // Only frames are queued after the handshake's answer.
  lemma StepQueues(w: World, e: Event)
    requires Legal(w, e)
    ensures var q := Step(w, e).queue; q == w.queue || (|q| == |w.queue| + 1 && q[..|w.queue|] == w.queue && IsItem(q[|w.queue|]))
  {
    hide Queued, Closing, FrameDone, WriteEnded, ReadFailed, HeaderRead, LengthRead, MaskRead, FromBigEndian, OpcodeOf;
  }

  lemma {:induction false} RunQueues(w: World, es: seq<Event>)
    requires LegalRun(w, es)
    ensures var q := After(w, es).queue;
            |w.queue| <= |q| && q[..|w.queue|] == w.queue && forall i :: |w.queue| <= i < |q| ==> IsItem(q[i])
    decreases |es|
  {
    hide Step, Legal, IsItem;
    if es != [] {
      StepQueues(w, es[0]);
      var v := Step(w, es[0]);
      RunQueues(v, es[1..]);
      var q := After(v, es[1..]).queue;
      assert q[..|w.queue|] == q[..|v.queue|][..|w.queue|];
      assert |v.queue| > |w.queue| ==> q[|w.queue|] == q[..|v.queue|][|w.queue|];
    }
  }

  // The items that a step appends to the queue.
  ghost function Queues(w: World, e: Event): seq<Out>
    requires Legal(w, e)
  {
    var q := Step(w, e).queue;
    if |w.queue| <= |q| then q[|w.queue|..] else []
  }

  // The texts of the pongs among some items.
  function PongTexts(outs: seq<Out>): seq<seq<byte>> {
    if outs == [] then []
    else
      var o := outs[|outs| - 1];
      if o.Item? && o.op == PONG then PongTexts(outs[..|outs| - 1]) + [o.text] else PongTexts(outs[..|outs| - 1])
  }

  // The texts of the pongs that the reads of a run append to the queue.
  ghost function ReadPongs(w: World, es: seq<Event>): seq<seq<byte>>
    requires LegalRun(w, es)
    decreases |es|
  {
    if es == [] then []
    else (if es[0].Read? then PongTexts(Queues(w, es[0])) else []) + ReadPongs(Step(w, es[0]), es[1..])
  }

  // What a step appends, and the pings that it answers.
  lemma StepAppends(w: World, e: Event)
    requires Legal(w, e)
    ensures Step(w, e).queue == w.queue + Queues(w, e)
    ensures Step(w, e).replies == w.replies + if e.Read? then PongTexts(Queues(w, e)) else []
    ensures match e
            case Read(_) => Queues(w, e) == [] || exists o :: Queues(w, e) == [o] && o.Item? && (o.op == PONG || o.op == CLOSE)
            case Send(op, text) => Queues(w, e) == [Item(op, text)]
            case CloseNow(text) => Queues(w, e) == [Item(CLOSE, text)]
            case _ => Queues(w, e) == []
  {
    hide Queued, Closing, FrameDone, WriteEnded, ReadFailed, HeaderRead, LengthRead, MaskRead, FromBigEndian, OpcodeOf;
    var q := Queues(w, e);
    assert w.queue + [] == w.queue && w.replies + [] == w.replies;
    if |q| == 1 {
      assert q[..0] == [];
      assert PongTexts(q) == if q[0].Item? && q[0].op == PONG then PongTexts([]) + [q[0].text] else PongTexts([]);
      assert q == [q[0]];
    }
  }

  lemma {:induction false} PongsConcat(a: seq<Out>, b: seq<Out>)
    ensures PongTexts(a + b) == PongTexts(a) + PongTexts(b)
    decreases |b|
  {
    if b == [] {
      assert a + b == a;
    } else {
      assert (a + b)[..|a + b| - 1] == a + b[..|b| - 1];
      PongsConcat(a, b[..|b| - 1]);
    }
  }

  // The pings answered are the pongs that reads have queued.
  lemma {:induction false} RepliesAreQueued(w: World, es: seq<Event>)
    requires LegalRun(w, es)
    ensures After(w, es).replies == w.replies + ReadPongs(w, es)
    decreases |es|
  {
    hide Step, Legal, Queues, PongTexts;
    if es != [] {
      StepAppends(w, es[0]);
      RepliesAreQueued(Step(w, es[0]), es[1..]);
    }
  }

  ghost predicate NoOwnPongs(es: seq<Event>) {
    forall e :: e in es && e.Send? ==> e.op != PONG
  }

  // Without pongs of the application's own, those are all the pongs in the queue.
  lemma {:induction false} AllPongs(w: World, es: seq<Event>)
    requires LegalRun(w, es) && NoOwnPongs(es)
    ensures PongTexts(After(w, es).queue) == PongTexts(w.queue) + ReadPongs(w, es)
    decreases |es|
  {
    hide Step, Legal, Queues, PongTexts;
    if es == [] {
      assert PongTexts(w.queue) + [] == PongTexts(w.queue);
    } else {
      StepAppends(w, es[0]);
      PongsConcat(w.queue, Queues(w, es[0]));
      NoPong(w, es[0]);
      AllPongs(Step(w, es[0]), es[1..]);
      var p := if es[0].Read? then PongTexts(Queues(w, es[0])) else [];
      assert PongTexts(w.queue) + p + ReadPongs(Step(w, es[0]), es[1..]) == PongTexts(w.queue) + ReadPongs(w, es);
    }
  }

  lemma NoPong(w: World, e: Event)
    requires Legal(w, e) && (e.Send? ==> e.op != PONG)
    ensures !e.Read? ==> PongTexts(Queues(w, e)) == []
  {
    hide Step, Legal, Queues;
    StepAppends(w, e);
    if !e.Read? && Queues(w, e) != [] {
      assert Queues(w, e)[..0] == [];
    }
  }

  // Messages cut into any fragments, masked or not, with other frames between them, and
  // read in any pieces: each is delivered once, in order, with its bytes and its kind, and
  // for each ping one pong with its text is queued, in order.
  lemma Reassembly(hello: seq<seq<byte>>, isBinary: bool, es: seq<Event>, fs: seq<Frame>, gs: seq<seq<Frame>>, ms: seq<Msg>)
    requires hello != [] && LegalRun(First(hello, isBinary), es)
    requires forall f :: f in fs ==> ValidFrame(f)
    requires |gs| == |ms| && (forall i :: 0 <= i < |gs| ==> Carries(gs[i], ms[i])) && DataOf(fs) == Groups(gs)
    requires var w := After(First(hello, isBinary), es); w.received == EncodeAll(fs) && w.c.r.state == MiniHeader
    ensures var w := After(First(hello, isBinary), es);
            && Told(w.c.calls) == Delivered(ms) && w.c.message == []
            && ReadPongs(First(hello, isBinary), es) == Pings(fs)
            && (NoOwnPongs(es) ==> PongTexts(w.queue) == Pings(fs))
  {
    hide Inv, Encode, EncodeAll, ValidFrame, Handled, HandleOne, Told, Delivered, Carries, Pings, Begun, Flat, ReadPongs;
    var w := After(First(hello, isBinary), es);
    var d := DigestOf(First(hello, isBinary));
    AllRuns(hello, isBinary, es);
    assert w.received + [] == w.received;
    FramesArrive(w, d, fs, []);
    DigestHolds(w, d);
    OnlyDataMatters(d, fs);
    PingsAnswered(d, fs);
    GroupsJoin(d, gs, ms);
    assert [] + Delivered(ms) == Delivered(ms);
    assert [] + Pings(fs) == Pings(fs);
    RepliesAreQueued(First(hello, isBinary), es);
    if NoOwnPongs(es) {
      AllPongs(First(hello, isBinary), es);
      HelloIsNoPong(hello);
    }
  }

  lemma HelloIsNoPong(hello: seq<seq<byte>>)
    ensures PongTexts([Hello(hello)]) == []
  {
    assert [Hello(hello)][..0] == [];
  }

  lemma DigestHolds(w: World, d: Digest)
    requires Inv(w, d)
    ensures (forall f :: f in w.done ==> ValidFrame(f)) && DigestOf(w) == Handled(d, w.done)
  {
    hide SendInv, Handled, SoFar, EncodeAll;
  }

  // The send path ------------------------------------------------------------------------------

  // A frame as it is queued is one whole unmasked frame.
  function FrameFor(o: Out): Frame
    requires o.Item? && ValidOut(o)
  {
    Frame(0x80 + o.op, FormFor(|o.text|), None, o.text)
  }

  function FramesFor(outs: seq<Out>): (fs: seq<Frame>)
    requires forall o :: o in outs ==> o.Item? && ValidOut(o)
    ensures |fs| == |outs| && forall f :: f in fs ==> ValidFrame(f)
  {
    if outs == [] then [] else FramesFor(outs[..|outs| - 1]) + [FrameFor(outs[|outs| - 1])]
  }

  lemma ItemIsFrame(o: Out)
    requires o.Item? && ValidOut(o)
    ensures ValidFrame(FrameFor(o)) && Encode(FrameFor(o)) == BytesOf(o)
  {
    hide Start;
    var f := FrameFor(o);
    assert Header(o.op, |o.text|) + Key(f.mask) + o.text == Header(o.op, |o.text|) + o.text;
  }

  lemma {:induction false} QueueIsFrames(outs: seq<Out>)
    requires forall o :: o in outs ==> o.Item? && ValidOut(o)
    ensures OutBytes(outs) == EncodeAll(FramesFor(outs))
    decreases |outs|
  {
    hide Encode, BytesOf, FrameFor, ValidOut, ValidFrame;
    if outs != [] {
      var init := outs[..|outs| - 1];
      QueueIsFrames(init);
      ItemIsFrame(outs[|outs| - 1]);
      EncodeAllNext(FramesFor(init), FrameFor(outs[|outs| - 1]));
    }
  }

  // What has been written, what is in flight and what waits are all that was queued, in
  // order. What is on the wire is the handshake's answer and then whole frames: every header
  // next to its payload.
  lemma WireInOrder(hello: seq<seq<byte>>, isBinary: bool, es: seq<Event>)
    requires hello != [] && LegalRun(First(hello, isBinary), es) && !After(First(hello, isBinary), es).broken
    ensures var w := After(First(hello, isBinary), es);
            && (forall o :: o in w.queue ==> ValidOut(o))
            && w.wire + Flat(w.c.w.sending) + Flat(w.c.w.waiting) == OutBytes(w.queue)
            && w.written <= |w.queue| && w.wire == OutBytes(w.queue[..w.written])
  {
    hide OutBytes, Flat, ValidOut, First;
    AllRuns(hello, isBinary, es);
    var w := After(First(hello, isBinary), es);
    assert w.queue[..w.taken] == w.queue[..w.written] + w.queue[w.written..w.taken];
    assert w.queue == w.queue[..w.taken] + w.queue[w.taken..];
    assert forall o :: o in w.queue[..w.written] ==> o in w.queue;
    assert forall o :: o in w.queue[w.written..w.taken] ==> o in w.queue;
    assert forall o :: o in w.queue[w.taken..] ==> o in w.queue;
    assert forall o :: o in w.queue[..w.taken] ==> o in w.queue;
    OutBytesConcat(w.queue[..w.written], w.queue[w.written..w.taken]);
    OutBytesConcat(w.queue[..w.taken], w.queue[w.taken..]);
  }

  // Two successful writes after it was queued, everything is on the wire: also what was
  // queued before a close frame, and the close frame itself.
  lemma TwoWritesFlush(w: World, d: Digest)
    requires Inv(w, d) && !w.broken && !w.c.flags.closing && w.c.w.sending != []
    ensures var v := WriteStep(w, true);
            var u := if v.c.w.sending == [] then v else WriteStep(v, true);
            && u.wire == OutBytes(w.queue) && !u.broken
  {
    hide OutBytes, Flat, ReadInv, Handled, Told;
    var v := WriteStep(w, true);
    WriteKeeps(w, true);
    WriteKeeps(v, true);
    assert w.queue[..|w.queue|] == w.queue;
  }

  // The reader's states take a header that build_header made apart again.
  lemma HeaderIsRead(r: Reader, op: nat, n: nat)
    requires r.state == MiniHeader && SoFar(r, []) && op < 16 && n < TWO64
    ensures var h := Header(op, n);
            var s := HeaderRead(r, FromBigEndian(h[..2]));
            var t := if s.state == ReadPayload then s else LengthRead(s, FromBigEndian(h[2..]));
            && (s.state == ReadPayload <==> |h| == 2) && (s.state == ReadLen16 <==> |h| == 4) && (s.state == ReadLen64 <==> |h| == 10)
            && t.state == ReadPayload && t.remaining == n && !t.hasMask
            && IsFin(t.mini) && OpcodeOf(t.mini) == op
  {
    hide BigEndian, FromBigEndian, Pow256;
    Powers();
    var form := FormFor(n);
    var h := Header(op, n);
    var mini := (0x80 + op) * 0x100 + Second(form, false, n);
    SecondTells(form, false, n);
    TwoBytes(mini);
    assert h[..2] == BigEndian(mini, 2);
    assert h[2..] == LengthBytes(form, n);
    BigEndianRoundTrip(mini, 2);
    if form == Len16 {
      BigEndianRoundTrip(n, 2);
    } else if form == Len64 {
      BigEndianRoundTrip(n, 8);
    }
  }

  // Two ends ---------------------------------------------------------------------------------

  function Texts(outs: seq<Out>): seq<Call>
    requires forall o :: o in outs ==> o.Item? && ValidOut(o)
  {
    if outs == [] then []
    else
      var o := outs[|outs| - 1];
      if o.op == 1 || o.op == 2 then Texts(outs[..|outs| - 1]) + [Message(o.text, o.op == 2)] else Texts(outs[..|outs| - 1])
  }

  lemma {:induction false} SentFramesTell(d: Digest, outs: seq<Out>)
    requires forall o :: o in outs ==> o.Item? && ValidOut(o) && o.op != 0
    requires d.message == []
    ensures Handled(d, FramesFor(outs)).message == []
    ensures Handled(d, FramesFor(outs)).told == d.told + Texts(outs)
    decreases |outs|
  {
    hide Encode, EncodeAll, ValidFrame, ValidOut, HandleOne, FrameFor;
    if outs == [] {
      assert d.told + [] == d.told;
    } else {
      var init := outs[..|outs| - 1];
      var o := outs[|outs| - 1];
      SentFramesTell(d, init);
      OneFrame(o, Handled(d, FramesFor(init)));
      HandledNext(d, FramesFor(init), FrameFor(o));
      assert d.told + (Texts(init) + [Message(o.text, o.op == 2)]) == d.told + Texts(init) + [Message(o.text, o.op == 2)];
    }
  }

  lemma OneFrame(o: Out, d: Digest)
    requires o.Item? && ValidOut(o) && o.op != 0 && d.message == []
    ensures ValidFrame(FrameFor(o))
    ensures var e := HandleOne(d, FrameFor(o));
            && e.message == []
            && e.told == if o.op == 1 || o.op == 2 then d.told + [Message(o.text, o.op == 2)] else d.told
  {
    assert [] + o.text == o.text;
  }

  // The frames on the wire behind the handshake's answer.
  lemma WireFrames(hello: seq<seq<byte>>, b: bool, es: seq<Event>, received: seq<byte>)
    requires hello != [] && LegalRun(First(hello, b), es)
    requires var w := After(First(hello, b), es); !w.broken && 0 < w.written && w.wire == Flat(hello) + received
    ensures var w := After(First(hello, b), es);
            && w.written <= |w.queue|
            && (forall o :: o in w.queue[1..w.written] ==> IsItem(o))
            && received == EncodeAll(FramesFor(w.queue[1..w.written]))
  {
    hide Inv, EncodeAll, OutBytes, Flat, FramesFor, ValidOut, Begun;
    var w := After(First(hello, b), es);
    WireInOrder(hello, b, es);
    RunQueues(First(hello, b), es);
    var outs := w.queue[1..w.written];
    assert w.queue[..1][0] == w.queue[0] == Hello(hello);
    assert forall o :: o in outs ==> exists i :: 0 < i < |w.queue| && w.queue[i] == o;
    assert w.queue[..w.written] == [Hello(hello)] + outs;
    HelloBytes(hello);
    OutBytesConcat([Hello(hello)], outs);
    SamePrefix(Flat(hello), received, Flat(hello), OutBytes(outs));
    QueueIsFrames(outs);
  }

  // The texts that the application sends.
  function Sent(es: seq<Event>): seq<Call> {
    if es == [] then []
    else (if es[0].Send? && (es[0].op == 1 || es[0].op == 2) then [Message(es[0].text, es[0].op == 2)] else []) + Sent(es[1..])
  }

  lemma {:induction false} TextsConcat(a: seq<Out>, b: seq<Out>)
    requires forall o :: o in a + b ==> o.Item? && ValidOut(o)
    ensures (forall o :: o in a ==> o.Item? && ValidOut(o)) && (forall o :: o in b ==> o.Item? && ValidOut(o))
    ensures Texts(a + b) == Texts(a) + Texts(b)
    decreases |b|
  {
    assert forall o :: o in a ==> o in a + b;
    assert forall o :: o in b ==> o in a + b;
    if b == [] {
      assert a + b == a;
    } else {
      assert (a + b)[..|a + b| - 1] == a + b[..|b| - 1];
      TextsConcat(a, b[..|b| - 1]);
    }
  }

  // What a run has queued.
  ghost function NewItems(w: World, es: seq<Event>): seq<Out>
    requires LegalRun(w, es)
  {
    var q := After(w, es).queue;
    if |w.queue| <= |q| then q[|w.queue|..] else []
  }

  lemma ItemsQueued(w: World, es: seq<Event>)
    requires LegalRun(w, es)
    ensures After(w, es).queue == w.queue + NewItems(w, es) && forall o :: o in NewItems(w, es) ==> IsItem(o)
  {
    hide After, IsItem;
    RunQueues(w, es);
    var q := After(w, es).queue;
    assert q == q[..|w.queue|] + q[|w.queue|..];
  }

  lemma NewItemsNext(w: World, es: seq<Event>)
    requires LegalRun(w, es) && es != []
    ensures NewItems(w, es) == Queues(w, es[0]) + NewItems(Step(w, es[0]), es[1..])
  {
    hide Step, Legal, Queues, NewItems, IsItem;
    StepAppends(w, es[0]);
    ItemsQueued(w, es);
    ItemsQueued(Step(w, es[0]), es[1..]);
    var x, y, z := w.queue, Queues(w, es[0]), NewItems(Step(w, es[0]), es[1..]);
    assert x + NewItems(w, es) == x + y + z == x + (y + z);
    assert (x + NewItems(w, es))[|x|..] == NewItems(w, es) && (x + (y + z))[|x|..] == y + z;
  }

  // The texts in the queue are those that were sent.
  lemma {:induction false} SentIsQueued(w: World, es: seq<Event>)
    requires LegalRun(w, es)
    ensures forall o :: o in NewItems(w, es) ==> o.Item? && ValidOut(o) && IsItem(o)
    ensures Texts(NewItems(w, es)) == Sent(es)
    decreases |es|
  {
    ItemsQueued(w, es);
    if es == [] {
      assert NewItems(w, es) == [];
    } else {
      SentNext(w, es);
    }
  }

  lemma {:induction false} SentNext(w: World, es: seq<Event>)
    requires LegalRun(w, es) && es != []
    ensures forall o :: o in NewItems(w, es) ==> o.Item? && ValidOut(o) && IsItem(o)
    ensures Texts(NewItems(w, es)) == Sent(es)
    decreases |es|, 0
  {
    hide Step, Legal, Queues, Texts, NewItems;
    var v := Step(w, es[0]);
    SentIsQueued(v, es[1..]);
    StepTexts(w, es[0]);
    NewItemsNext(w, es);
    TextsJoin(NewItems(w, es), Queues(w, es[0]), NewItems(v, es[1..]));
    assert [es[0]][1..] == [];
    assert Sent([es[0]]) + Sent(es[1..]) == Sent(es);
  }

  lemma TextsJoin(all: seq<Out>, a: seq<Out>, b: seq<Out>)
    requires all == a + b && (forall o :: o in a ==> IsItem(o)) && (forall o :: o in b ==> IsItem(o))
    ensures forall o :: o in all ==> o.Item? && ValidOut(o) && IsItem(o)
    ensures Texts(all) == Texts(a) + Texts(b)
  {
    hide Texts;
    TextsConcat(a, b);
  }

  lemma StepTexts(w: World, e: Event)
    requires Legal(w, e)
    ensures forall o :: o in Queues(w, e) ==> IsItem(o)
    ensures Texts(Queues(w, e)) == Sent([e])
  {
    hide Step, Queues;
    StepAppends(w, e);
    StepQueues(w, e);
    var q := Queues(w, e);
    assert [e][1..] == [];
    if |q| == 1 {
      assert q[..0] == [] && q == [q[0]];
      assert (w.queue + q)[|w.queue|] == q[0];
    }
  }

  // What one end sends arrives at the other: if a connection has received exactly the frames
  // that another has written after its handshake, the messages it delivers are the texts
  // sent, each once, in order, whatever the sizes of writes and reads; only those that have
  // not been written are missing.
  lemma EndToEnd(hello: seq<seq<byte>>, b: bool, es: seq<Event>, hello': seq<seq<byte>>, b': bool, es': seq<Event>)
    requires hello != [] && LegalRun(First(hello, b), es) && hello' != [] && LegalRun(First(hello', b'), es')
    requires var w := After(First(hello, b), es);
             !w.broken && 0 < w.written && w.wire == Flat(hello) + After(First(hello', b'), es').received
    requires After(First(hello', b'), es').c.r.state == MiniHeader
    ensures var w := After(First(hello, b), es);
            && w.written <= |w.queue| && (forall o :: o in w.queue[1..w.written] ==> IsItem(o))
            && (forall o :: o in w.queue[w.written..] ==> IsItem(o))
            && Told(After(First(hello', b'), es').c.calls) == Texts(w.queue[1..w.written])
            && Told(After(First(hello', b'), es').c.calls) + Texts(w.queue[w.written..]) == Sent(es)
  {
    hide Begun, Inv, EncodeAll, Flat, Texts, FramesFor, Told, ValidOut, ValidFrame, Handled;
    var v := After(First(hello', b'), es');
    WireFrames(hello, b, es, v.received);
    var w := After(First(hello, b), es);
    var outs := w.queue[1..w.written];
    AllRuns(hello', b', es');
    var d := DigestOf(First(hello', b'));
    assert v.received + [] == v.received;
    FramesArrive(v, d, FramesFor(outs), []);
    DigestHolds(v, d);
    SentFramesTell(d, outs);
    assert [] + Texts(outs) == Texts(outs);
    SentIsQueued(First(hello, b), es);
    assert NewItems(First(hello, b), es) == w.queue[1..] == outs + w.queue[w.written..];
    TextsConcat(outs, w.queue[w.written..]);
  }

  lemma HelloBytes(hello: seq<seq<byte>>)
    ensures ValidOut(Hello(hello)) && OutBytes([Hello(hello)]) == Flat(hello)
  {
    hide Flat;
    assert [Hello(hello)][..0] == [];
    assert OutBytes([]) + Flat(hello) == Flat(hello);
  }
}
