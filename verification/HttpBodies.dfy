/** Message bodies: lengths are exact, bodies arrive whole, and the message completes once. */
module HttpBodies {
  import opened Common
  import opened HttpMessage
  import opened HttpRun

  // Numbers ---------------------------------------------------------------

  predicate AllDigits(base: nat, ds: seq<byte>) {
    forall i :: 0 <= i < |ds| ==> (base == 10 && IsNum(ds[i])) || (base == 16 && 0 <= Unhex(ds[i]) && ds[i] < 128)
  }

  function Digit(b: byte): nat {
    if Unhex(b) < 0 then 0 else Unhex(b)
  }

  function Number(base: nat, ds: seq<byte>): nat {
    if ds == [] then 0 else Number(base, ds[..|ds| - 1]) * base + Digit(ds[|ds| - 1])
  }

  // The largest number that is accepted: the check is made before the last digit is added.
  const DECIMAL_LIMIT: nat := (MAX64 - 10) / 10 * 10 + 9
  const HEX_LIMIT: nat := (MAX64 - 16) / 16 * 16 + 15

  const CRLF: seq<byte> := [CR, LF]

  // More bytes of a run ----------------------------------------------------

  ghost predicate Room(nread: nat, n: nat) {
    nread + n <= MAX_HEADER_SIZE
  }

  lemma RunOnOne(cfg: Settings, r: Run, b: byte)
    ensures RunOn(cfg, r, [b]) == FeedByte(cfg, r, b)
  {
    assert [b][..0] == [];
    assert RunOn(cfg, r, []) == r;
  }

  // A byte that an arm is done with.
  lemma FeedDone(cfg: Settings, s: Parser, nread: nat, log: seq<Event>, b: byte, t: Parser, cues: seq<Cue>)
    requires Arm(cfg, s, b) == Done(t, cues) && Live(t.state) == None
    requires ParsingHeader(s.state) ==> nread < MAX_HEADER_SIZE
    requires |cues| <= 1 && !(cues != [] && cues[0].Note?)
    ensures FeedByte(cfg, Going(s, nread, log), b) ==
            Going(t, CuesCount(Counted(s.state, nread), cues), if cues == [] then log else CueLog(log, cues[0], b))
  {
    hide Arm, Append;
    if cues != [] {
      assert CuesLog(log, cues, b) == CuesLog(CueLog(log, cues[0], b), cues[1..], b);
      assert cues[1..] == [];
    }
  }

  // Content-Length ---------------------------------------------------------

  // The length read so far, in a Content-Length value.
  function Reading(s: Parser, length: nat): Parser {
    s.(state := HeaderValue, index := 0, flags := s.flags.(contentLength := true), contentLength := length,
       hstate := ContentLengthNum)
  }

  lemma FirstLengthDigit(cfg: Settings, s: Parser, nread: nat, log: seq<Event>, b: byte)
    requires s.state == HeaderValueDiscardWs && s.hstate == ContentLength && !s.flags.contentLength && IsNum(b)
    requires nread < MAX_HEADER_SIZE
    ensures FeedByte(cfg, Going(s, nread, log), b) == Going(Reading(s, Digit(b)), nread + 1, Append(log, Data(Value, [b])))
  {
    hide Append, Arm, CuesLog;
    FirstLengthArm(cfg, s, b);
    MarkedByte(log, Value, b);
  }

  lemma FirstLengthArm(cfg: Settings, s: Parser, b: byte)
    requires s.state == HeaderValueDiscardWs && s.hstate == ContentLength && !s.flags.contentLength && IsNum(b)
    ensures Arm(cfg, s, b) == Done(Reading(s, Digit(b)), [Mark(Value)])
  {
    hide Lower;
    assert Arm(cfg, s, b) == ValueStartArm(s, b);
  }

  // The mark and then the first byte of the data.
  lemma MarkedByte(log: seq<Event>, k: Kind, b: byte)
    ensures Append(CuesLog(log, [Mark(k)], b), Data(k, [b])) == Append(log, Data(k, [b]))
  {
    hide Append;
    assert CuesLog(log, [Mark(k)], b) == Append(log, Data(k, []));
    AppendTwice(log, k, [], [b]);
    assert [] + [b] == [b];
  }

  lemma NextLengthDigit(cfg: Settings, s: Parser, nread: nat, log: seq<Event>, b: byte)
    requires s.state == HeaderValue && s.hstate == ContentLengthNum && IsNum(b) && nread < MAX_HEADER_SIZE
    ensures FeedByte(cfg, Going(s, nread, log), b) ==
            if (MAX64 - 10) / 10 < s.contentLength then Failed
            else Going(s.(contentLength := s.contentLength * 10 + Digit(b)), nread + 1, Append(log, Data(Value, [b])))
  {
    hide Append, Lower;
    assert IsHeaderChar(b);
    ExamineValue(cfg, s, nread + 1, log, b);
  }

  lemma LengthGoesOn(cfg: Settings, s: Parser, nread: nat, log: seq<Event>, n: nat, init: seq<byte>, b: byte)
    requires IsNum(b) && Room(nread, |init| + 1)
    ensures FeedByte(cfg, Going(Reading(s, n), nread + |init|, Append(log, Data(Value, init))), b) ==
            if n * 10 + Digit(b) <= DECIMAL_LIMIT
            then Going(Reading(s, n * 10 + Digit(b)), nread + |init| + 1, Append(log, Data(Value, init + [b])))
            else Failed
  {
    hide FeedByte, Append, IsNum, Digit, Unhex;
    NextLengthDigit(cfg, Reading(s, n), nread + |init|, Append(log, Data(Value, init)), b);
    DigitRange(b);
    DecimalLimit(n, Digit(b));
    AppendTwice(log, Value, init, [b]);
  }

  // An accepted Content-Length is the exact value of its digits; it is accepted
  // exactly when it does not exceed the limit.
  lemma {:induction false} LengthIsExact(cfg: Settings, s: Parser, nread: nat, log: seq<Event>, ds: seq<byte>)
    requires s.state == HeaderValueDiscardWs && s.hstate == ContentLength && !s.flags.contentLength
    requires ds != [] && AllDigits(10, ds) && Room(nread, |ds|)
    ensures RunOn(cfg, Going(s, nread, log), ds) ==
            if Number(10, ds) <= DECIMAL_LIMIT
            then Going(Reading(s, Number(10, ds)), nread + |ds|, Append(log, Data(Value, ds)))
            else Failed
    decreases |ds|
  {
    hide FeedByte, Append, Unhex, IsNum, Digit, Reading;
    var last := |ds| - 1;
    var init := ds[..last];
    DigitRange(ds[last]);
    if init == [] {
      assert ds == [ds[0]];
      assert Number(10, init) == 0;
      RunOnOne(cfg, Going(s, nread, log), ds[0]);
      FirstLengthDigit(cfg, s, nread, log, ds[0]);
    } else {
      LengthIsExact(cfg, s, nread, log, init);
      assert init + [ds[last]] == ds;
      if Number(10, init) <= DECIMAL_LIMIT {
        LengthGoesOn(cfg, s, nread, log, Number(10, init), init, ds[last]);
      } else {
        FailedStays(cfg, ds[last]);
      }
    }
  }

  lemma DecimalLimit(n: nat, d: nat)
    requires d < 10
    ensures n * 10 + d <= DECIMAL_LIMIT <==> n <= (MAX64 - 10) / 10
  {
  }

  lemma HexLimit(n: nat, d: nat)
    requires d < 16
    ensures n * 16 + d <= HEX_LIMIT <==> n <= (MAX64 - 16) / 16
  {
  }

  lemma FailedStays(cfg: Settings, b: byte)
    ensures FeedByte(cfg, Failed, b) == Failed
  {
  }

  // A body of known length: what was delivered and what is still expected add up to the
  // declared length, and the message completes exactly with the last byte.
  lemma BodyArrives(cfg: Settings, s: Parser, nread: nat, log: seq<Event>, bs: seq<byte>)
    requires s.state == BodyIdentity && |bs| <= s.contentLength && 0 < s.contentLength
    ensures RunOn(cfg, Going(s, nread, log), bs) ==
            var t := s.(contentLength := s.contentLength - |bs|);
            if bs == [] then Going(s, nread, log)
            else if 0 < t.contentLength then Going(t, nread, Append(log, Data(Body, bs)))
            else Going(t.(state := StartReq), nread, Append(log, Data(Body, bs)) + [MessageComplete])
  {
    hide FeedByte, Append;
    if bs == [] {
    } else if |bs| < s.contentLength {
      BodyInside(cfg, s, nread, log, bs);
    } else {
      BodyToEnd(cfg, s, nread, log, bs);
      MessageEnds(cfg, s.(contentLength := 0, state := MessageDone), nread, Append(log, Data(Body, bs)), bs[|bs| - 1]);
    }
  }

  lemma MessageEnds(cfg: Settings, s: Parser, nread: nat, log: seq<Event>, b: byte)
    requires s.state == MessageDone
    ensures Examine(cfg, s, nread, log, b) == Going(s.(state := StartReq), nread, log + [MessageComplete])
  {
    assert CuesLog(log, [Note(MessageComplete)], b) == Append(log, MessageComplete);
  }

  // Chunks ------------------------------------------------------------------

  // A chunk of section 4.1 of RFC 7230: its size in hexadecimal digits, and its bytes.
  datatype Chunk = Chunk(size: seq<byte>, data: seq<byte>)

  ghost predicate IsSize(ds: seq<byte>) {
    ds != [] && AllDigits(16, ds) && Room(0, |ds| + 2)
  }

  ghost predicate WellFormed(c: Chunk) {
    IsSize(c.size) && Number(16, c.size) == |c.data| && 0 < |c.data| <= HEX_LIMIT
  }

  function Encode(chunks: seq<Chunk>): seq<byte> {
    if chunks == [] then []
    else Encode(chunks[..|chunks| - 1]) + EncodeChunk(chunks[|chunks| - 1])
  }

  function EncodeChunk(c: Chunk): seq<byte> {
    c.size + CRLF + c.data + CRLF
  }

  function Joined(chunks: seq<Chunk>): seq<byte> {
    if chunks == [] then [] else Joined(chunks[..|chunks| - 1]) + chunks[|chunks| - 1].data
  }

  lemma FirstSizeDigit(cfg: Settings, s: Parser, nread: nat, log: seq<Event>, b: byte)
    requires s.state == ChunkSizeStart && 0 <= Unhex(b) && nread < MAX_HEADER_SIZE
    ensures FeedByte(cfg, Going(s, nread, log), b) == Going(s.(state := ChunkSize, contentLength := Digit(b)), nread + 1, log)
  {
    hide Unhex;
    assert Arm(cfg, s, b) == ChunkArm(s, b);
  }

  lemma NextSizeDigit(cfg: Settings, s: Parser, nread: nat, log: seq<Event>, b: byte)
    requires s.state == ChunkSize && 0 <= Unhex(b) && b != CR && nread < MAX_HEADER_SIZE
    ensures FeedByte(cfg, Going(s, nread, log), b) ==
            if (MAX64 - 16) / 16 < s.contentLength then Failed
            else Going(s.(contentLength := s.contentLength * 16 + Digit(b)), nread + 1, log)
  {
    hide Unhex;
    assert Arm(cfg, s, b) == ChunkArm(s, b);
  }

  // A chunk size is exact as well, and accepted exactly when it does not exceed its limit.
  lemma {:induction false} SizeIsExact(cfg: Settings, s: Parser, nread: nat, log: seq<Event>, ds: seq<byte>)
    requires s.state == ChunkSizeStart && ds != [] && AllDigits(16, ds) && Room(nread, |ds|)
    ensures RunOn(cfg, Going(s, nread, log), ds) ==
            if Number(16, ds) <= HEX_LIMIT
            then Going(s.(state := ChunkSize, contentLength := Number(16, ds)), nread + |ds|, log)
            else Failed
    decreases |ds|
  {
    hide FeedByte, Unhex;
    var r := Going(s, nread, log);
    var last := |ds| - 1;
    var init := ds[..last];
    if init == [] {
      assert ds == [ds[0]];
      assert Number(16, init) == 0;
      RunOnOne(cfg, r, ds[0]);
      FirstSizeDigit(cfg, s, nread, log, ds[0]);
      DigitRange(ds[0]);
    } else {
      SizeIsExact(cfg, s, nread, log, init);
      DigitRange(ds[last]);
      HexLimit(Number(16, init), Digit(ds[last]));
      if Number(16, init) <= HEX_LIMIT {
        NextSizeDigit(cfg, s.(state := ChunkSize, contentLength := Number(16, init)), nread + last, log, ds[last]);
      } else {
        FailedStays(cfg, ds[last]);
      }
    }
  }

  lemma DigitRange(b: byte)
    ensures Digit(b) < 16 && (0 <= Unhex(b) && b < 128 ==> b != CR && b != LF)
    ensures IsNum(b) ==> 0 <= Unhex(b) && Digit(b) == b - '0' as int < 10
  {
  }

  lemma RunOnCrlf(cfg: Settings, r: Run)
    ensures RunOn(cfg, r, CRLF) == FeedByte(cfg, FeedByte(cfg, r, CR), LF)
  {
    hide FeedByte;
    assert CRLF == [CR] + [LF];
    RunOnConcat(cfg, r, [CR], [LF]);
    RunOnOne(cfg, r, CR);
    RunOnOne(cfg, RunOn(cfg, r, [CR]), LF);
  }

  lemma SizeLineEnds(cfg: Settings, s: Parser, nread: nat, log: seq<Event>)
    requires s.state == ChunkSize && Room(nread, 2)
    ensures RunOn(cfg, Going(s, nread, log), CRLF) ==
            Going(if s.contentLength == 0 then s.(flags := s.flags.(trailing := true), state := HeaderFieldStart)
                  else s.(state := ChunkData), 0, log)
  {
    hide FeedByte;
    RunOnCrlf(cfg, Going(s, nread, log));
    SizeLineCr(cfg, s, nread, log);
    SizeLineLf(cfg, s.(state := ChunkSizeAlmostDone), nread + 1, log);
  }

  lemma SizeLineCr(cfg: Settings, s: Parser, nread: nat, log: seq<Event>)
    requires s.state == ChunkSize && Room(nread, 1)
    ensures FeedByte(cfg, Going(s, nread, log), CR) == Going(s.(state := ChunkSizeAlmostDone), nread + 1, log)
  {
    hide FeedByte;
    FeedDone(cfg, s, nread, log, CR, s.(state := ChunkSizeAlmostDone), []);
  }

  lemma SizeLineLf(cfg: Settings, s: Parser, nread: nat, log: seq<Event>)
    requires s.state == ChunkSizeAlmostDone && Room(nread, 1)
    ensures FeedByte(cfg, Going(s, nread, log), LF) ==
            Going(if s.contentLength == 0 then s.(flags := s.flags.(trailing := true), state := HeaderFieldStart)
                  else s.(state := ChunkData), 0, log)
  {
    hide FeedByte;
    var t := if s.contentLength == 0 then s.(flags := s.flags.(trailing := true), state := HeaderFieldStart)
             else s.(state := ChunkData);
    FeedDone(cfg, s, nread, log, LF, t, [ResetCount]);
  }

  lemma ChunkEnds(cfg: Settings, s: Parser, nread: nat, log: seq<Event>)
    requires s.state == ChunkDataAlmostDone && Room(nread, 0)
    ensures RunOn(cfg, Going(s, nread, log), CRLF) == Going(s.(state := ChunkSizeStart), 0, log)
  {
    hide FeedByte;
    RunOnCrlf(cfg, Going(s, nread, log));
    ChunkCr(cfg, s, nread, log);
    ChunkLf(cfg, s.(state := ChunkDataDone), nread, log);
  }

  lemma ChunkCr(cfg: Settings, s: Parser, nread: nat, log: seq<Event>)
    requires s.state == ChunkDataAlmostDone && Room(nread, 0)
    ensures FeedByte(cfg, Going(s, nread, log), CR) == Going(s.(state := ChunkDataDone), nread, log)
  {
    hide FeedByte;
    FeedDone(cfg, s, nread, log, CR, s.(state := ChunkDataDone), [Flush(Body)]);
  }

  lemma ChunkLf(cfg: Settings, s: Parser, nread: nat, log: seq<Event>)
    requires s.state == ChunkDataDone && Room(nread, 0)
    ensures FeedByte(cfg, Going(s, nread, log), LF) == Going(s.(state := ChunkSizeStart), 0, log)
  {
    hide FeedByte;
    FeedDone(cfg, s, nread, log, LF, s.(state := ChunkSizeStart), [ResetCount]);
  }

  // One chunk delivers its bytes, and the next is expected.
  lemma ChunkArrives(cfg: Settings, s: Parser, log: seq<Event>, c: Chunk)
    requires s.state == ChunkSizeStart && WellFormed(c)
    ensures RunOn(cfg, Going(s, 0, log), EncodeChunk(c)) ==
            Going(s.(contentLength := 0), 0, Append(log, Data(Body, c.data)))
  {
    hide FeedByte, Append, RunOn, Examine, Number, AllDigits;
    var r := Going(s, 0, log);
    RunOnConcat(cfg, r, c.size + CRLF + c.data, CRLF);
    RunOnConcat(cfg, r, c.size + CRLF, c.data);
    RunOnConcat(cfg, r, c.size, CRLF);
    SizeIsExact(cfg, s, 0, log, c.size);
    var t := s.(state := ChunkSize, contentLength := |c.data|);
    SizeLineEnds(cfg, t, |c.size|, log);
    BodyToEnd(cfg, t.(state := ChunkData), 0, log, c.data);
    ChunkEnds(cfg, t.(state := ChunkDataAlmostDone, contentLength := 0), 0, Append(log, Data(Body, c.data)));
  }

  // Any number of chunks delivers the body they cut up.
  lemma {:induction false} ChunksArrive(cfg: Settings, s: Parser, log: seq<Event>, chunks: seq<Chunk>)
    requires s.state == ChunkSizeStart && (forall c :: c in chunks ==> WellFormed(c))
    ensures RunOn(cfg, Going(s, 0, log), Encode(chunks)) ==
            if chunks == [] then Going(s, 0, log)
            else Going(s.(contentLength := 0), 0, Append(log, Data(Body, Joined(chunks))))
    decreases |chunks|
  {
    hide FeedByte, Append, RunOn, WellFormed, EncodeChunk;
    var r := Going(s, 0, log);
    if chunks == [] {
      NoBytes(cfg, r);
    } else {
      var init := chunks[..|chunks| - 1];
      var c := chunks[|chunks| - 1];
      ChunksArrive(cfg, s, log, init);
      RunOnConcat(cfg, r, Encode(init), EncodeChunk(c));
      if init == [] {
        ChunkArrives(cfg, s, log, c);
        assert Joined(init) + c.data == c.data;
      } else {
        ChunkArrives(cfg, s.(contentLength := 0), Append(log, Data(Body, Joined(init))), c);
        AppendTwice(log, Body, Joined(init), c.data);
      }
    }
  }

  lemma NoBytes(cfg: Settings, r: Run)
    ensures RunOn(cfg, r, []) == r
  {
  }

  lemma LastLine(cfg: Settings, s: Parser, log: seq<Event>)
    requires s.state == HeaderFieldStart && s.flags.trailing
    ensures RunOn(cfg, Going(s, 0, log), [CR]) == Going(s.(state := HeadersAlmostDone), 1, log)
    ensures RunOn(cfg, Going(s, 0, log), CRLF) == Going(s.(state := StartReq), 2, log + [MessageComplete])
  {
    RunOnCrlf(cfg, Going(s, 0, log));
    RunOnOne(cfg, Going(s, 0, log), CR);
    LastCr(cfg, s, log);
    LastLf(cfg, s.(state := HeadersAlmostDone), log);
  }

  lemma LastCr(cfg: Settings, s: Parser, log: seq<Event>)
    requires s.state == HeaderFieldStart
    ensures FeedByte(cfg, Going(s, 0, log), CR) == Going(s.(state := HeadersAlmostDone), 1, log)
  {
    assert Arm(cfg, s, CR) == FieldStartArm(s, CR);
  }

  lemma LastLf(cfg: Settings, s: Parser, log: seq<Event>)
    requires s.state == HeadersAlmostDone && s.flags.trailing
    ensures FeedByte(cfg, Going(s, 1, log), LF) == Going(s.(state := StartReq), 2, log + [MessageComplete])
  {
    assert Arm(cfg, s, LF) == NewMessage(s);
    assert CuesLog(log, [Note(MessageComplete)], LF) == Append(log, MessageComplete);
  }

  ghost predicate IsLastSize(ds: seq<byte>) {
    IsSize(ds) && Number(16, ds) == 0
  }

  // The log of a chunked body, and the whole body as it is sent.
  ghost function Delivered(log: seq<Event>, chunks: seq<Chunk>): seq<Event> {
    if chunks == [] then log else Append(log, Data(Body, Joined(chunks)))
  }

  function ChunkedBody(chunks: seq<Chunk>, zero: seq<byte>): seq<byte> {
    Encode(chunks) + (zero + CRLF) + CRLF
  }

  // A body cut into any chunks arrives as it was; the message completes with the final LF,
  // of which one byte less the completion is still missing.
  lemma ChunkedRoundTrip(cfg: Settings, s: Parser, log: seq<Event>, chunks: seq<Chunk>, zero: seq<byte>)
    requires s.state == ChunkSizeStart && (forall c :: c in chunks ==> WellFormed(c)) && IsLastSize(zero)
    ensures var body := ChunkedBody(chunks, zero);
            var t := s.(contentLength := 0, flags := s.flags.(trailing := true));
            && RunOn(cfg, Going(s, 0, log), body) ==
               Going(t.(state := StartReq), 2, Delivered(log, chunks) + [MessageComplete])
            && RunOn(cfg, Going(s, 0, log), body[..|body| - 1]) ==
               Going(t.(state := HeadersAlmostDone), 1, Delivered(log, chunks))
  {
    hide FeedByte, Append, RunOn, WellFormed, Encode, Joined, Examine, Number, AllDigits;
    var r := Going(s, 0, log);
    var l := Delivered(log, chunks);
    ChunksArrive(cfg, s, log, chunks);
    var u := if chunks == [] then s else s.(contentLength := 0);
    RunOnConcat(cfg, r, Encode(chunks), zero + CRLF);
    RunOnConcat(cfg, Going(u, 0, l), zero, CRLF);
    SizeIsExact(cfg, u, 0, l, zero);
    SizeLineEnds(cfg, u.(state := ChunkSize, contentLength := 0), |zero|, l);
    var body := ChunkedBody(chunks, zero);
    RunOnConcat(cfg, r, Encode(chunks) + (zero + CRLF), CRLF);
    RunOnConcat(cfg, r, Encode(chunks) + (zero + CRLF), [CR]);
    assert body[..|body| - 1] == Encode(chunks) + (zero + CRLF) + [CR];
    LastLine(cfg, u.(contentLength := 0, flags := u.flags.(trailing := true), state := HeaderFieldStart), l);
  }
}
