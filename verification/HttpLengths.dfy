/** A request with a Content-Length, from its length field to the last byte of its body. */
module HttpLengths {
  import opened Common
  import opened HttpMessage
  import opened HttpRun
  import opened HttpBodies

  // What has been read of the message so far asks for no other framing.
  ghost predicate Plain(s: Parser) {
    && !s.flags.chunked && !s.flags.trailing && !s.flags.upgrade && !s.flags.skipBody
    && !s.usesTransferEncoding && s.meth != CONNECT
  }

  ghost predicate Agrees(cfg: Settings) {
    forall t :: cfg.onHeadersComplete(t) == 0
  }

  lemma ValueCr(cfg: Settings, s: Parser, nread: nat, log: seq<Event>)
    requires s.state == HeaderValue && nread < MAX_HEADER_SIZE
    ensures FeedByte(cfg, Going(s, nread, log), CR) == Going(s.(state := HeaderAlmostDone), nread + 1, log)
  {
    ExamineValue(cfg, s, nread + 1, log, CR);
  }

  lemma ValueLf(cfg: Settings, s: Parser, nread: nat, log: seq<Event>)
    requires s.state == HeaderAlmostDone && nread < MAX_HEADER_SIZE
    ensures FeedByte(cfg, Going(s, nread, log), LF) == Going(s.(state := HeaderValueLws), nread + 1, log)
  {
    hide FeedByte;
    FeedDone(cfg, s, nread, log, LF, s.(state := HeaderValueLws), []);
  }

  // A header line is over: what its value asked for is noted, and a value that is empty is delivered.
  function Ended(s: Parser): Parser {
    if s.state == HeaderValueLws then
      s.(flags := s.flags.(keepAlive := s.flags.keepAlive || s.hstate == KeepAlive,
                           close := s.flags.close || s.hstate == Close,
                           chunked := s.flags.chunked || s.hstate == Chunked))
    else s
  }

  function EndedLog(s: Parser, log: seq<Event>): seq<Event> {
    if s.state == HeaderValueDiscardLws then Append(log, Data(Value, [])) else log
  }

  predicate LineEnded(s: Parser) { s.state == HeaderValueLws || s.state == HeaderValueDiscardLws }

  // The CR of the empty line: first the header before it is over, then the line begins.
  lemma EmptyLineCr(cfg: Settings, s: Parser, nread: nat, log: seq<Event>)
    requires LineEnded(s) && nread < MAX_HEADER_SIZE
    ensures FeedByte(cfg, Going(s, nread, log), CR) == Going(Ended(s).(state := HeadersAlmostDone), nread + 1, EndedLog(s, log))
  {
    hide Arm, Append;
    var t := Ended(s).(state := HeaderFieldStart);
    LineArm(cfg, s);
    FieldStartCr(cfg, t);
    ValueLog(log);
    assert Examine(cfg, t, nread + 1, EndedLog(s, log), CR) == Going(t.(state := HeadersAlmostDone), nread + 1, EndedLog(s, log));
  }

  lemma LineArm(cfg: Settings, s: Parser)
    requires LineEnded(s)
    ensures Arm(cfg, s, CR) ==
            Redo(Ended(s).(state := HeaderFieldStart), if s.state == HeaderValueLws then [] else [Mark(Value), Flush(Value)])
  {
    assert Arm(cfg, s, CR) == ValueEndArm(s, CR);
  }

  lemma ValueLog(log: seq<Event>)
    ensures CuesLog(log, [Mark(Value), Flush(Value)], CR) == Append(log, Data(Value, []))
  {
    hide Append;
    var cues := [Mark(Value), Flush(Value)];
    assert cues[1..] == [Flush(Value)];
    assert CuesLog(log, cues, CR) == CuesLog(Append(log, Data(Value, [])), cues[1..], CR);
  }

  lemma FieldStartCr(cfg: Settings, s: Parser)
    requires s.state == HeaderFieldStart
    ensures Arm(cfg, s, CR) == Done(s.(state := HeadersAlmostDone), [])
  {
  }

  // Where the headers lead: to the body, or to the next message if there is none.
  ghost function AfterHeaders(s: Parser, log: seq<Event>): Run {
    var l := log + [HeadersComplete];
    if s.contentLength == 0 || s.contentLength == MAX64
    then Going(s.(state := StartReq, upgrade := false), 0, l + [MessageComplete])
    else Going(s.(state := BodyIdentity, upgrade := false), 0, l)
  }

  lemma EmptyLineLf(cfg: Settings, s: Parser, nread: nat, log: seq<Event>)
    requires s.state == HeadersAlmostDone && nread < MAX_HEADER_SIZE && Plain(s) && Agrees(cfg)
    ensures FeedByte(cfg, Going(s, nread, log), LF) == AfterHeaders(s, log)
  {
    hide Arm;
    var t := s.(state := HeadersDone, upgrade := false);
    HeadersArms(cfg, s, t);
    assert Append(log, HeadersComplete) == log + [HeadersComplete];
    assert CuesLog(log, [Note(HeadersComplete)], LF) == log + [HeadersComplete];
    DoneExamined(cfg, t, nread + 1, log + [HeadersComplete]);
  }

  lemma HeadersArms(cfg: Settings, s: Parser, t: Parser)
    requires s.state == HeadersAlmostDone && Plain(s) && Agrees(cfg) && t == s.(state := HeadersDone, upgrade := false)
    ensures Arm(cfg, s, LF) == Redo(t, [Note(HeadersComplete)])
  {
    hide HeadersDoneArm;
    assert Arm(cfg, s, LF) == HeadersAlmostDoneArm(cfg, s, LF);
  }

  lemma DoneArm(t: Parser)
    requires t.state == HeadersDone && Plain(t) && !t.upgrade
    ensures HeadersDoneArm(t, LF) ==
            if t.contentLength == 0 || t.contentLength == MAX64
            then Done(t.(state := StartReq), [ResetCount, Note(MessageComplete)])
            else Done(t.(state := BodyIdentity), [ResetCount])
  {
  }

  lemma CompleteLog(l: seq<Event>)
    ensures CuesLog(l, [ResetCount, Note(MessageComplete)], LF) == l + [MessageComplete]
    ensures CuesLog(l, [ResetCount], LF) == l
  {
    var complete := [ResetCount, Note(MessageComplete)];
    assert complete[1..] == [Note(MessageComplete)];
    assert CuesLog(l, complete, LF) == CuesLog(l, complete[1..], LF);
    assert Append(l, MessageComplete) == l + [MessageComplete];
  }

  lemma DoneExamined(cfg: Settings, t: Parser, nread: nat, l: seq<Event>)
    requires t.state == HeadersDone && Plain(t) && !t.upgrade
    ensures Examine(cfg, t, nread, l, LF) ==
            if t.contentLength == 0 || t.contentLength == MAX64
            then Going(t.(state := StartReq), 0, l + [MessageComplete])
            else Going(t.(state := BodyIdentity), 0, l)
  {
    hide CuesLog, Append, HeadersDoneArm;
    assert Arm(cfg, t, LF) == HeadersDoneArm(t, LF);
    DoneArm(t);
    CompleteLog(l);
  }

  lemma SameAfter(s: Parser, t: Parser, log: seq<Event>)
    requires t == s.(state := t.state)
    ensures AfterHeaders(s, log) == AfterHeaders(t, log)
  {
  }

  lemma ValueLine(cfg: Settings, s: Parser, nread: nat, log: seq<Event>)
    requires s.state == HeaderValue && Room(nread, 2)
    ensures RunOn(cfg, Going(s, nread, log), CRLF) == Going(s.(state := HeaderValueLws), nread + 2, log)
  {
    hide FeedByte, RunOn;
    RunOnCrlf(cfg, Going(s, nread, log));
    ValueCr(cfg, s, nread, log);
    ValueLf(cfg, s.(state := HeaderAlmostDone), nread + 1, log);
  }

  lemma EmptyLine(cfg: Settings, s: Parser, nread: nat, log: seq<Event>)
    requires LineEnded(s) && Plain(Ended(s)) && Agrees(cfg) && Room(nread, 2)
    ensures RunOn(cfg, Going(s, nread, log), CRLF) == AfterHeaders(Ended(s), EndedLog(s, log))
  {
    hide FeedByte, RunOn, AfterHeaders, Agrees, Ended, EndedLog;
    var t := Ended(s).(state := HeadersAlmostDone);
    RunOnCrlf(cfg, Going(s, nread, log));
    EmptyLineCr(cfg, s, nread, log);
    EmptyLineLf(cfg, t, nread + 1, EndedLog(s, log));
    SameAfter(Ended(s), t, EndedLog(s, log));
  }

  // Later headers ------------------------------------------------------------

  // Where a header line has got to: within, behind its CR, or behind its LF.
  datatype Place = Inside | Ending | Over

  predicate At(s: Parser, place: Place) {
    match place
    case Inside => s.state == HeaderField || s.state == HeaderValueDiscardWs || s.state == HeaderValue
    case Ending => s.state == HeaderAlmostDone || s.state == HeaderValueDiscardWsAlmostDone
    case Over => LineEnded(s)
  }

  // The length n has been read, and what is read now is no length.
  ghost predicate LengthSet(s: Parser, n: nat) {
    && s.flags.contentLength && s.contentLength == n
    && (s.state == HeaderValue ==> s.hstate != ContentLength && s.hstate != ContentLengthNum)
  }

  ghost predicate Keeps(r: ArmResult, n: nat) { r.Fail? || LengthSet(r.s, n) }

  ghost predicate Reaches(r: Run, n: nat, place: Place) {
    r == Failed || (r.Going? && LengthSet(r.s, n) && At(r.s, place))
  }

  lemma FieldKeepsLength(s: Parser, b: byte, n: nat)
    requires LengthSet(s, n) && s.state == HeaderField
    ensures var r := FieldArm(s, b); Keeps(r, n) && !r.Redo? && !r.Halt? && (r.Done? ==> At(r.s, Inside))
    ensures FieldArm(s, CR).Fail?
  {
    hide Token, MatchNext;
    MatchKeeps(s, Token(b), n);
    CrIsNoToken();
  }

  lemma CrIsNoToken()
    ensures Token(CR) == 0
  {
  }

  lemma MatchKeeps(s: Parser, c: byte, n: nat)
    requires LengthSet(s, n) && s.state == HeaderField
    ensures forall name, miss, hit :: LengthSet(MatchNext(s, c, name, miss, hit), n)
  {
  }

  lemma ValueStartKeepsLength(s: Parser, b: byte, n: nat)
    requires LengthSet(s, n) && s.state != HeaderValue
    ensures var r := ValueStartArm(s, b); Keeps(r, n) && (r.Done? || r.Fail?) && (r.Done? ==> r.s.state == HeaderValue)
  {
    hide Lower, IsNum;
    ValueStarts(s, b);
  }

  lemma ValueStarts(s: Parser, b: byte)
    ensures var r := ValueStartArm(s, b); (r.Done? || r.Fail?) && (r.Done? ==> r.s.state == HeaderValue)
  {
    hide Lower, IsNum;
  }

  lemma ValueKeepsLength(s: Parser, b: byte, n: nat)
    requires LengthSet(s, n) && s.state == HeaderValue && b != LF
    ensures var r := ValueArm(s, b);
            Keeps(r, n) && !r.Redo? && !r.Halt? && (r.Done? ==> if b == CR then r.s.state == HeaderAlmostDone else At(r.s, Inside))
  {
    hide ValueChar, IsHeaderChar;
    ValueCharKeepsLength(s, b, n);
  }

  lemma ValueCharKeepsLength(s: Parser, b: byte, n: nat)
    requires LengthSet(s, n) && s.state == HeaderValue
    ensures ValueChar(s, b).Ok? ==> LengthSet(ValueChar(s, b).s, n)
  {
    hide Lower, Token, Is, MatchNext, LengthDigit;
    Matches(s, Lower(b), n, "chunked", MatchingToken, Chunked);
    Matches(s, Lower(b), n, "keep-alive", General, KeepAlive);
    Matches(s, Lower(b), n, "close", General, Close);
  }

  lemma Matches(s: Parser, c: byte, n: nat, name: string, miss: HState, hit: HState)
    requires LengthSet(s, n) && s.state == HeaderValue
    requires miss != ContentLength && miss != ContentLengthNum && hit != ContentLength && hit != ContentLengthNum
    ensures LengthSet(MatchNext(s, c, name, miss, hit), n)
  {
  }

  lemma FirstKeepsLength(s: Parser, b: byte, n: nat)
    requires LengthSet(s, n) && s.state == HeaderFieldStart && b != CR && b != LF
    ensures var r := FieldStartArm(s, b); Keeps(r, n) && !r.Redo? && !r.Halt? && (r.Done? ==> r.s.state == HeaderField)
  {
    hide Token;
  }

  // What a run makes of an arm that is done with the byte, at once or at the second look.
  ghost predicate LeadsTo(r: Run, a: ArmResult) {
    r == Failed || (a.Done? && r.Going? && r.s == a.s)
  }

  lemma FeedOne(cfg: Settings, s: Parser, nread: nat, log: seq<Event>, b: byte)
    requires Arm(cfg, s, b).Done? || Arm(cfg, s, b).Fail?
    ensures LeadsTo(FeedByte(cfg, Going(s, nread, log), b), Arm(cfg, s, b))
  {
    hide Arm, CuesLog, WithByte;
  }

  lemma FeedTwo(cfg: Settings, s: Parser, nread: nat, log: seq<Event>, b: byte, t: Parser)
    requires Arm(cfg, s, b).Redo? && Arm(cfg, s, b).s == t && (Arm(cfg, t, b).Done? || Arm(cfg, t, b).Fail?)
    ensures LeadsTo(FeedByte(cfg, Going(s, nread, log), b), Arm(cfg, t, b))
  {
    hide Arm, CuesLog, WithByte;
    var cues := Arm(cfg, s, b).cues;
    var k := Counted(s.state, nread);
    assert Examine(cfg, s, k, log, b) == Examine(cfg, t, CuesCount(k, cues), CuesLog(log, cues, b), b);
  }

  // In a line, up to its CR.
  lemma InLineByte(cfg: Settings, s: Parser, nread: nat, log: seq<Event>, b: byte, n: nat)
    requires LengthSet(s, n) && At(s, Inside) && b != LF
    ensures Reaches(FeedByte(cfg, Going(s, nread, log), b), n, if b == CR then Ending else Inside)
  {
    hide FeedByte, FieldArm, ValueArm, ValueStartArm, LengthSet;
    InLineArm(cfg, s, b, n);
    FeedOne(cfg, s, nread, log, b);
  }

  lemma InLineArm(cfg: Settings, s: Parser, b: byte, n: nat)
    requires LengthSet(s, n) && At(s, Inside) && b != LF
    ensures var r := Arm(cfg, s, b);
            (r.Done? || r.Fail?) && Keeps(r, n) && (r.Done? ==> if b == CR then At(r.s, Ending) else At(r.s, Inside))
  {
    hide FieldArm, ValueArm, ValueStartArm, LengthSet;
    if s.state == HeaderField {
      assert Arm(cfg, s, b) == FieldArm(s, b);
      FieldKeepsLength(s, b, n);
    } else if s.state == HeaderValue {
      assert Arm(cfg, s, b) == ValueArm(s, b);
      ValueKeepsLength(s, b, n);
    } else {
      DiscardKeepsLength(cfg, s, b, n);
    }
  }

  lemma DiscardKeepsLength(cfg: Settings, s: Parser, b: byte, n: nat)
    requires LengthSet(s, n) && s.state == HeaderValueDiscardWs && b != LF
    ensures var r := Arm(cfg, s, b);
            (r.Done? || r.Fail?) && Keeps(r, n) && (r.Done? ==> if b == CR then At(r.s, Ending) else At(r.s, Inside))
  {
    hide ValueStartArm;
    assert Arm(cfg, s, b) == ValueEndArm(s, b);
    ValueStartKeepsLength(s, b, n);
  }

  lemma LineEndByte(cfg: Settings, s: Parser, nread: nat, log: seq<Event>, n: nat)
    requires LengthSet(s, n) && At(s, Ending)
    ensures Reaches(FeedByte(cfg, Going(s, nread, log), LF), n, Over)
  {
    hide FeedByte, Arm, LengthSet, At;
    LineEndArm(cfg, s, n);
    FeedOne(cfg, s, nread, log, LF);
  }

  lemma LineEndArm(cfg: Settings, s: Parser, n: nat)
    requires LengthSet(s, n) && At(s, Ending)
    ensures var r := Arm(cfg, s, LF); r.Done? && LengthSet(r.s, n) && At(r.s, Over)
  {
  }

  // The first byte of the next line, which is no white space.
  lemma NextLineByte(cfg: Settings, s: Parser, nread: nat, log: seq<Event>, b: byte, n: nat)
    requires LengthSet(s, n) && At(s, Over) && b != CR && b != LF && b != SP && b != TAB
    ensures Reaches(FeedByte(cfg, Going(s, nread, log), b), n, Inside)
  {
    hide FeedByte, FieldStartArm, Arm, Ended;
    var t := Ended(s).(state := HeaderFieldStart);
    NextLineArm(cfg, s, b, n);
    StartArmIs(cfg, t, b);
    FirstKeepsLength(t, b, n);
    FeedTwo(cfg, s, nread, log, b, t);
  }

  lemma NextLineArm(cfg: Settings, s: Parser, b: byte, n: nat)
    requires LengthSet(s, n) && At(s, Over) && b != SP && b != TAB
    ensures var t := Ended(s).(state := HeaderFieldStart); Arm(cfg, s, b).Redo? && Arm(cfg, s, b).s == t && LengthSet(t, n)
  {
    assert Arm(cfg, s, b) == ValueEndArm(s, b);
  }

  lemma StartArmIs(cfg: Settings, t: Parser, b: byte)
    requires t.state == HeaderFieldStart
    ensures Arm(cfg, t, b) == FieldStartArm(t, b)
  {
    hide FieldStartArm;
  }

  // A header line: a name, a colon and the rest.
  datatype Line = Line(name: seq<byte>, rest: seq<byte>)

  ghost predicate PlainLine(h: Line) {
    && h.name != [] && h.name[0] != SP && h.name[0] != TAB
    && CR !in h.name && LF !in h.name && CR !in h.rest && LF !in h.rest
  }

  function LineText(h: Line): seq<byte> { h.name + [':' as int] + h.rest + CRLF }

  function LinesText(hs: seq<Line>): seq<byte> {
    if hs == [] then [] else LinesText(hs[..|hs| - 1]) + LineText(hs[|hs| - 1])
  }

  lemma {:induction false} InLineBytes(cfg: Settings, s: Parser, nread: nat, log: seq<Event>, text: seq<byte>, n: nat)
    requires LengthSet(s, n) && At(s, Over)
    requires text != [] && CR !in text && LF !in text && text[0] != SP && text[0] != TAB
    ensures Reaches(RunOn(cfg, Going(s, nread, log), text), n, Inside)
    decreases |text|
  {
    hide FeedByte, LengthSet, At;
    var last := |text| - 1;
    var b := text[last];
    assert b in text;
    if last == 0 {
      assert text[..last] == [];
      NextLineByte(cfg, s, nread, log, b, n);
    } else {
      InLineBytes(cfg, s, nread, log, text[..last], n);
      RunOnOne(cfg, Failed, b);
      RunOnFailed(cfg, [b]);
      match RunOn(cfg, Going(s, nread, log), text[..last])
      case Going(t, k, l) => InLineByte(cfg, t, k, l, b, n);
      case Failed =>
    }
  }

  // Whatever headers follow, the length stays as it was read.
  lemma LineStays(cfg: Settings, s: Parser, nread: nat, log: seq<Event>, h: Line, n: nat)
    requires LengthSet(s, n) && At(s, Over) && PlainLine(h)
    ensures Reaches(RunOn(cfg, Going(s, nread, log), LineText(h)), n, Over)
  {
    hide FeedByte, LengthSet, At, RunOn;
    var r := Going(s, nread, log);
    var text := h.name + [':' as int] + h.rest;
    assert text[0] == h.name[0];
    InLineBytes(cfg, s, nread, log, text, n);
    RunOnConcat(cfg, r, text, CRLF);
    match RunOn(cfg, r, text)
    case Going(t, k, l) =>
      RunOnCrlf(cfg, Going(t, k, l));
      InLineByte(cfg, t, k, l, CR, n);
      match FeedByte(cfg, Going(t, k, l), CR) {
        case Going(u, k', l') => LineEndByte(cfg, u, k', l', n);
        case Failed => RunOnFailed(cfg, [LF]); RunOnOne(cfg, Failed, LF);
      }
    case Failed => RunOnFailed(cfg, CRLF);
  }

  lemma {:induction false} LengthStays(cfg: Settings, s: Parser, nread: nat, log: seq<Event>, hs: seq<Line>, n: nat)
    requires LengthSet(s, n) && At(s, Over) && forall h :: h in hs ==> PlainLine(h)
    ensures Reaches(RunOn(cfg, Going(s, nread, log), LinesText(hs)), n, Over)
    decreases |hs|
  {
    hide FeedByte, LengthSet, LineEnded, PlainLine, LineText;
    if hs != [] {
      var r := Going(s, nread, log);
      var init, h := hs[..|hs| - 1], hs[|hs| - 1];
      LengthStays(cfg, s, nread, log, init, n);
      RunOnConcat(cfg, r, LinesText(init), LineText(h));
      match RunOn(cfg, r, LinesText(init))
      case Going(t, k, l) => LineStays(cfg, t, k, l, h, n);
      case Failed => RunOnFailed(cfg, LineText(h));
    }
  }

  // A request with a Content-Length, with any headers after it: the digits are taken at
  // their exact value, that many bytes are delivered as the body, and the message completes
  // with the last of them. Plain(Ended(t)) says that no header asks for another framing.
  lemma LengthFramesBody(cfg: Settings, s: Parser, nread: nat, log: seq<Event>, ds: seq<byte>, hs: seq<Line>, bs: seq<byte>,
                         t: Parser, k: nat, l: seq<Event>)
    requires s.state == HeaderValueDiscardWs && s.hstate == ContentLength && !s.flags.contentLength && Agrees(cfg)
    requires ds != [] && AllDigits(10, ds) && Number(10, ds) <= DECIMAL_LIMIT && Room(nread, |ds| + 2)
    requires forall h :: h in hs ==> PlainLine(h)
    requires RunOn(cfg, Going(s, nread, log), ds + CRLF + LinesText(hs)) == Going(t, k, l) && Plain(Ended(t)) && Room(k, 2)
    requires |bs| <= Number(10, ds)
    ensures LineEnded(t) && t.contentLength == Number(10, ds)
    ensures var left := t.contentLength - |bs|;
            var u := Ended(t).(contentLength := left, upgrade := false);
            var done := EndedLog(t, l) + [HeadersComplete];
            var delivered := if bs == [] then done else Append(done, Data(Body, bs));
            RunOn(cfg, Going(s, nread, log), ds + CRLF + LinesText(hs) + CRLF + bs) ==
            if 0 < left then Going(u.(state := BodyIdentity), 0, delivered)
            else Going(u.(state := StartReq), 0, delivered + [MessageComplete])
  {
    hide FeedByte, RunOn, Append, Number, AllDigits, Plain, Agrees, PlainLine, LinesText, EndedLog;
    var r := Going(s, nread, log);
    var n := Number(10, ds);
    var head := ds + CRLF + LinesText(hs);
    RunOnConcat(cfg, r, head + CRLF, bs);
    RunOnConcat(cfg, r, head, CRLF);
    LengthAfterLines(cfg, s, nread, log, ds, hs);
    EmptyLine(cfg, t, k, l);
    var v := Ended(t);
    var done := EndedLog(t, l);
    BodyFollows(cfg, v, done, bs);
  }

  // From the digits to the end of the last header.
  lemma LengthAfterLines(cfg: Settings, s: Parser, nread: nat, log: seq<Event>, ds: seq<byte>, hs: seq<Line>)
    requires s.state == HeaderValueDiscardWs && s.hstate == ContentLength && !s.flags.contentLength
    requires ds != [] && AllDigits(10, ds) && Number(10, ds) <= DECIMAL_LIMIT && Room(nread, |ds| + 2)
    requires forall h :: h in hs ==> PlainLine(h)
    ensures Reaches(RunOn(cfg, Going(s, nread, log), ds + CRLF + LinesText(hs)), Number(10, ds), Over)
  {
    hide FeedByte, RunOn, Append, Number, AllDigits, PlainLine, LinesText;
    var r := Going(s, nread, log);
    var u := Reading(s, Number(10, ds));
    var l := Append(log, Data(Value, ds));
    LengthIsExact(cfg, s, nread, log, ds);
    ValueLine(cfg, u, nread + |ds|, l);
    RunOnConcat(cfg, r, ds, CRLF);
    RunOnConcat(cfg, r, ds + CRLF, LinesText(hs));
    LengthStays(cfg, u.(state := HeaderValueLws), nread + |ds| + 2, l, hs, Number(10, ds));
  }

  lemma BodyFollows(cfg: Settings, v: Parser, log: seq<Event>, bs: seq<byte>)
    requires |bs| <= v.contentLength < MAX64
    ensures var left := v.contentLength - |bs|;
            var u := v.(contentLength := left, upgrade := false);
            var done := log + [HeadersComplete];
            var delivered := if bs == [] then done else Append(done, Data(Body, bs));
            RunOn(cfg, AfterHeaders(v, log), bs) ==
            if 0 < left then Going(u.(state := BodyIdentity), 0, delivered)
            else Going(u.(state := StartReq), 0, delivered + [MessageComplete])
  {
    hide FeedByte, RunOn, Append;
    if v.contentLength == 0 {
      NoBytes(cfg, AfterHeaders(v, log));
    } else {
      BodyArrives(cfg, v.(state := BodyIdentity, upgrade := false), 0, log + [HeadersComplete], bs);
    }
  }
}
