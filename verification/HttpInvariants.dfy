/** What every run of the request parser keeps, and when parsing stops. */
module HttpInvariants {
  import opened Common
  import opened HttpMessage
  import opened HttpRun

  predicate InChunks(s: State) {
    s.ChunkSizeStart? || s.ChunkSize? || s.ChunkParameters? || s.ChunkSizeAlmostDone?
    || s.ChunkData? || s.ChunkDataAlmostDone? || s.ChunkDataDone?
  }

  // content_length is a 64-bit count; the value that stands for "none" is never counted down.
  ghost predicate LengthOk(s: Parser) {
    && s.contentLength <= MAX64
    && (s.state == BodyIdentity || s.state == ChunkData ==> 0 < s.contentLength < MAX64)
    && (s.state.ChunkSize? || s.state.ChunkParameters? || s.state.ChunkSizeAlmostDone? ==> s.contentLength < MAX64)
    && (s.state == ChunkDataAlmostDone ==> s.contentLength == 0)
  }

  function NameLength(meth: nat): nat {
    if meth < |METHODS| then |METHODS[meth]| else 0
  }

  // The method name guessed so far goes at least as far as the bytes read.
  ghost predicate MethodOk(s: Parser) {
    s.state == ReqMethod ==> 0 < s.index <= NameLength(s.meth)
  }

  // What the assertions of http_parser_execute rest on, between two bytes.
  ghost predicate Framed(s: Parser, nread: nat) {
    && LengthOk(s) && MethodOk(s)
    && (InChunks(s.state) ==> s.flags.chunked)
    && (s.state == ChunkSizeStart ==> nread == 0)
  }

  // An arm keeps them, and the wish to upgrade stands until the LF that ends the headers.
  ghost predicate Keeps(s: Parser, b: byte, r: ArmResult) {
    !r.Fail? ==>
      && LengthOk(r.s)
      && (r.s.state == ReqMethod ==> s.state == StartReq || s.state == ReqMethod)
      && (InChunks(r.s.state) ==> r.s.flags.chunked)
      && (r.s.state == ChunkSizeStart ==> ResetCount in r.cues)
      && (r.Halt? <==> s.state == HeadersDone && s.upgrade)
      && (r.s.upgrade ==> s.upgrade || (r.Redo? && r.s.state == HeadersDone && b == LF))
      && (r.Halt? ==> r.s.upgrade)
  }

  lemma UrlKeeps(s: Parser, b: byte)
    requires LengthOk(s) && (s.state == ReqSpacesBeforeUrl || IsUrlState(s.state))
    ensures Keeps(s, b, UrlArm(s, b))
  {
    hide ParseUrlChar, CountsDown;
  }

  lemma ConstantKeeps(s: Parser, b: byte)
    requires LengthOk(s)
    requires s.state.ReqHttpH? || s.state.ReqHttpHT? || s.state.ReqHttpHTT? || s.state.ReqHttpHTTP?
             || s.state.ReqHttpI? || s.state.ReqHttpIC?
    ensures Keeps(s, b, ConstantArm(s, b))
  {
  }

  lemma VersionKeeps(s: Parser, b: byte)
    requires LengthOk(s)
    requires s.state.ReqHttpMajor? || s.state.ReqHttpDot? || s.state.ReqHttpMinor?
    ensures Keeps(s, b, VersionArm(s, b))
  {
  }

  lemma LineKeeps(s: Parser, b: byte)
    requires LengthOk(s)
    requires s.state.ReqHttpStart? || s.state.ReqHttpEnd? || s.state.ReqLineAlmostDone?
    ensures Keeps(s, b, VersionArm(s, b))
  {
    hide IsNum, Is, CountsDown;
  }

  lemma StartKeeps(s: Parser, b: byte)
    requires LengthOk(s) && s.state == StartReq
    ensures Keeps(s, b, StartArm(s, b))
  {
    hide IsAlpha, FirstMethod;
  }

  lemma MethodKeeps(s: Parser, b: byte)
    requires LengthOk(s) && s.state == ReqMethod
    ensures Keeps(s, b, MethodArm(s, b))
  {
    hide MethodChar, SwitchMethod;
  }

  // The method string is never read past its terminating NUL.
  lemma MethodStays(cfg: Settings, s: Parser, b: byte)
    requires MethodOk(s) && (s.state == StartReq || s.state == ReqMethod)
    ensures !Arm(cfg, s, b).Fail? ==> MethodOk(Arm(cfg, s, b).s)
  {
    hide Arm, StartArm, MethodArm, NameLength;
    if s.state == StartReq {
      StartIsMethod(cfg, s, b);
      StartStays(s, b);
    } else {
      ReqIsMethod(cfg, s, b);
      ReqStays(s, b);
    }
  }

  lemma StartStays(s: Parser, b: byte)
    requires s.state == StartReq
    ensures !StartArm(s, b).Fail? ==> MethodOk(StartArm(s, b).s)
  {
    hide FirstMethod, IsAlpha, NameLength;
    FirstMethodExists(b);
  }

  lemma ReqStays(s: Parser, b: byte)
    requires s.state == ReqMethod && MethodOk(s)
    ensures !MethodArm(s, b).Fail? ==> MethodOk(MethodArm(s, b).s)
  {
    hide MethodChar, SwitchMethod, NameLength;
    CharInside(s.meth, s.index);
    SwitchGoesFurther(s.meth, s.index, b);
  }

  lemma CharInside(meth: nat, index: nat)
    ensures MethodChar(meth, index) != 0 ==> index < NameLength(meth)
  {
  }

  lemma FirstMethodExists(b: byte)
    ensures FirstMethod(b).Some? ==> 0 < NameLength(FirstMethod(b).value)
  {
  }

  lemma StartIsMethod(cfg: Settings, s: Parser, b: byte)
    requires s.state == StartReq
    ensures Arm(cfg, s, b) == StartArm(s, b)
  {
    hide StartArm;
  }

  lemma ReqIsMethod(cfg: Settings, s: Parser, b: byte)
    requires s.state == ReqMethod
    ensures Arm(cfg, s, b) == MethodArm(s, b)
  {
    hide MethodArm;
  }

  lemma SwitchGoesFurther(meth: nat, index: nat, b: byte)
    requires 0 < index
    ensures SwitchMethod(meth, index, b).Some? ==> index < NameLength(SwitchMethod(meth, index, b).value)
  {
  }

  lemma FieldStartKeeps(s: Parser, b: byte)
    requires LengthOk(s) && s.state == HeaderFieldStart
    ensures Keeps(s, b, FieldStartArm(s, b))
  {
    hide Token, CountsDown, Rank;
  }

  lemma FieldKeeps(s: Parser, b: byte)
    requires LengthOk(s) && s.state == HeaderField
    ensures Keeps(s, b, FieldArm(s, b))
  {
    hide Token, Matched;
  }

  lemma ValueStartKeeps(s: Parser, b: byte)
    requires LengthOk(s) && s.state != HeadersDone
    ensures Keeps(s, b, ValueStartArm(s, b))
  {
    hide Lower;
  }

  lemma ValueCharKeeps(s: Parser, b: byte)
    requires LengthOk(s) && s.state == HeaderValue
    ensures match ValueChar(s, b)
            case Ok(t) => t.contentLength <= MAX64 && t.state == HeaderValue && t.upgrade == s.upgrade
            case Bad(_) => true
  {
    hide Lower, Matched, Token;
  }

  lemma ValueKeeps(s: Parser, b: byte)
    requires LengthOk(s) && s.state == HeaderValue
    ensures Keeps(s, b, ValueArm(s, b))
  {
    hide ValueChar, IsHeaderChar;
    ValueCharKeeps(s, b);
  }

  lemma ValueEndKeeps(s: Parser, b: byte)
    requires LengthOk(s)
    requires s.state.HeaderValueDiscardWs? || s.state.HeaderValueStart? || s.state.HeaderAlmostDone?
             || s.state.HeaderValueDiscardWsAlmostDone?
    ensures Keeps(s, b, ValueEndArm(s, b))
  {
    hide ValueStartArm;
    ValueStartKeeps(s, b);
  }

  lemma ValueLinesKeep(s: Parser, b: byte)
    requires LengthOk(s)
    requires s.state.HeaderValueLws? || s.state.HeaderValueDiscardLws?
    ensures Keeps(s, b, ValueEndArm(s, b))
  {
    hide CountsDown, Rank, ValueStartArm;
  }

  lemma AnsweredKeeps(s: Parser, answer: int)
    requires s.state == HeadersDone
    ensures var r := Answered(s, answer);
            !r.Fail? ==> r.Redo? && (LengthOk(s) ==> LengthOk(r.s)) && r.s.state == HeadersDone && (s.upgrade ==> r.s.upgrade)
  {
  }

  lemma HeadersAlmostDoneKeeps(cfg: Settings, s: Parser, b: byte)
    requires LengthOk(s) && s.state == HeadersAlmostDone
    ensures !s.upgrade ==> Keeps(s, b, HeadersAlmostDoneArm(cfg, s, b))
  {
    hide Answered;
    var t := s.(state := HeadersDone, upgrade := s.flags.upgrade || s.meth == CONNECT);
    AnsweredKeeps(t, cfg.onHeadersComplete(t));
  }

  lemma HeadersDoneKeeps(s: Parser, b: byte)
    requires LengthOk(s) && s.state == HeadersDone
    ensures Keeps(s, b, HeadersDoneArm(s, b))
  {
  }

  lemma MessageDoneKeeps(s: Parser, b: byte)
    requires LengthOk(s) && s.state == MessageDone
    ensures Keeps(s, b, NewMessage(s))
  {
  }

  lemma ChunkSizeKeeps(s: Parser, b: byte)
    requires LengthOk(s) && s.flags.chunked && (s.state.ChunkSizeStart? || s.state.ChunkSize? || s.state.ChunkParameters?)
    ensures Keeps(s, b, ChunkArm(s, b))
  {
    UnhexRange(b);
    hide Unhex;
  }

  lemma UnhexRange(b: byte)
    ensures -1 <= Unhex(b) < 16
  {
  }

  lemma ChunkKeeps(s: Parser, b: byte)
    requires LengthOk(s) && s.flags.chunked
    requires s.state.ChunkSizeAlmostDone? || s.state.ChunkDataAlmostDone? || s.state.ChunkDataDone?
    ensures Keeps(s, b, ChunkArm(s, b))
  {
    hide Unhex;
  }

  lemma BodyKeeps(s: Parser, b: byte)
    requires LengthOk(s) && (s.state == ChunkData ==> s.flags.chunked)
    requires s.state == ChunkData || s.state == BodyIdentity || s.state == BodyIdentityEof
    ensures Keeps(s, b, BodyArm(s, b))
  {
  }

  lemma DeadKeeps(cfg: Settings, s: Parser, b: byte)
    requires LengthOk(s) && s.state == Dead
    ensures Keeps(s, b, Arm(cfg, s, b))
  {
  }

  lemma ArmKeeps(cfg: Settings, s: Parser, b: byte)
    requires LengthOk(s) && (InChunks(s.state) ==> s.flags.chunked) && (s.upgrade ==> s.state == HeadersDone)
    ensures Keeps(s, b, Arm(cfg, s, b))
  {
    hide Keeps, LengthOk, UrlArm, ConstantArm, VersionArm, StartArm, MethodArm, FieldStartArm, FieldArm, ValueArm, NewMessage,
         ValueEndArm, HeadersAlmostDoneArm, HeadersDoneArm, ChunkArm, BodyArm;
    match s.state
    case Dead => DeadKeeps(cfg, s, b);
    case StartReq => StartKeeps(s, b);
    case ReqMethod => MethodKeeps(s, b);
    case HeaderFieldStart => FieldStartKeeps(s, b);
    case HeaderField => FieldKeeps(s, b);
    case HeaderValue => ValueKeeps(s, b);
    case HeaderValueDiscardWs | HeaderValueStart | HeaderAlmostDone | HeaderValueDiscardWsAlmostDone => ValueEndKeeps(s, b);
    case HeaderValueLws | HeaderValueDiscardLws => ValueLinesKeep(s, b);
    case HeadersAlmostDone => HeadersAlmostDoneKeeps(cfg, s, b);
    case HeadersDone => HeadersDoneKeeps(s, b);
    case MessageDone => MessageDoneKeeps(s, b);
    case ChunkSizeStart | ChunkSize | ChunkParameters => ChunkSizeKeeps(s, b);
    case ChunkSizeAlmostDone | ChunkDataAlmostDone | ChunkDataDone => ChunkKeeps(s, b);
    case ChunkData | BodyIdentity | BodyIdentityEof => BodyKeeps(s, b);
    case ReqHttpMajor | ReqHttpDot | ReqHttpMinor => VersionKeeps(s, b);
    case ReqHttpStart | ReqHttpEnd | ReqLineAlmostDone => LineKeeps(s, b);
    case ReqHttpH | ReqHttpHT | ReqHttpHTT | ReqHttpHTTP | ReqHttpI | ReqHttpIC => ConstantKeeps(s, b);
    case _ => UrlKeeps(s, b);
  }

  // The states in which a byte is looked at again -----------------------------------

  predicate LookedAtAgain(s: State) {
    s == HeaderAlmostDone || s == HeaderValueStart || s == HeaderFieldStart || s == HeadersAlmostDone
    || s == HeadersDone || s == MessageDone
  }

  lemma LinesLookAgain(s: Parser, b: byte)
    requires s.state.HeaderValueDiscardWs? || s.state.HeaderValueStart? || s.state.HeaderAlmostDone?
             || s.state.HeaderValueLws? || s.state.HeaderValueDiscardWsAlmostDone? || s.state.HeaderValueDiscardLws?
    ensures ValueEndArm(s, b).Redo? ==> LookedAtAgain(ValueEndArm(s, b).s.state)
  {
    hide ValueStartArm;
  }

  lemma AlmostLooksAgain(cfg: Settings, s: Parser, b: byte)
    requires s.state == HeadersAlmostDone
    ensures var r := HeadersAlmostDoneArm(cfg, s, b); r.Redo? ==> r.s.state == HeadersDone
  {
    hide Answered;
  }

  lemma LooksAgain(cfg: Settings, s: Parser, b: byte)
    ensures Arm(cfg, s, b).Redo? ==> LookedAtAgain(Arm(cfg, s, b).s.state)
  {
    hide UrlArm, ConstantArm, VersionArm, StartArm, MethodArm, FieldStartArm, FieldArm, ValueArm, NewMessage,
         ValueEndArm, HeadersAlmostDoneArm, HeadersDoneArm, ChunkArm, BodyArm;
    match s.state
    case HeaderFieldStart => StartLooksAgain(s, b);
    case HeaderValue => ValueLooksAgain(s, b);
    case BodyIdentity => BodyLooksAgain(s, b);
    case ChunkData => BodyLooksAgain(s, b);
    case BodyIdentityEof => BodyLooksAgain(s, b);
    case HeadersAlmostDone => AlmostLooksAgain(cfg, s, b);
    case HeaderValueDiscardWs => LinesLookAgain(s, b);
    case HeaderValueStart => LinesLookAgain(s, b);
    case HeaderAlmostDone => LinesLookAgain(s, b);
    case HeaderValueLws => LinesLookAgain(s, b);
    case HeaderValueDiscardWsAlmostDone => LinesLookAgain(s, b);
    case HeaderValueDiscardLws => LinesLookAgain(s, b);
    case _ =>
  }

  lemma StartLooksAgain(s: Parser, b: byte)
    requires s.state == HeaderFieldStart
    ensures FieldStartArm(s, b).Redo? ==> FieldStartArm(s, b).s.state == HeadersAlmostDone
  {
    hide Token;
  }

  lemma ValueLooksAgain(s: Parser, b: byte)
    requires s.state == HeaderValue
    ensures ValueArm(s, b).Redo? ==> ValueArm(s, b).s.state == HeaderAlmostDone
  {
    hide ValueChar, IsHeaderChar;
  }

  lemma BodyLooksAgain(s: Parser, b: byte)
    ensures BodyArm(s, b).Redo? ==> BodyArm(s, b).s.state == MessageDone
  {
  }

  // Runs ---------------------------------------------------------------------------

  // A run that goes on has no upgrade pending, one that stopped has.
  ghost predicate Stands(r: Run) {
    match r
    case Going(s, nread, _) => Framed(s, nread) && !s.upgrade
    case Upgraded(s, nread, _, _) => Framed(s, nread) && s.upgrade && s.state == StartReq
    case Failed => true
  }

  lemma {:induction false} ExamineStands(cfg: Settings, s: Parser, nread: nat, log: seq<Event>, b: byte)
    requires LengthOk(s) && MethodOk(s) && (InChunks(s.state) ==> s.flags.chunked)
    requires s.upgrade ==> s.state == HeadersDone && b == LF
    ensures Stands(Examine(cfg, s, nread, log, b))
    decreases Rank(s.state)
  {
    hide Arm, CuesLog, LengthOk, MethodOk, InChunks;
    ArmKeeps(cfg, s, b);
    var r := Arm(cfg, s, b);
    if s.state == StartReq || s.state == ReqMethod {
      MethodStays(cfg, s, b);
    }
    if !r.Fail? {
      OtherMethod(r.s);
    }
    if s.upgrade {
      HeadersDoneGoesOn(cfg, s, b);
    }
    match r
    case Redo(t, cues) => ExamineStands(cfg, t, CuesCount(nread, cues), CuesLog(log, cues, b), b);
    case _ =>
  }

  lemma OtherMethod(s: Parser)
    ensures s.state != ReqMethod ==> MethodOk(s)
  {
  }

  lemma HeadersDoneGoesOn(cfg: Settings, s: Parser, b: byte)
    requires s.state == HeadersDone && b == LF && s.upgrade
    ensures Arm(cfg, s, b).Halt?
  {
  }

  // Every run keeps it, and stops exactly at an upgrade.
  lemma {:induction false} RunStands(cfg: Settings, r: Run, data: seq<byte>)
    requires Stands(r)
    ensures Stands(RunOn(cfg, r, data))
    decreases |data|
  {
    hide Examine, LengthOk, MethodOk;
    if data != [] {
      var init := data[..|data| - 1];
      RunStands(cfg, r, init);
      match RunOn(cfg, r, init)
      case Going(s, nread, log) => ExamineStands(cfg, s, Counted(s.state, nread), log, data[|data| - 1]);
      case _ =>
    }
  }
}
