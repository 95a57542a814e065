/** The assertions of the parser's source: which hold in every run, and when exactly one does not. */
module HttpAssertions {
  import opened Common
  import opened HttpMessage
  import opened HttpRun
  import opened HttpInvariants
  import opened HttpNames

  // The assertions --------------------------------------------------------------

  // The states in which a header name is read; "Unknown header_state" stands for the others.
  predicate NameState(h: HState) {
    h.General? || h.C? || h.CO? || h.CON? || h.MatchingConnection? || h.MatchingProxyConnection?
    || h.MatchingContentLength? || h.MatchingTransferEncoding? || h.MatchingUpgrade?
    || h.Connection? || h.ContentLength? || h.TransferEncoding? || h.Upgrade?
  }

  // What is asserted where byte b is looked at, nread counting it, but for one assertion.
  ghost predicate Asserts(s: Parser, nread: nat, b: byte) {
    match s.state
    case HeaderField => Token(b) != 0 ==> NameState(s.hstate)
    case BodyIdentity => 0 < s.contentLength < MAX64
    case ChunkSizeStart => nread == 1 && s.flags.chunked
    case ChunkSize => s.flags.chunked
    case ChunkParameters => s.flags.chunked
    case ChunkSizeAlmostDone => s.flags.chunked
    case ChunkData => s.flags.chunked && 0 < s.contentLength < MAX64
    case ChunkDataAlmostDone => s.flags.chunked && s.contentLength == 0
    case ChunkDataDone => s.flags.chunked
    case _ => true
  }

  // The one assertion: "Shouldn't get here", among the states of a header value.
  ghost predicate Trapped(s: Parser, b: byte) {
    && s.state == HeaderValue && (s.hstate == Connection || s.hstate == TransferEncoding)
    && b != CR && b != LF && (s.lenient || IsHeaderChar(b))
  }

  // A byte may be looked at several times.
  ghost predicate LooksAssert(cfg: Settings, s: Parser, nread: nat, b: byte)
    decreases Rank(s.state)
  {
    Asserts(s, nread, b) &&
    match Arm(cfg, s, b) case Redo(t, cues) => LooksAssert(cfg, t, CuesCount(nread, cues), b) case _ => true
  }

  ghost predicate LooksTrap(cfg: Settings, s: Parser, b: byte)
    decreases Rank(s.state)
  {
    Trapped(s, b) || match Arm(cfg, s, b) case Redo(t, _) => LooksTrap(cfg, t, b) case _ => false
  }

  // The parser looks at the next byte, unless the headers are too long.
  ghost predicate Looks(r: Run) {
    r.Going? && (ParsingHeader(r.s.state) ==> r.nread < MAX_HEADER_SIZE)
  }

  // All assertions but the one hold at every byte.
  ghost predicate RunAsserts(cfg: Settings, r: Run, data: seq<byte>) {
    data == [] ||
    var init := data[..|data| - 1];
    var now := RunOn(cfg, r, init);
    && RunAsserts(cfg, r, init)
    && (Looks(now) ==> LooksAssert(cfg, now.s, Counted(now.s.state, now.nread), data[|data| - 1]))
  }

  // The one assertion is run into at some byte.
  ghost predicate RunTraps(cfg: Settings, r: Run, data: seq<byte>) {
    data != [] &&
    var init := data[..|data| - 1];
    var now := RunOn(cfg, r, init);
    RunTraps(cfg, r, init) || (Looks(now) && LooksTrap(cfg, now.s, data[|data| - 1]))
  }

  // Second looks --------------------------------------------------------------

  // At a second look nothing is asserted.
  lemma {:induction false} OneLookAsserts(cfg: Settings, s: Parser, nread: nat, b: byte)
    ensures LooksAssert(cfg, s, nread, b) <==> Asserts(s, nread, b)
    decreases Rank(s.state)
  {
    hide Arm;
    LooksAgain(cfg, s, b);
    match Arm(cfg, s, b)
    case Redo(t, cues) => OneLookAsserts(cfg, t, CuesCount(nread, cues), b);
    case _ =>
  }

  lemma {:induction false} OneLookTraps(cfg: Settings, s: Parser, b: byte)
    ensures LooksTrap(cfg, s, b) <==> Trapped(s, b)
    decreases Rank(s.state)
  {
    hide Arm, IsHeaderChar;
    LooksAgain(cfg, s, b);
    match Arm(cfg, s, b)
    case Redo(t, _) => OneLookTraps(cfg, t, b);
    case _ =>
  }

  // The states of names and values ------------------------------------------------

  ghost predicate NamesOk(s: Parser) {
    (s.state == HeaderField ==> NameState(s.hstate)) && (s.state == HeaderValue ==> s.hstate != TransferEncoding)
  }

  predicate InValue(s: State) {
    s == HeaderValue || s == HeaderValueStart || s == HeaderAlmostDone || s == HeaderValueLws
  }

  // An arm that leads to no name and no value.
  ghost predicate Away(r: ArmResult) {
    r.Fail? || (r.s.state != HeaderField && !InValue(r.s.state))
  }

  lemma UrlAway(s: Parser, b: byte)
    requires s.state == ReqSpacesBeforeUrl || IsUrlState(s.state)
    ensures Away(UrlArm(s, b))
  {
    hide CountsDown, Rank, ParseUrlChar;
  }

  lemma VersionAway(s: Parser, b: byte)
    requires s.state.ReqHttpMajor? || s.state.ReqHttpDot? || s.state.ReqHttpMinor?
    ensures Away(VersionArm(s, b))
  {
    hide CountsDown, Rank, IsNum, Is;
  }

  lemma LineAway(s: Parser, b: byte)
    requires s.state.ReqHttpStart? || s.state.ReqHttpEnd? || s.state.ReqLineAlmostDone?
    ensures Away(VersionArm(s, b))
  {
    hide CountsDown, Rank, IsNum, Is;
  }

  lemma ConstantAway(s: Parser, b: byte)
    requires s.state.ReqHttpH? || s.state.ReqHttpHT? || s.state.ReqHttpHTT? || s.state.ReqHttpHTTP?
             || s.state.ReqHttpI? || s.state.ReqHttpIC?
    ensures Away(ConstantArm(s, b))
  {
    hide CountsDown, Rank;
  }

  lemma StartAway(s: Parser, b: byte)
    requires s.state == StartReq
    ensures Away(StartArm(s, b))
  {
    hide CountsDown, Rank, IsAlpha, FirstMethod;
  }

  lemma MethodAway(s: Parser, b: byte)
    requires s.state == ReqMethod
    ensures Away(MethodArm(s, b))
  {
    hide CountsDown, Rank, MethodChar, SwitchMethod;
  }

  lemma HeadersAway(cfg: Settings, s: Parser, b: byte)
    requires s.state == HeadersAlmostDone
    ensures Away(HeadersAlmostDoneArm(cfg, s, b))
  {
    hide CountsDown, Rank, Answered;
  }

  lemma DoneAway(s: Parser, b: byte)
    ensures Away(HeadersDoneArm(s, b)) && Away(NewMessage(s))
  {
    hide CountsDown, Rank;
  }

  lemma ChunkSizeAway(s: Parser, b: byte)
    requires s.state.ChunkSizeStart? || s.state.ChunkSize? || s.state.ChunkParameters?
    ensures Away(ChunkArm(s, b))
  {
    hide Unhex, CountsDown, Is;
  }

  lemma ChunkAway(s: Parser, b: byte)
    requires s.state.ChunkSizeAlmostDone? || s.state.ChunkDataAlmostDone? || s.state.ChunkDataDone?
    ensures Away(ChunkArm(s, b))
  {
    hide Unhex, CountsDown, Is;
  }

  lemma BodyAway(s: Parser, b: byte)
    requires s.state == ChunkData || s.state == BodyIdentity || s.state == BodyIdentityEof
    ensures Away(BodyArm(s, b))
  {
    hide CountsDown, Rank;
  }

  lemma FieldStartNames(s: Parser, b: byte)
    requires s.state == HeaderFieldStart
    ensures var r := FieldStartArm(s, b); !r.Fail? ==> NamesOk(r.s) && !InValue(r.s.state)
  {
    hide CountsDown, Rank, Token;
  }

  lemma FieldNames(s: Parser, b: byte)
    requires s.state == HeaderField && NamesOk(s)
    ensures var r := FieldArm(s, b); !r.Fail? ==> NamesOk(r.s) && !InValue(r.s.state)
  {
    hide CountsDown, Rank, Token, FieldChar;
    FieldCharNames(s, b, Token(b));
  }

  lemma FieldCharNames(s: Parser, b: byte, c: byte)
    requires NameState(s.hstate)
    ensures NameState(FieldChar(s, b, c).hstate)
  {
    hide CountsDown, Rank, MatchNext;
    MatchNames(s, c, "connection", Connection);
    MatchNames(s, c, "proxy-connection", Connection);
    MatchNames(s, c, "content-length", ContentLength);
    MatchNames(s, c, "transfer-encoding", TransferEncoding);
    MatchNames(s, c, "upgrade", Upgrade);
  }

  lemma MatchNames(s: Parser, c: byte, name: string, hit: HState)
    requires NameState(s.hstate) && NameState(hit)
    ensures NameState(MatchNext(s, c, name, General, hit).hstate)
  {
    hide CountsDown, Rank;
  }

  lemma ValueStartNames(s: Parser, b: byte)
    ensures var r := ValueStartArm(s, b);
            r.Fail? || (r.Done? && r.s.state == HeaderValue && r.s.hstate != TransferEncoding && r.s.lenient == s.lenient
                        && (r.s.hstate == Connection <==> s.hstate == Connection && Lower(b) == SP))
  {
    hide CountsDown, Rank, Lower;
    NoTab(b);
  }

  lemma NoTab(b: byte)
    ensures Lower(b) != TAB && (Lower(b) == SP <==> b == 0 || b == SP)
  {
    hide CountsDown, Rank;
  }

  lemma ValueNames(s: Parser, b: byte)
    requires s.state == HeaderValue && s.hstate != TransferEncoding
    ensures var r := ValueArm(s, b);
            && (!r.Fail? && b != CR && b != LF ==> r.Done? && r.s.state == HeaderValue && r.s.hstate != TransferEncoding
                                                   && (r.s.hstate == Connection <==> s.hstate == Connection))
            && (b == CR || b == LF ==> !r.Fail? && r.s == s.(state := HeaderAlmostDone) && (r.Done? <==> b == CR))
  {
    hide CountsDown, Rank, ValueChar, IsHeaderChar;
    ValueCharNames(s, b);
  }

  lemma ValueCharNames(s: Parser, b: byte)
    requires s.state == HeaderValue && s.hstate != TransferEncoding
    ensures match ValueChar(s, b)
            case Ok(t) => t.hstate != TransferEncoding && (t.hstate == Connection <==> s.hstate == Connection)
            case Bad(_) => true
  {
    hide CountsDown, Rank, Lower, Token, IsNum;
  }

  lemma LinesNames(s: Parser, b: byte)
    requires s.state.HeaderValueDiscardWs? || s.state.HeaderAlmostDone? || s.state.HeaderValueLws?
             || s.state.HeaderValueDiscardWsAlmostDone? || s.state.HeaderValueDiscardLws? || s.state.HeaderValueStart?
    ensures var r := ValueEndArm(s, b); !r.Fail? ==> NamesOk(r.s) && (r.Done? ==> r.s.state != HeaderValueStart)
  {
    hide CountsDown, Rank, ValueStartArm;
    ValueStartNames(s, b);
  }

  // What an arm makes of the states of names and values.
  lemma ArmNames(cfg: Settings, s: Parser, b: byte)
    requires NamesOk(s)
    ensures var r := Arm(cfg, s, b); !r.Fail? ==> NamesOk(r.s) && (r.Done? || r.Halt? ==> r.s.state != HeaderValueStart)
  {
    hide CountsDown, Rank, UrlArm, ConstantArm, VersionArm, StartArm, MethodArm, FieldStartArm, FieldArm, ValueArm, NewMessage,
         ValueEndArm, HeadersAlmostDoneArm, HeadersDoneArm, ChunkArm, BodyArm;
    match s.state
    case Dead =>
    case StartReq => StartAway(s, b);
    case ReqMethod => MethodAway(s, b);
    case HeaderFieldStart => FieldStartNames(s, b);
    case HeaderField => FieldNames(s, b);
    case HeaderValue => ValueNames(s, b);
    case HeaderValueDiscardWs | HeaderValueStart | HeaderAlmostDone | HeaderValueDiscardWsAlmostDone
       | HeaderValueLws | HeaderValueDiscardLws => LinesNames(s, b);
    case HeadersAlmostDone => HeadersAway(cfg, s, b);
    case HeadersDone => DoneAway(s, b);
    case MessageDone => DoneAway(s, b);
    case ChunkSizeStart | ChunkSize | ChunkParameters => ChunkSizeAway(s, b);
    case ChunkSizeAlmostDone | ChunkDataAlmostDone | ChunkDataDone => ChunkAway(s, b);
    case ChunkData | BodyIdentity | BodyIdentityEof => BodyAway(s, b);
    case ReqHttpMajor | ReqHttpDot | ReqHttpMinor => VersionAway(s, b);
    case ReqHttpStart | ReqHttpEnd | ReqLineAlmostDone => LineAway(s, b);
    case ReqHttpH | ReqHttpHT | ReqHttpHTT | ReqHttpHTTP | ReqHttpI | ReqHttpIC => ConstantAway(s, b);
    case _ => UrlAway(s, b);
  }

  // Between two bytes.
  ghost predicate Between(r: Run) {
    r.Going? ==> NamesOk(r.s) && r.s.state != HeaderValueStart
  }

  lemma {:induction false} ExamineNames(cfg: Settings, s: Parser, nread: nat, log: seq<Event>, b: byte)
    requires NamesOk(s)
    ensures Between(Examine(cfg, s, nread, log, b))
    decreases Rank(s.state)
  {
    hide Arm, CuesLog, NamesOk;
    ArmNames(cfg, s, b);
    match Arm(cfg, s, b)
    case Redo(t, cues) => ExamineNames(cfg, t, CuesCount(nread, cues), CuesLog(log, cues, b), b);
    case _ =>
  }

  lemma {:induction false} RunNames(cfg: Settings, r: Run, data: seq<byte>)
    requires Between(r)
    ensures Between(RunOn(cfg, r, data))
    decreases |data|
  {
    hide Examine, NamesOk;
    if data != [] {
      var init := data[..|data| - 1];
      RunNames(cfg, r, init);
      match RunOn(cfg, r, init)
      case Going(s, nread, log) => ExamineNames(cfg, s, Counted(s.state, nread), log, data[|data| - 1]);
      case _ =>
    }
  }

  // All assertions of the source but one hold at every byte of every run.
  lemma {:induction false} AssertionsHold(cfg: Settings, r: Run, data: seq<byte>)
    requires Stands(r) && Between(r)
    ensures RunAsserts(cfg, r, data)
    decreases |data|
  {
    hide RunOn, LooksAssert, NameState, Token;
    if data != [] {
      var init := data[..|data| - 1];
      AssertionsHold(cfg, r, init);
      RunNames(cfg, r, init);
      RunStands(cfg, r, init);
      var now := RunOn(cfg, r, init);
      if now.Going? {
        OneLookAsserts(cfg, now.s, Counted(now.s.state, now.nread), data[|data| - 1]);
      }
    }
  }

  // The one that does not ----------------------------------------------------------

  // The name Connection or Proxy-Connection has been read, and nothing of a value.
  predicate Awaits(s: Parser) { s.state == HeaderValueDiscardWs && s.hstate == Connection }

  // After a value that begins with NUL, up to folded lines.
  predicate Stuck(s: Parser) { s.state == HeaderValue && s.hstate == Connection }
  predicate StuckCr(s: Parser) { s.state == HeaderAlmostDone && s.hstate == Connection }
  predicate StuckLf(s: Parser) { s.state == HeaderValueLws && s.hstate == Connection }

  // Folded lines: line breaks, each with one space behind it.
  predicate Folded(z: seq<byte>) {
    z == [] ||
    (|z| >= 2 && z[|z| - 1] == SP && z[|z| - 2] == LF &&
     (Folded(z[..|z| - 2]) || (|z| >= 3 && z[|z| - 3] == CR && Folded(z[..|z| - 3]))))
  }

  // At i a Connection or Proxy-Connection value begins with NUL.
  ghost predicate Opens(cfg: Settings, r: Run, data: seq<byte>, i: nat) {
    i < |data| && data[i] == 0 && RunOn(cfg, r, data[..i]).Going? && Awaits(RunOn(cfg, r, data[..i]).s)
  }

  // How an arm leads there.
  ghost predicate Leads(s: Parser, b: byte, r: ArmResult) {
    && (r.Done? ==>
          && (Stuck(r.s) ==> Begins(s, b) || Trapped(s, b))
          && (StuckCr(r.s) ==> Stuck(s) && b == CR) && (StuckLf(r.s) ==> StuckCr(s) && b == LF))
    && (r.Redo? ==>
          && (r.s.state == HeaderValueStart && r.s.hstate == Connection ==> StuckLf(s) && (b == SP || b == TAB))
          && (StuckCr(r.s) ==> Stuck(s) && b == LF))
  }

  // A value begins, of a header or of a folded line.
  predicate Begins(s: Parser, b: byte) {
    (Awaits(s) && b == 0) || (s.state == HeaderValueStart && s.hstate == Connection && (b == 0 || b == SP))
  }

  lemma ValueLeads(s: Parser, b: byte)
    requires s.state == HeaderValue && s.hstate != TransferEncoding
    ensures Leads(s, b, ValueArm(s, b))
  {
    hide ValueArm, IsHeaderChar;
    ValueNames(s, b);
    ValueAccepts(s, b);
  }

  lemma ValueAccepts(s: Parser, b: byte)
    requires s.state == HeaderValue
    ensures b != CR && b != LF && !ValueArm(s, b).Fail? ==> s.lenient || IsHeaderChar(b)
  {
    hide ValueChar, IsHeaderChar;
  }

  lemma LinesLead(s: Parser, b: byte)
    requires s.state.HeaderValueDiscardWs? || s.state.HeaderAlmostDone? || s.state.HeaderValueLws?
             || s.state.HeaderValueDiscardWsAlmostDone? || s.state.HeaderValueDiscardLws? || s.state.HeaderValueStart?
    ensures Leads(s, b, ValueEndArm(s, b))
  {
    hide ValueStartArm, Lower;
    ValueStartNames(s, b);
    NoTab(b);
  }

  lemma ArmLeads(cfg: Settings, s: Parser, b: byte)
    requires NamesOk(s)
    ensures Leads(s, b, Arm(cfg, s, b))
  {
    hide UrlArm, ConstantArm, VersionArm, StartArm, MethodArm, FieldStartArm, FieldArm, ValueArm, NewMessage,
         ValueEndArm, HeadersAlmostDoneArm, HeadersDoneArm, ChunkArm, BodyArm;
    match s.state
    case Dead =>
    case StartReq => StartAway(s, b);
    case ReqMethod => MethodAway(s, b);
    case HeaderFieldStart => FieldStartNames(s, b);
    case HeaderField => FieldNames(s, b);
    case HeaderValue => ValueLeads(s, b);
    case HeaderValueDiscardWs | HeaderValueStart | HeaderAlmostDone | HeaderValueDiscardWsAlmostDone
       | HeaderValueLws | HeaderValueDiscardLws => LinesLead(s, b);
    case HeadersAlmostDone => HeadersAway(cfg, s, b);
    case HeadersDone => DoneAway(s, b);
    case MessageDone => DoneAway(s, b);
    case ChunkSizeStart | ChunkSize | ChunkParameters => ChunkSizeAway(s, b);
    case ChunkSizeAlmostDone | ChunkDataAlmostDone | ChunkDataDone => ChunkAway(s, b);
    case ChunkData | BodyIdentity | BodyIdentityEof => BodyAway(s, b);
    case ReqHttpMajor | ReqHttpDot | ReqHttpMinor => VersionAway(s, b);
    case ReqHttpStart | ReqHttpEnd | ReqLineAlmostDone => LineAway(s, b);
    case ReqHttpH | ReqHttpHT | ReqHttpHTT | ReqHttpHTTP | ReqHttpI | ReqHttpIC => ConstantAway(s, b);
    case _ => UrlAway(s, b);
  }

  // How a byte leads there.
  lemma {:induction false} HowStuck(cfg: Settings, s: Parser, nread: nat, log: seq<Event>, b: byte)
    requires NamesOk(s)
    ensures var r := Examine(cfg, s, nread, log, b);
            r.Going? ==>
              && (Stuck(r.s) ==> Begins(s, b) || (StuckLf(s) && b == SP) || Trapped(s, b))
              && (StuckCr(r.s) ==> Stuck(s) && b == CR)
              && (StuckLf(r.s) ==> (StuckCr(s) || Stuck(s)) && b == LF)
    decreases Rank(s.state)
  {
    hide Arm, CuesLog, WithByte, IsHeaderChar;
    ArmLeads(cfg, s, b);
    ArmNames(cfg, s, b);
    LooksAgain(cfg, s, b);
    match Arm(cfg, s, b)
    case Redo(t, cues) => HowStuck(cfg, t, CuesCount(nread, cues), CuesLog(log, cues, b), b);
    case _ =>
  }

  // Of a run over n bytes that has come to no trap, stuck or on the way: the NUL that it comes from.
  ghost predicate ComesFrom(cfg: Settings, r: Run, data: seq<byte>, n: nat, i: nat, s: Parser)
    requires n <= |data|
  {
    && (Stuck(s) ==> i < n && Opens(cfg, r, data, i) && Folded(data[i + 1..n]))
    && (StuckCr(s) ==> i + 1 < n && Opens(cfg, r, data, i) && data[n - 1] == CR && Folded(data[i + 1..n - 1]))
    && (StuckLf(s) ==> i + 1 < n && Opens(cfg, r, data, i) && FoldedLf(data, i, n))
  }

  // Folded lines, and a line break.
  ghost predicate FoldedLf(data: seq<byte>, i: nat, n: nat)
    requires i + 1 < n <= |data|
  {
    data[n - 1] == LF && (Folded(data[i + 1..n - 1]) || (i + 2 < n && data[n - 2] == CR && Folded(data[i + 1..n - 2])))
  }

  // A run that begins elsewhere.
  ghost predicate Fresh(r: Run) {
    r.Going? && NamesOk(r.s) && r.s.state != HeaderValueStart && !Stuck(r.s) && !StuckCr(r.s) && !StuckLf(r.s)
  }

  lemma {:induction false} StuckComesFrom(cfg: Settings, r: Run, data: seq<byte>, n: nat) returns (i: nat)
    requires Fresh(r) && n <= |data| && !RunTraps(cfg, r, data[..n])
    ensures RunOn(cfg, r, data[..n]).Going? ==> ComesFrom(cfg, r, data, n, i, RunOn(cfg, r, data[..n]).s)
    decreases n
  {
    hide RunOn, FeedByte, Examine, LooksTrap, Trapped, NamesOk, ComesFrom;
    if n == 0 {
      i := 0;
      NothingRun(cfg, r, data);
    } else {
      assert data[..n][..n - 1] == data[..n - 1];
      var j := StuckComesFrom(cfg, r, data, n - 1);
      RunNames(cfg, r, data[..n - 1]);
      i := OneMoreByte(cfg, r, data, n, j);
    }
  }

  lemma NothingRun(cfg: Settings, r: Run, data: seq<byte>)
    requires Fresh(r)
    ensures RunOn(cfg, r, data[..0]) == r && ComesFrom(cfg, r, data, 0, 0, r.s)
  {
  }

  lemma OneMoreByte(cfg: Settings, r: Run, data: seq<byte>, n: nat, j: nat) returns (i: nat)
    requires 0 < n <= |data| && !RunTraps(cfg, r, data[..n]) && Between(RunOn(cfg, r, data[..n - 1]))
    requires var now := RunOn(cfg, r, data[..n - 1]); now.Going? ==> ComesFrom(cfg, r, data, n - 1, j, now.s)
    ensures RunOn(cfg, r, data[..n]).Going? ==> ComesFrom(cfg, r, data, n, i, RunOn(cfg, r, data[..n]).s)
  {
    hide Examine, LooksTrap, Trapped, NamesOk, Arm, ComesFrom, Folded;
    var b := data[n - 1];
    assert data[..n][..n - 1] == data[..n - 1];
    var now := RunOn(cfg, r, data[..n - 1]);
    i := j;
    if RunOn(cfg, r, data[..n]).Going? {
      assert Looks(now);
      OneLookTraps(cfg, now.s, b);
      HowStuck(cfg, now.s, Counted(now.s.state, now.nread), now.log, b);
      var t := RunOn(cfg, r, data[..n]).s;
      if Stuck(t) && Awaits(now.s) && b == 0 {
        i := n - 1;
        NulOpens(cfg, r, data, n, t);
      } else {
        Longer(cfg, r, data, n, j, now.s, t);
      }
    }
  }

  lemma NulOpens(cfg: Settings, r: Run, data: seq<byte>, n: nat, t: Parser)
    requires 0 < n <= |data| && Opens(cfg, r, data, n - 1) && Stuck(t)
    ensures ComesFrom(cfg, r, data, n, n - 1, t)
  {
    hide Opens;
    assert data[n..n] == [];
  }

  // The last byte goes on with the folded lines.
  lemma Longer(cfg: Settings, r: Run, data: seq<byte>, n: nat, i: nat, s: Parser, t: Parser)
    requires 0 < n <= |data| && ComesFrom(cfg, r, data, n - 1, i, s)
    requires var b := data[n - 1];
             && (Stuck(t) ==> StuckLf(s) && b == SP)
             && (StuckCr(t) ==> Stuck(s) && b == CR)
             && (StuckLf(t) ==> (StuckCr(s) || Stuck(s)) && b == LF)
    ensures ComesFrom(cfg, r, data, n, i, t)
  {
    hide Opens;
    if Stuck(t) {
      SpaceFolds(data, i, n);
    }
  }

  lemma SpaceFolds(data: seq<byte>, i: nat, n: nat)
    requires i + 2 < n <= |data| && data[n - 1] == SP && FoldedLf(data, i, n - 1)
    ensures Folded(data[i + 1..n])
  {
    var z := data[i + 1..n];
    assert z[..|z| - 2] == data[i + 1..n - 2];
    if !Folded(data[i + 1..n - 2]) {
      assert z[..|z| - 3] == data[i + 1..n - 3];
    }
  }

  // The other direction ---------------------------------------------------------------

  // After the NUL, folded lines leave the parser where it was.
  lemma {:induction false} StuckAfter(cfg: Settings, r: Run, data: seq<byte>, i: nat, k: nat)
    requires Opens(cfg, r, data, i) && i < k <= |data| && Folded(data[i + 1..k]) && RunOn(cfg, r, data[..k]).Going?
    ensures Stuck(RunOn(cfg, r, data[..k]).s)
    decreases k
  {
    hide RunOn, FeedByte, Opens, Stuck, StuckCr, StuckLf;
    var z := data[i + 1..k];
    if k == i + 1 {
      NulSticks(cfg, r, data, i);
    } else {
      GoingBefore(cfg, r, data, k - 1, k);
      GoingBefore(cfg, r, data, k - 2, k);
      assert data[k - 1] == SP && data[k - 2] == LF;
      if Folded(z[..|z| - 2]) {
        assert z[..|z| - 2] == data[i + 1..k - 2];
        StuckAfter(cfg, r, data, i, k - 2);
      } else {
        assert z[..|z| - 3] == data[i + 1..k - 3] && data[k - 3] == CR;
        GoingBefore(cfg, r, data, k - 3, k);
        StuckAfter(cfg, r, data, i, k - 3);
        ByteSticks(cfg, r, data, k - 3);
      }
      ByteSticks(cfg, r, data, k - 2);
      ByteSticks(cfg, r, data, k - 1);
    }
  }

  lemma NulSticks(cfg: Settings, r: Run, data: seq<byte>, i: nat)
    requires Opens(cfg, r, data, i) && RunOn(cfg, r, data[..i + 1]).Going?
    ensures Stuck(RunOn(cfg, r, data[..i + 1]).s)
  {
    hide Arm, CuesLog, WithByte;
    assert data[..i + 1][..i] == data[..i];
    NulArm(cfg, RunOn(cfg, r, data[..i]).s);
  }

  lemma NulArm(cfg: Settings, s: Parser)
    requires Awaits(s)
    ensures Arm(cfg, s, 0).Done? && Stuck(Arm(cfg, s, 0).s)
  {
    hide ValueStartArm;
    assert Arm(cfg, s, 0) == ValueEndArm(s, 0);
    NulStarts(s);
  }

  lemma NulStarts(s: Parser)
    requires s.hstate == Connection
    ensures ValueStartArm(s, 0).Done? && Stuck(ValueStartArm(s, 0).s)
  {
  }

  lemma CrArm(cfg: Settings, s: Parser)
    requires Stuck(s)
    ensures Arm(cfg, s, CR).Done? && StuckCr(Arm(cfg, s, CR).s)
    ensures Arm(cfg, s, LF).Redo? && StuckCr(Arm(cfg, s, LF).s)
  {
    assert Arm(cfg, s, CR) == ValueArm(s, CR) && Arm(cfg, s, LF) == ValueArm(s, LF);
  }

  lemma LfArm(cfg: Settings, s: Parser)
    requires StuckCr(s)
    ensures Arm(cfg, s, LF).Done? && StuckLf(Arm(cfg, s, LF).s)
  {
    assert Arm(cfg, s, LF) == ValueEndArm(s, LF);
  }

  lemma FoldArm(cfg: Settings, s: Parser)
    requires StuckLf(s)
    ensures var r := Arm(cfg, s, SP); r.Redo? && r.s.state == HeaderValueStart && r.s.hstate == Connection
  {
    assert Arm(cfg, s, SP) == ValueEndArm(s, SP);
  }

  lemma SpaceArm(cfg: Settings, s: Parser)
    requires s.state == HeaderValueStart && s.hstate == Connection
    ensures Arm(cfg, s, SP).Done? && Stuck(Arm(cfg, s, SP).s)
  {
    hide ValueStartArm;
    assert Arm(cfg, s, SP) == ValueStartArm(s, SP);
    ValueStartNames(s, SP);
    NoTab(SP);
    SpaceStarts(s);
  }

  lemma SpaceStarts(s: Parser)
    requires s.hstate == Connection
    ensures !ValueStartArm(s, SP).Fail?
  {
    hide Lower;
  }

  // CR, LF and a space, each where it is expected.
  lemma ByteSticks(cfg: Settings, r: Run, data: seq<byte>, k: nat)
    requires k < |data| && RunOn(cfg, r, data[..k]).Going? && RunOn(cfg, r, data[..k + 1]).Going?
    ensures var s, t := RunOn(cfg, r, data[..k]).s, RunOn(cfg, r, data[..k + 1]).s;
            && (Stuck(s) && data[k] == CR ==> StuckCr(t)) && ((Stuck(s) || StuckCr(s)) && data[k] == LF ==> StuckLf(t))
            && (StuckLf(s) && data[k] == SP ==> Stuck(t))
  {
    hide Arm, CuesLog, WithByte, Examine;
    assert data[..k + 1][..k] == data[..k];
    var now := RunOn(cfg, r, data[..k]);
    Sticks(cfg, now.s, Counted(now.s.state, now.nread), now.log, data[k]);
  }

  lemma Sticks(cfg: Settings, s: Parser, nread: nat, log: seq<Event>, b: byte)
    ensures var r := Examine(cfg, s, nread, log, b);
            && (Stuck(s) && b == CR ==> r.Going? && StuckCr(r.s))
            && ((Stuck(s) || StuckCr(s)) && b == LF ==> r.Going? && StuckLf(r.s))
            && (StuckLf(s) && b == SP ==> r.Going? && Stuck(r.s))
  {
    hide CuesLog, WithByte, Arm;
    if Stuck(s) {
      CrArm(cfg, s);
      if b == LF {
        LfArm(cfg, Arm(cfg, s, LF).s);
      }
    } else if StuckCr(s) {
      LfArm(cfg, s);
    } else if StuckLf(s) {
      FoldArm(cfg, s);
      if b == SP {
        SpaceArm(cfg, Arm(cfg, s, SP).s);
      }
    }
  }

  lemma GoingBefore(cfg: Settings, r: Run, data: seq<byte>, a: nat, k: nat)
    requires a <= k <= |data| && RunOn(cfg, r, data[..k]).Going?
    ensures RunOn(cfg, r, data[..a]).Going?
  {
    hide FeedByte;
    assert data[..k] == data[..a] + data[a..k];
    RunOnConcat(cfg, r, data[..a], data[a..k]);
    match RunOn(cfg, r, data[..a])
    case Going(_, _, _) =>
    case Failed => RunOnFailed(cfg, data[a..k]);
    case Upgraded(_, _, _, _) => RunOnUpgraded(cfg, RunOn(cfg, r, data[..a]), data[a..k]);
  }

  lemma {:induction false} TrapsLater(cfg: Settings, r: Run, data: seq<byte>, k: nat)
    requires k <= |data| && RunTraps(cfg, r, data[..k])
    ensures RunTraps(cfg, r, data)
    decreases |data|
  {
    hide RunOn, LooksTrap, Looks;
    if k == |data| {
      assert data[..k] == data;
    } else {
      assert data[..|data| - 1][..k] == data[..k];
      TrapsLater(cfg, r, data[..|data| - 1], k);
    }
  }

  // At i a Connection or Proxy-Connection value begins with NUL; then come folded lines at
  // most, and at j a byte that is accepted and ends no line.
  ghost predicate Trap(cfg: Settings, r: Run, data: seq<byte>, i: nat, j: nat) {
    && i < j < |data| && Opens(cfg, r, data, i) && Folded(data[i + 1..j]) && data[j] != CR && data[j] != LF
    && Looks(RunOn(cfg, r, data[..j])) && (RunOn(cfg, r, data[..j]).s.lenient || IsHeaderChar(data[j]))
  }

  lemma TrapTraps(cfg: Settings, r: Run, data: seq<byte>, i: nat, j: nat)
    requires Trap(cfg, r, data, i, j)
    ensures RunTraps(cfg, r, data)
  {
    hide RunOn, FeedByte, Opens, IsHeaderChar;
    StuckAfter(cfg, r, data, i, j);
    assert data[..j + 1][..j] == data[..j];
    OneLookTraps(cfg, RunOn(cfg, r, data[..j]).s, data[j]);
    TrapsLater(cfg, r, data, j + 1);
  }

  lemma {:induction false} TrapFound(cfg: Settings, r: Run, data: seq<byte>) returns (i: nat, j: nat)
    requires Fresh(r) && RunTraps(cfg, r, data)
    ensures Trap(cfg, r, data, i, j)
    decreases |data|
  {
    hide RunOn, FeedByte, IsHeaderChar, Folded, LooksTrap;
    var last := |data| - 1;
    var init := data[..last];
    if RunTraps(cfg, r, init) {
      i, j := TrapFound(cfg, r, init);
      assert init[..i] == data[..i] && init[i + 1..j] == data[i + 1..j] && init[..j] == data[..j];
    } else {
      j := last;
      i := StuckComesFrom(cfg, r, data, last);
      RunNames(cfg, r, init);
      OneLookTraps(cfg, RunOn(cfg, r, init).s, data[last]);
    }
  }

  // The assertion "Shouldn't get here" fails exactly if somewhere a Connection or
  // Proxy-Connection value begins with NUL and a further byte of it is accepted.
  lemma TrapIsNul(cfg: Settings, r: Run, data: seq<byte>)
    requires Fresh(r)
    ensures RunTraps(cfg, r, data) <==> exists i, j :: Trap(cfg, r, data, i, j)
  {
    hide RunTraps, Trap;
    if RunTraps(cfg, r, data) {
      var i, j := TrapFound(cfg, r, data);
    }
    forall i, j | Trap(cfg, r, data, i, j)
      ensures RunTraps(cfg, r, data)
    {
      TrapTraps(cfg, r, data, i, j);
    }
  }

  // Such an input: the header's name and colon, NUL and one more byte.
  lemma NulTraps(cfg: Settings, s: Parser, nread: nat, log: seq<Event>, name: seq<byte>, b: byte)
    requires s.state == HeaderFieldStart && IsName(name) && nread + |name| + 3 <= MAX_HEADER_SIZE
    requires Same(Tokens(name), "connection") || Same(Tokens(name), "proxy-connection")
    requires b != CR && b != LF && IsHeaderChar(b)
    ensures RunTraps(cfg, Going(s, nread, log), name + [':' as int] + [0, b])
  {
    hide FeedByte, IsHeaderChar, RunTraps, Same, Token, Append;
    var r := Going(s, nread, log);
    var head := name + [':' as int];
    var data := head + [0, b];
    var i := |head|;
    var t := NameIsRecognised(cfg, s, nread, log, name);
    assert data[..i] == head;
    NulGoesOn(cfg, t.(state := HeaderValueDiscardWs), nread + |name| + 1, Append(log, Data(Field, name)));
    assert data[..i + 1][..i] == head;
    assert data[i + 1..i + 1] == [];
    TrapTraps(cfg, r, data, i, i + 1);
  }

  lemma NulGoesOn(cfg: Settings, s: Parser, nread: nat, log: seq<Event>)
    requires Awaits(s) && nread + 1 < MAX_HEADER_SIZE
    ensures Looks(FeedByte(cfg, Going(s, nread, log), 0))
  {
    hide Append, Arm;
    NulArm(cfg, s);
  }
}
