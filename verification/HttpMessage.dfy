/** The HTTP/1 request parser one byte at a time: states, tables and the transition for each byte. */
module HttpMessage {
  import opened Common

  const MAX64: nat := 0xFFFF_FFFF_FFFF_FFFF
  const MAX_HEADER_SIZE: nat := 80 * 1024

  const CR: byte := 13
  const LF: byte := 10
  const SP: byte := 32
  const TAB: byte := 9

  datatype State =
    | Dead | StartReq
    | ReqMethod | ReqSpacesBeforeUrl | ReqSchema | ReqSchemaSlash | ReqSchemaSlashSlash
    | ReqServerStart | ReqServer | ReqServerWithAt | ReqPath | ReqQueryStringStart | ReqQueryString
    | ReqHttpStart | ReqHttpH | ReqHttpHT | ReqHttpHTT | ReqHttpHTTP | ReqHttpI | ReqHttpIC
    | ReqHttpMajor | ReqHttpDot | ReqHttpMinor | ReqHttpEnd | ReqLineAlmostDone
    | HeaderFieldStart | HeaderField
    | HeaderValueDiscardWs | HeaderValueDiscardWsAlmostDone | HeaderValueDiscardLws
    | HeaderValueStart | HeaderValue | HeaderValueLws | HeaderAlmostDone
    | ChunkSizeStart | ChunkSize | ChunkParameters | ChunkSizeAlmostDone
    | HeadersAlmostDone | HeadersDone
    | ChunkData | ChunkDataAlmostDone | ChunkDataDone
    | BodyIdentity | BodyIdentityEof
    | MessageDone

  predicate ParsingHeader(s: State) {
    !(s.ChunkData? || s.ChunkDataAlmostDone? || s.ChunkDataDone? || s.BodyIdentity? || s.BodyIdentityEof? || s.MessageDone?)
  }

  predicate IsUrlState(s: State) {
    s.ReqPath? || s.ReqSchema? || s.ReqSchemaSlash? || s.ReqSchemaSlashSlash? || s.ReqServerStart? ||
    s.ReqServer? || s.ReqServerWithAt? || s.ReqQueryStringStart? || s.ReqQueryString?
  }

  datatype HState =
    | General | C | CO | CON
    | MatchingConnection | MatchingProxyConnection | MatchingContentLength | MatchingTransferEncoding | MatchingUpgrade
    | Connection | ContentLength | ContentLengthNum | ContentLengthWs | TransferEncoding | Upgrade
    | MatchingTokenStart | MatchingChunked | MatchingToken
    | MatchingKeepAlive | MatchingClose
    | Chunked | KeepAlive | Close

  datatype Flags = Flags(chunked: bool, keepAlive: bool, close: bool, trailing: bool,
                         upgrade: bool, skipBody: bool, contentLength: bool)

  const NO_FLAGS := Flags(false, false, false, false, false, false, false)

  datatype Errno =
    | OK | CB_HEADERS_COMPLETE | INVALID_EOF_STATE | HEADER_OVERFLOW | CLOSED_CONNECTION | INVALID_VERSION
    | INVALID_METHOD | INVALID_URL | LF_EXPECTED | INVALID_HEADER_TOKEN | INVALID_CONTENT_LENGTH
    | UNEXPECTED_CONTENT_LENGTH | INVALID_CHUNK_SIZE | INVALID_CONSTANT | STRICT | INVALID_TRANSFER_ENCODING

  type Failure = e: Errno | e != OK witness STRICT

  datatype Parser = Parser(state: State, hstate: HState, index: nat, flags: Flags, usesTransferEncoding: bool,
                           allowChunkedLength: bool, lenient: bool, contentLength: nat,
                           major: nat, minor: nat, meth: nat, upgrade: bool)

  // http_parser_init
  const INITIAL := Parser(StartReq, General, 0, NO_FLAGS, false, false, false, 0, 0, 0, 0, false)

  // Callbacks ------------------------------------------------------------

  datatype Kind = Url | Field | Value | Body

  datatype Event = MessageBegin | HeadersComplete | MessageComplete | Data(kind: Kind, bytes: seq<byte>)

  // What an arm of the parser does besides changing the state: set a mark, run
  // the data callback from the mark up to here, deliver this body byte, notify,
  // or start to count header bytes (nread) again.
  datatype Cue = Mark(kind: Kind) | Flush(kind: Kind) | BodyByte | Note(event: Event) | ResetCount

  // The result of on_headers_complete may depend on the parser.
  datatype Settings = Settings(onHeadersComplete: Parser -> int)

  // Character classes ----------------------------------------------------

  // c | 0x20
  function Lower(b: byte): byte {
    if (b / 32) % 2 == 0 then b + 32 else b
  }

  predicate IsAlpha(b: byte) { 'a' as int <= Lower(b) <= 'z' as int }

  predicate IsNum(b: byte) { '0' as int <= b <= '9' as int }

  predicate IsUpper(b: byte) { 'A' as int <= b <= 'Z' as int }

  predicate IsIn(b: byte, s: string) { exists i :: 0 <= i < |s| && s[i] as int == b }

  predicate IsUserinfoChar(b: byte) {
    IsAlpha(b) || IsNum(b) || IsIn(b, "-_.!~*'()") || IsIn(b, "%;:&=+$,")
  }

  // The header token table: the lower-case character, or 0.
  function Token(b: byte): byte {
    if IsUpper(b) then b + 32
    else if 'a' as int <= b <= 'z' as int || IsNum(b) || IsIn(b, "!#$%&'*+-.^_`|~") then b
    else 0
  }

  predicate IsUrlChar(b: byte) { 33 <= b <= 126 && b != '#' as int && b != '?' as int }

  predicate IsHeaderChar(b: byte) { b == CR || b == LF || b == TAB || (31 < b && b != 127) }

  // The unhex table; it is only filled up to 127, so larger bytes read as 0.
  function Unhex(b: byte): int {
    if IsNum(b) then b - '0' as int
    else if 'A' as int <= b <= 'F' as int then b - 'A' as int + 10
    else if 'a' as int <= b <= 'f' as int then b - 'a' as int + 10
    else if b < 128 then -1
    else 0
  }

  const METHODS: seq<string> := [
    "DELETE", "GET", "HEAD", "POST", "PUT", "CONNECT", "OPTIONS", "TRACE", "PATCH", "PURGE",
    "COPY", "LOCK", "MKCOL", "MOVE", "PROPFIND", "PROPPATCH", "SEARCH", "UNLOCK", "BIND", "REBIND",
    "UNBIND", "ACL", "REPORT", "MKACTIVITY", "CHECKOUT", "MERGE", "M-SEARCH", "NOTIFY", "SUBSCRIBE",
    "UNSUBSCRIBE", "MKCALENDAR", "LINK", "UNLINK", "SOURCE"]

  const GET := 1
  const POST := 3
  const PUT := 4
  const CONNECT := 5
  const OPTIONS := 6
  const TRACE := 7
  const PATCH := 8
  const PURGE := 9
  const COPY := 10
  const LOCK := 11
  const MKCOL := 12
  const MOVE := 13
  const PROPFIND := 14
  const PROPPATCH := 15
  const SEARCH := 16
  const UNLOCK := 17
  const BIND := 18
  const REBIND := 19
  const UNBIND := 20
  const ACL := 21
  const REPORT := 22
  const MKACTIVITY := 23
  const CHECKOUT := 24
  const MERGE := 25
  const MSEARCH := 26
  const NOTIFY := 27
  const SUBSCRIBE := 28
  const UNSUBSCRIBE := 29
  const MKCALENDAR := 30
  const LINK := 31
  const UNLINK := 32
  const SOURCE := 33

  // Arms -----------------------------------------------------------------

  datatype ArmResult =
    | Done(s: Parser, cues: seq<Cue>)   // the byte is consumed
    | Redo(s: Parser, cues: seq<Cue>)   // the byte is examined again in the new state
    | Halt(s: Parser, cues: seq<Cue>)   // the byte is consumed and parsing ends: another protocol follows
    | Fail(errno: Failure)

  // In a body or chunk there is at least one more byte to come.
  predicate CountsDown(s: Parser) {
    s.state == BodyIdentity || s.state == ChunkData ==> 0 < s.contentLength
  }

  // How many more times a byte can be examined from a state on.
  function Rank(s: State): nat {
    match s
    case HeaderValue => 5
    case HeaderValueLws => 4
    case HeaderValueDiscardLws => 4
    case HeaderFieldStart => 3
    case HeadersAlmostDone => 2
    case HeadersDone => 1
    case BodyIdentity => 1
    case _ => 0
  }

  function Goto(s: Parser, state: State): (r: ArmResult)
    requires state != BodyIdentity && state != ChunkData
    ensures !r.Redo?
    ensures CountsDown(s) && !r.Fail? ==> CountsDown(r.s)
    ensures r.Halt? ==> r.s.state == StartReq
  {
    Done(s.(state := state), [])
  }

  function FirstMethod(b: byte): Option<nat> {
    if Is(b, 'A') then Some(ACL) else if Is(b, 'B') then Some(BIND) else if Is(b, 'C') then Some(CONNECT)
    else if Is(b, 'D') then Some(0) else if Is(b, 'G') then Some(GET) else if Is(b, 'H') then Some(2)
    else if Is(b, 'L') then Some(LOCK) else if Is(b, 'M') then Some(MKCOL) else if Is(b, 'N') then Some(NOTIFY)
    else if Is(b, 'O') then Some(OPTIONS) else if Is(b, 'P') then Some(POST) else if Is(b, 'R') then Some(REPORT)
    else if Is(b, 'S') then Some(SUBSCRIBE) else if Is(b, 'T') then Some(TRACE) else if Is(b, 'U') then Some(UNLOCK)
    else None
  }

  // The method guessed so far turns out to be another one.
  function SwitchMethod(meth: nat, index: nat, b: byte): Option<nat> {
    if meth == POST && index == 1 && Is(b, 'U') then Some(PUT)
    else if meth == POST && index == 1 && Is(b, 'A') then Some(PATCH)
    else if meth == POST && index == 1 && Is(b, 'R') then Some(PROPFIND)
    else if meth == PUT && index == 2 && Is(b, 'R') then Some(PURGE)
    else if meth == CONNECT && index == 1 && Is(b, 'H') then Some(CHECKOUT)
    else if meth == CONNECT && index == 2 && Is(b, 'P') then Some(COPY)
    else if meth == MKCOL && index == 1 && Is(b, 'O') then Some(MOVE)
    else if meth == MKCOL && index == 1 && Is(b, 'E') then Some(MERGE)
    else if meth == MKCOL && index == 1 && Is(b, '-') then Some(MSEARCH)
    else if meth == MKCOL && index == 2 && Is(b, 'A') then Some(MKACTIVITY)
    else if meth == MKCOL && index == 3 && Is(b, 'A') then Some(MKCALENDAR)
    else if meth == SUBSCRIBE && index == 1 && Is(b, 'E') then Some(SEARCH)
    else if meth == SUBSCRIBE && index == 1 && Is(b, 'O') then Some(SOURCE)
    else if meth == REPORT && index == 2 && Is(b, 'B') then Some(REBIND)
    else if meth == PROPFIND && index == 4 && Is(b, 'P') then Some(PROPPATCH)
    else if meth == LOCK && index == 1 && Is(b, 'I') then Some(LINK)
    else if meth == UNLOCK && index == 2 && Is(b, 'S') then Some(UNSUBSCRIBE)
    else if meth == UNLOCK && index == 2 && Is(b, 'B') then Some(UNBIND)
    else if meth == UNLOCK && index == 3 && Is(b, 'I') then Some(UNLINK)
    else None
  }

  function StartArm(s: Parser, b: byte): (r: ArmResult)
    ensures !r.Redo?
    ensures CountsDown(s) && !r.Fail? ==> CountsDown(r.s)
    ensures r.Halt? ==> r.s.state == StartReq
  {
    if b == CR || b == LF then Done(s, [])
    else if !IsAlpha(b) then Fail(INVALID_METHOD)
    else
      match FirstMethod(b)
      case None => Fail(INVALID_METHOD)
      case Some(m) =>
        Done(s.(flags := NO_FLAGS, usesTransferEncoding := false, contentLength := MAX64,
                meth := m, index := 1, state := ReqMethod), [Note(MessageBegin)])
  }

  // The method string is NUL-terminated: past its end there is a NUL.
  function MethodChar(meth: nat, index: nat): byte {
    if meth < |METHODS| && index < |METHODS[meth]| && METHODS[meth][index] as int < 256
    then METHODS[meth][index] as int else 0
  }

  function MethodArm(s: Parser, b: byte): (r: ArmResult)
    ensures !r.Redo?
    ensures CountsDown(s) && !r.Fail? ==> CountsDown(r.s)
    ensures r.Halt? ==> r.s.state == StartReq
  {
    if b == 0 then Fail(INVALID_METHOD)
    else
      var want := MethodChar(s.meth, s.index);
      if b == SP && want == 0 then Done(s.(state := ReqSpacesBeforeUrl, index := s.index + 1), [])
      else if b == want then Done(s.(index := s.index + 1), [])
      else if IsUpper(b) || Is(b, '-') then
        match SwitchMethod(s.meth, s.index, b)
        case None => Fail(INVALID_METHOD)
        case Some(m) => Done(s.(meth := m, index := s.index + 1), [])
      else Fail(INVALID_METHOD)
  }

  function ParseUrlChar(s: State, b: byte): (r: State)
    ensures r == Dead || IsUrlState(r)
  {
    if b == SP || b == CR || b == LF || b == TAB || b == 12 then Dead
    else
      match s
      case ReqSpacesBeforeUrl =>
        if Is(b, '/') || Is(b, '*') then ReqPath else if IsAlpha(b) then ReqSchema else Dead
      case ReqSchema => if IsAlpha(b) then s else if Is(b, ':') then ReqSchemaSlash else Dead
      case ReqSchemaSlash => if Is(b, '/') then ReqSchemaSlashSlash else Dead
      case ReqSchemaSlashSlash => if Is(b, '/') then ReqServerStart else Dead
      case ReqServerWithAt => if Is(b, '@') then Dead else ParseServerChar(b)
      case ReqServerStart => ParseServerChar(b)
      case ReqServer => ParseServerChar(b)
      case ReqPath => if IsUrlChar(b) then s else if Is(b, '?') then ReqQueryStringStart else Dead
      case ReqQueryStringStart => if IsUrlChar(b) || Is(b, '?') then ReqQueryString else Dead
      case ReqQueryString => if IsUrlChar(b) || Is(b, '?') then ReqQueryString else Dead
      case _ => Dead
  }

  function ParseServerChar(b: byte): (r: State)
    ensures r == Dead || IsUrlState(r)
  {
    if Is(b, '/') then ReqPath
    else if Is(b, '?') then ReqQueryStringStart
    else if Is(b, '@') then ReqServerWithAt
    else if IsUserinfoChar(b) || Is(b, '[') || Is(b, ']') then ReqServer
    else Dead
  }

  function UrlStep(s: Parser, from: State, b: byte, cues: seq<Cue>): (r: ArmResult)
    ensures !r.Redo?
    ensures CountsDown(s) && !r.Fail? ==> CountsDown(r.s)
    ensures r.Halt? ==> r.s.state == StartReq
  {
    var next := ParseUrlChar(from, b);
    if next == Dead then Fail(INVALID_URL) else Done(s.(state := next), cues)
  }

  function UrlArm(s: Parser, b: byte): (r: ArmResult)
    ensures !r.Redo?
    ensures CountsDown(s) && !r.Fail? ==> CountsDown(r.s)
    ensures r.Halt? ==> r.s.state == StartReq
  {
    match s.state
    case ReqSpacesBeforeUrl =>
      if b == SP then Done(s, [])
      else UrlStep(s, if s.meth == CONNECT then ReqServerStart else s.state, b, [Mark(Url)])
    case ReqSchema => UrlStep(s, s.state, b, [])
    case ReqSchemaSlash => UrlStep(s, s.state, b, [])
    case ReqSchemaSlashSlash => UrlStep(s, s.state, b, [])
    case ReqServerStart => UrlStep(s, s.state, b, [])
    case _ =>
      if b == SP then Done(s.(state := ReqHttpStart), [Flush(Url)])
      else if b == CR || b == LF then
        // no version: HTTP/0.9, which has GET only
        if s.meth != GET then Fail(INVALID_VERSION)
        else Done(s.(major := 0, minor := 9, state := if b == CR then ReqLineAlmostDone else HeaderFieldStart), [Flush(Url)])
      else UrlStep(s, s.state, b, [])
  }

  function Expect(s: Parser, b: byte, c: char, next: State): (r: ArmResult)
    requires next != BodyIdentity && next != ChunkData
    ensures !r.Redo?
    ensures CountsDown(s) && !r.Fail? ==> CountsDown(r.s)
    ensures r.Halt? ==> r.s.state == StartReq
  {
    if Is(b, c) then Goto(s, next) else Fail(STRICT)
  }

  function ConstantArm(s: Parser, b: byte): (r: ArmResult)
    ensures !r.Redo?
    ensures CountsDown(s) && !r.Fail? ==> CountsDown(r.s)
    ensures r.Halt? ==> r.s.state == StartReq
  {
    match s.state
    case ReqHttpH => Expect(s, b, 'T', ReqHttpHT)
    case ReqHttpHT => Expect(s, b, 'T', ReqHttpHTT)
    case ReqHttpHTT => Expect(s, b, 'P', ReqHttpHTTP)
    case ReqHttpI => Expect(s, b, 'C', ReqHttpIC)
    case ReqHttpIC => Expect(s, b, 'E', ReqHttpHTTP)
    case _ => Expect(s, b, '/', ReqHttpMajor)  // ReqHttpHTTP
  }

  function VersionArm(s: Parser, b: byte): (r: ArmResult)
    ensures !r.Redo?
    ensures CountsDown(s) && !r.Fail? ==> CountsDown(r.s)
    ensures r.Halt? ==> r.s.state == StartReq
  {
    match s.state
    case ReqHttpStart =>
      if b == SP then Done(s, [])
      else if Is(b, 'H') then Goto(s, ReqHttpH)
      else if Is(b, 'I') && s.meth == SOURCE then Goto(s, ReqHttpI)
      else Fail(INVALID_CONSTANT)
    case ReqHttpMajor =>
      if IsNum(b) then Done(s.(major := b - '0' as int, state := ReqHttpDot), []) else Fail(INVALID_VERSION)
    case ReqHttpDot => if Is(b, '.') then Goto(s, ReqHttpMinor) else Fail(INVALID_VERSION)
    case ReqHttpMinor =>
      if IsNum(b) then Done(s.(minor := b - '0' as int, state := ReqHttpEnd), []) else Fail(INVALID_VERSION)
    case ReqHttpEnd =>
      if b == CR then Goto(s, ReqLineAlmostDone)
      else if b == LF then Goto(s, HeaderFieldStart)
      else Fail(INVALID_VERSION)
    case _ => if b == LF then Goto(s, HeaderFieldStart) else Fail(LF_EXPECTED)  // ReqLineAlmostDone
  }

  function FieldStartArm(s: Parser, b: byte): (r: ArmResult)
    requires s.state == HeaderFieldStart
    ensures r.Redo? ==> Rank(r.s.state) < Rank(s.state)
    ensures CountsDown(s) && !r.Fail? ==> CountsDown(r.s)
    ensures r.Halt? ==> r.s.state == StartReq
  {
    if b == CR then Goto(s, HeadersAlmostDone)
    else if b == LF then Redo(s.(state := HeadersAlmostDone), [])
    else
      var c := Token(b);
      if c == 0 then Fail(INVALID_HEADER_TOKEN)
      else
        var h := if Is(c, 'c') then C else if Is(c, 'p') then MatchingProxyConnection
                 else if Is(c, 't') then MatchingTransferEncoding else if Is(c, 'u') then MatchingUpgrade
                 else General;
        Done(s.(index := 0, state := HeaderField, hstate := h), [Mark(Field)])
  }

  // The state after character i of a name being matched: a mismatch, the full match, or on.
  function Matched(i: nat, c: byte, name: string, on: HState, miss: HState, hit: HState): HState {
    if i >= |name| || c != name[i] as int then miss else if i == |name| - 1 then hit else on
  }

  function MatchNext(s: Parser, c: byte, name: string, miss: HState, hit: HState): (r: Parser)
    ensures r.state == s.state && r.contentLength == s.contentLength
  {
    s.(index := s.index + 1, hstate := Matched(s.index + 1, c, name, s.hstate, miss, hit))
  }

  // The header name character c, lower case, after the first.
  function FieldChar(s: Parser, b: byte, c: byte): (r: Parser)
    ensures r.state == s.state && r.contentLength == s.contentLength
  {
    match s.hstate
    case General => s
    case C => s.(index := s.index + 1, hstate := if Is(c, 'o') then CO else General)
    case CO => s.(index := s.index + 1, hstate := if Is(c, 'n') then CON else General)
    case CON => s.(index := s.index + 1, hstate := if Is(c, 'n') then MatchingConnection
                                                   else if Is(c, 't') then MatchingContentLength else General)
    case MatchingConnection => MatchNext(s, c, "connection", General, Connection)
    case MatchingProxyConnection => MatchNext(s, c, "proxy-connection", General, Connection)
    case MatchingContentLength => MatchNext(s, c, "content-length", General, ContentLength)
    case MatchingTransferEncoding =>
      var t := MatchNext(s, c, "transfer-encoding", General, TransferEncoding);
      if t.hstate == TransferEncoding then t.(usesTransferEncoding := true) else t
    case MatchingUpgrade => MatchNext(s, c, "upgrade", General, Upgrade)
    case _ => if b != SP then s.(hstate := General) else s
  }

  function FieldArm(s: Parser, b: byte): (r: ArmResult)
    ensures !r.Redo?
    ensures CountsDown(s) && !r.Fail? ==> CountsDown(r.s)
    ensures r.Halt? ==> r.s.state == StartReq
  {
    if Token(b) != 0 then Done(FieldChar(s, b, Token(b)), [])
    else if Is(b, ':') then Done(s.(state := HeaderValueDiscardWs), [Flush(Field)])
    else Fail(INVALID_HEADER_TOKEN)
  }

  function ValueStartArm(s: Parser, b: byte): (r: ArmResult)
    ensures !r.Redo?
    ensures CountsDown(s) && !r.Fail? ==> CountsDown(r.s)
    ensures r.Halt? ==> r.s.state == StartReq
  {
    var c := Lower(b);
    var t := s.(state := HeaderValue, index := 0);
    match s.hstate
    case Upgrade => Done(t.(flags := s.flags.(upgrade := true), hstate := General), [Mark(Value)])
    case TransferEncoding =>
      Done(t.(hstate := if Is(c, 'c') then MatchingChunked else MatchingToken), [Mark(Value)])
    case MatchingTokenStart => Done(t, [Mark(Value)])
    case ContentLength =>
      if !IsNum(b) then Fail(INVALID_CONTENT_LENGTH)
      else if s.flags.contentLength then Fail(UNEXPECTED_CONTENT_LENGTH)
      else Done(t.(flags := s.flags.(contentLength := true), contentLength := b - '0' as int,
                   hstate := ContentLengthNum), [Mark(Value)])
    case ContentLengthWs => Done(t, [Mark(Value)])
    case Connection =>
      Done(t.(hstate := if Is(c, 'k') then MatchingKeepAlive else if Is(c, 'c') then MatchingClose
                        else if c == SP || c == TAB then Connection else General), [Mark(Value)])
    case _ => Done(t.(hstate := General), [Mark(Value)])
  }

  datatype ValueStep = Ok(s: Parser) | Bad(errno: Failure)

  function LengthDigit(s: Parser, b: byte): (r: ValueStep)
    ensures r.Ok? ==> r.s.state == s.state
  {
    if b == SP then Ok(s.(hstate := ContentLengthWs))
    else if !IsNum(b) then Bad(INVALID_CONTENT_LENGTH)
    else if (MAX64 - 10) / 10 < s.contentLength then Bad(INVALID_CONTENT_LENGTH)
    else Ok(s.(hstate := ContentLengthNum, contentLength := s.contentLength * 10 + (b - '0' as int)))
  }

  // A header value character other than CR and LF, after the first.
  function ValueChar(s: Parser, b: byte): (r: ValueStep)
    ensures r.Ok? ==> r.s.state == s.state
  {
    var c := Lower(b);
    match s.hstate
    case General => Ok(s)
    case Connection => Ok(s)
    case TransferEncoding => Ok(s)
    case ContentLength => if b == SP then Ok(s) else LengthDigit(s, b)
    case ContentLengthNum => LengthDigit(s, b)
    case ContentLengthWs => if b == SP then Ok(s) else Bad(INVALID_CONTENT_LENGTH)
    case MatchingTokenStart =>
      if Is(c, 'c') then Ok(s.(hstate := MatchingChunked))
      else if Token(c) != 0 then Ok(s.(hstate := MatchingToken))
      else if c == SP || c == TAB then Ok(s)
      else Ok(s.(hstate := General))
    case MatchingChunked => Ok(MatchNext(s, c, "chunked", MatchingToken, Chunked))
    case MatchingToken => if Is(b, ',') then Ok(s.(hstate := MatchingTokenStart, index := 0)) else Ok(s)
    case MatchingKeepAlive => Ok(MatchNext(s, c, "keep-alive", General, KeepAlive))
    case MatchingClose => Ok(MatchNext(s, c, "close", General, Close))
    case Chunked => if b != SP then Ok(s.(hstate := MatchingToken)) else Ok(s)
    case KeepAlive => if b != SP then Ok(s.(hstate := General)) else Ok(s)
    case Close => if b != SP then Ok(s.(hstate := General)) else Ok(s)
    case _ => Ok(s.(hstate := General))
  }

  function ValueArm(s: Parser, b: byte): (r: ArmResult)
    requires s.state == HeaderValue
    ensures r.Redo? ==> Rank(r.s.state) < Rank(s.state)
    ensures CountsDown(s) && !r.Fail? ==> CountsDown(r.s)
    ensures r.Halt? ==> r.s.state == StartReq
  {
    if b == CR then Done(s.(state := HeaderAlmostDone), [Flush(Value)])
    else if b == LF then Redo(s.(state := HeaderAlmostDone), [Flush(Value)])
    else if !s.lenient && !IsHeaderChar(b) then Fail(INVALID_HEADER_TOKEN)
    else
      match ValueChar(s, b)
      case Bad(e) => Fail(e)
      case Ok(t) => Done(t, [])
  }

  function ValueEndArm(s: Parser, b: byte): (r: ArmResult)
    requires s.state.HeaderValueDiscardWs? || s.state.HeaderValueStart? || s.state.HeaderAlmostDone? || s.state.HeaderValueLws? || s.state.HeaderValueDiscardWsAlmostDone? || s.state.HeaderValueDiscardLws?
    ensures r.Redo? ==> Rank(r.s.state) < Rank(s.state)
    ensures CountsDown(s) && !r.Fail? ==> CountsDown(r.s)
    ensures r.Halt? ==> r.s.state == StartReq
  {
    match s.state
    case HeaderValueDiscardWs =>
      if b == SP || b == TAB then Done(s, [])
      else if b == CR then Goto(s, HeaderValueDiscardWsAlmostDone)
      else if b == LF then Goto(s, HeaderValueDiscardLws)
      else ValueStartArm(s, b)
    case HeaderValueStart => ValueStartArm(s, b)
    case HeaderAlmostDone => if b == LF then Goto(s, HeaderValueLws) else Fail(LF_EXPECTED)
    case HeaderValueLws =>
      if b == SP || b == TAB then
        Redo(s.(hstate := if s.hstate == ContentLengthNum then ContentLengthWs else s.hstate, state := HeaderValueStart), [])
      else
        Redo(s.(flags := s.flags.(keepAlive := s.flags.keepAlive || s.hstate == KeepAlive,
                                  close := s.flags.close || s.hstate == Close,
                                  chunked := s.flags.chunked || s.hstate == Chunked),
                state := HeaderFieldStart), [])
    case HeaderValueDiscardWsAlmostDone => if b == LF then Goto(s, HeaderValueDiscardLws) else Fail(STRICT)
    case HeaderValueDiscardLws =>
      if b == SP || b == TAB then Goto(s, HeaderValueDiscardWs)
      else Redo(s.(state := HeaderFieldStart), [Mark(Value), Flush(Value)])
  }

  function NewMessage(s: Parser): (r: ArmResult)
    ensures !r.Redo?
    ensures CountsDown(s) && !r.Fail? ==> CountsDown(r.s)
    ensures r.Halt? ==> r.s.state == StartReq
  {
    Done(s.(state := StartReq), [Note(MessageComplete)])
  }

  // What on_headers_complete answers: go on, there is no body, or another protocol follows.
  function Answered(s: Parser, answer: int): (r: ArmResult)
    requires s.state == HeadersDone
    ensures !r.Fail? ==> r.Redo? && r.s.state == HeadersDone
  {
    var note := [Note(HeadersComplete)];
    if answer == 0 then Redo(s, note)
    else if answer == 1 then Redo(s.(flags := s.flags.(skipBody := true)), note)
    else if answer == 2 then Redo(s.(upgrade := true, flags := s.flags.(skipBody := true)), note)
    else Fail(CB_HEADERS_COMPLETE)
  }

  function HeadersAlmostDoneArm(cfg: Settings, s: Parser, b: byte): (r: ArmResult)
    requires s.state == HeadersAlmostDone
    ensures r.Redo? ==> Rank(r.s.state) < Rank(s.state)
    ensures CountsDown(s) && !r.Fail? ==> CountsDown(r.s)
    ensures r.Halt? ==> r.s.state == StartReq
  {
    if b != LF then Fail(STRICT)
    else if s.flags.trailing then NewMessage(s)
    else if s.usesTransferEncoding && s.flags.contentLength &&
            (if s.flags.chunked then !s.allowChunkedLength else !s.lenient) then Fail(UNEXPECTED_CONTENT_LENGTH)
    else
      var t := s.(state := HeadersDone, upgrade := s.flags.upgrade || s.meth == CONNECT);
      Answered(t, cfg.onHeadersComplete(t))
  }

  function HeadersDoneArm(s: Parser, b: byte): (r: ArmResult)
    ensures !r.Redo?
    ensures CountsDown(s) && !r.Fail? ==> CountsDown(r.s)
    ensures r.Halt? ==> r.s.state == StartReq
  {
    if b != LF then Fail(STRICT)
    else
      var complete := [ResetCount, Note(MessageComplete)];
      if s.upgrade then Halt(s.(state := StartReq), complete)
      else if s.flags.skipBody then Done(s.(state := StartReq), complete)
      else if s.flags.chunked then Done(s.(state := ChunkSizeStart), [ResetCount])
      else if s.usesTransferEncoding then
        if !s.lenient then Fail(INVALID_TRANSFER_ENCODING) else Done(s.(state := BodyIdentityEof), [ResetCount])
      else if s.contentLength == 0 then Done(s.(state := StartReq), complete)
      else if s.contentLength != MAX64 then Done(s.(state := BodyIdentity), [ResetCount])
      else Done(s.(state := StartReq), complete)
  }

  function ChunkArm(s: Parser, b: byte): (r: ArmResult)
    ensures !r.Redo?
    ensures CountsDown(s) && !r.Fail? ==> CountsDown(r.s)
    ensures r.Halt? ==> r.s.state == StartReq
  {
    match s.state
    case ChunkSizeStart =>
      if Unhex(b) == -1 then Fail(INVALID_CHUNK_SIZE)
      else Done(s.(contentLength := Unhex(b), state := ChunkSize), [])
    case ChunkSize =>
      if b == CR then Goto(s, ChunkSizeAlmostDone)
      else if Unhex(b) == -1 then
        if Is(b, ';') || b == SP then Goto(s, ChunkParameters) else Fail(INVALID_CHUNK_SIZE)
      else if (MAX64 - 16) / 16 < s.contentLength then Fail(INVALID_CONTENT_LENGTH)
      else Done(s.(contentLength := s.contentLength * 16 + Unhex(b)), [])
    case ChunkParameters => if b == CR then Goto(s, ChunkSizeAlmostDone) else Done(s, [])
    case ChunkSizeAlmostDone =>
      if b != LF then Fail(STRICT)
      else if s.contentLength == 0 then
        Done(s.(flags := s.flags.(trailing := true), state := HeaderFieldStart), [ResetCount])
      else Done(s.(state := ChunkData), [ResetCount])
    case ChunkDataAlmostDone => if b != CR then Fail(STRICT) else Done(s.(state := ChunkDataDone), [Flush(Body)])
    case _ =>  // ChunkDataDone
      if b != LF then Fail(STRICT) else Done(s.(state := ChunkSizeStart), [ResetCount])
  }

  // A byte of the body: content_length counts down to the end of the body or chunk.
  function BodyArm(s: Parser, b: byte): (r: ArmResult)
    ensures r.Redo? ==> Rank(r.s.state) < Rank(s.state)
    ensures CountsDown(s) && !r.Fail? ==> CountsDown(r.s)
    ensures r.Halt? ==> r.s.state == StartReq
  {
    match s.state
    case BodyIdentity =>
      if s.contentLength <= 1 then Redo(s.(contentLength := 0, state := MessageDone), [BodyByte])
      else Done(s.(contentLength := s.contentLength - 1), [BodyByte])
    case ChunkData =>
      if s.contentLength <= 1 then Done(s.(contentLength := 0, state := ChunkDataAlmostDone), [BodyByte])
      else Done(s.(contentLength := s.contentLength - 1), [BodyByte])
    case _ => Done(s, [BodyByte])  // BodyIdentityEof
  }

  function Arm(cfg: Settings, s: Parser, b: byte): (r: ArmResult)
    ensures r.Redo? ==> Rank(r.s.state) < Rank(s.state)
    ensures CountsDown(s) && !r.Fail? ==> CountsDown(r.s)
    ensures r.Halt? ==> r.s.state == StartReq
  {
    match s.state
    case Dead => if b == CR || b == LF then Done(s, []) else Fail(CLOSED_CONNECTION)
    case StartReq => StartArm(s, b)
    case ReqMethod => MethodArm(s, b)
    case ReqSpacesBeforeUrl => UrlArm(s, b)
    case ReqSchema => UrlArm(s, b)
    case ReqSchemaSlash => UrlArm(s, b)
    case ReqSchemaSlashSlash => UrlArm(s, b)
    case ReqServerStart => UrlArm(s, b)
    case ReqServer => UrlArm(s, b)
    case ReqServerWithAt => UrlArm(s, b)
    case ReqPath => UrlArm(s, b)
    case ReqQueryStringStart => UrlArm(s, b)
    case ReqQueryString => UrlArm(s, b)
    case HeaderFieldStart => FieldStartArm(s, b)
    case HeaderField => FieldArm(s, b)
    case HeaderValue => ValueArm(s, b)
    case HeaderValueDiscardWs => ValueEndArm(s, b)
    case HeaderValueDiscardWsAlmostDone => ValueEndArm(s, b)
    case HeaderValueDiscardLws => ValueEndArm(s, b)
    case HeaderValueStart => ValueEndArm(s, b)
    case HeaderValueLws => ValueEndArm(s, b)
    case HeaderAlmostDone => ValueEndArm(s, b)
    case HeadersAlmostDone => HeadersAlmostDoneArm(cfg, s, b)
    case HeadersDone => HeadersDoneArm(s, b)
    case ChunkSizeStart => ChunkArm(s, b)
    case ChunkSize => ChunkArm(s, b)
    case ChunkParameters => ChunkArm(s, b)
    case ChunkSizeAlmostDone => ChunkArm(s, b)
    case ChunkDataAlmostDone => ChunkArm(s, b)
    case ChunkDataDone => ChunkArm(s, b)
    case ChunkData => BodyArm(s, b)
    case BodyIdentity => BodyArm(s, b)
    case BodyIdentityEof => BodyArm(s, b)
    case MessageDone => NewMessage(s)
    case ReqHttpH => ConstantArm(s, b)
    case ReqHttpHT => ConstantArm(s, b)
    case ReqHttpHTT => ConstantArm(s, b)
    case ReqHttpHTTP => ConstantArm(s, b)
    case ReqHttpI => ConstantArm(s, b)
    case ReqHttpIC => ConstantArm(s, b)
    case _ => VersionArm(s, b)
  }
}
