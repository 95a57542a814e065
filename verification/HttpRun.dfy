/** The meaning of a byte stream: a run of the parser, one byte after the other, whatever the buffers. */
module HttpRun {
  import opened Common
  import opened HttpMessage

  // Logs -----------------------------------------------------------------

  // One more event; data of the same kind is one piece, however many callbacks brought it.
  function Append(log: seq<Event>, e: Event): seq<Event> {
    if log != [] && log[|log| - 1].Data? && e.Data? && log[|log| - 1].kind == e.kind
    then log[..|log| - 1] + [Data(e.kind, log[|log| - 1].bytes + e.bytes)]
    else log + [e]
  }

  // The callbacks made, with adjacent data of one kind joined.
  function Norm(calls: seq<Event>): seq<Event> {
    if calls == [] then [] else Append(Norm(calls[..|calls| - 1]), calls[|calls| - 1])
  }

  lemma AppendTwice(log: seq<Event>, k: Kind, x: seq<byte>, y: seq<byte>)
    ensures Append(Append(log, Data(k, x)), Data(k, y)) == Append(log, Data(k, x + y))
  {
    var l := Append(log, Data(k, x));
    var n := |l| - 1;
    if log != [] && log[|log| - 1].Data? && log[|log| - 1].kind == k {
      assert log[|log| - 1].bytes + x + y == log[|log| - 1].bytes + (x + y);
      assert l[..n] == log[..n];
    } else {
      assert l[..n] == log;
    }
  }

  // Runs -----------------------------------------------------------------

  function CueLog(log: seq<Event>, cue: Cue, b: byte): seq<Event> {
    match cue
    case Mark(k) => Append(log, Data(k, []))
    case Flush(_) => log
    case BodyByte => Append(log, Data(Body, [b]))
    case Note(e) => Append(log, e)
    case ResetCount => log
  }

  function CuesLog(log: seq<Event>, cues: seq<Cue>, b: byte): seq<Event>
    decreases |cues|
  {
    if cues == [] then log else CuesLog(CueLog(log, cues[0], b), cues[1..], b)
  }

  function CuesCount(nread: nat, cues: seq<Cue>): nat {
    if ResetCount in cues then 0 else nread
  }

  // The kind of data that the bytes ending in this state belong to.
  function Live(s: State): Option<Kind> {
    match s
    case ReqSchema => Some(Url)
    case ReqSchemaSlash => Some(Url)
    case ReqSchemaSlashSlash => Some(Url)
    case ReqServerStart => Some(Url)
    case ReqServer => Some(Url)
    case ReqServerWithAt => Some(Url)
    case ReqPath => Some(Url)
    case ReqQueryStringStart => Some(Url)
    case ReqQueryString => Some(Url)
    case HeaderField => Some(Field)
    case HeaderValue => Some(Value)
    case _ => None
  }

  function WithByte(log: seq<Event>, s: State, b: byte): seq<Event> {
    match Live(s)
    case None => log
    case Some(k) => Append(log, Data(k, [b]))
  }

  // After an upgrade the rest belongs to another protocol.
  datatype Run =
    | Going(s: Parser, nread: nat, log: seq<Event>)
    | Failed
    | Upgraded(s: Parser, nread: nat, log: seq<Event>, rest: seq<byte>)

  function Examine(cfg: Settings, s: Parser, nread: nat, log: seq<Event>, b: byte): Run
    decreases Rank(s.state)
  {
    match Arm(cfg, s, b)
    case Done(t, cues) => Going(t, CuesCount(nread, cues), WithByte(CuesLog(log, cues, b), t.state, b))
    case Redo(t, cues) => Examine(cfg, t, CuesCount(nread, cues), CuesLog(log, cues, b), b)
    case Halt(t, cues) => Upgraded(t, CuesCount(nread, cues), CuesLog(log, cues, b), [])
    case Fail(_) => Failed
  }

  // Every byte of a header counts towards the header size limit.
  function Counted(s: State, nread: nat): nat {
    if ParsingHeader(s) then nread + 1 else nread
  }

  function FeedByte(cfg: Settings, r: Run, b: byte): Run {
    match r
    case Failed => Failed
    case Upgraded(_, _, _, rest) => r.(rest := rest + [b])
    case Going(s, nread, log) =>
      var n := Counted(s.state, nread);
      if ParsingHeader(s.state) && n > MAX_HEADER_SIZE then Failed else Examine(cfg, s, n, log, b)
  }

  function RunOn(cfg: Settings, r: Run, data: seq<byte>): Run {
    if data == [] then r else FeedByte(cfg, RunOn(cfg, r, data[..|data| - 1]), data[|data| - 1])
  }

  lemma {:induction false} RunOnConcat(cfg: Settings, r: Run, a: seq<byte>, b: seq<byte>)
    ensures RunOn(cfg, r, a + b) == RunOn(cfg, RunOn(cfg, r, a), b)
    decreases |b|
  {
    if b == [] {
      assert a + b == a;
    } else {
      var last := |b| - 1;
      assert (a + b)[..|a + b| - 1] == a + b[..last];
      RunOnConcat(cfg, r, a, b[..last]);
    }
  }

  lemma {:induction false} RunOnFailed(cfg: Settings, data: seq<byte>)
    ensures RunOn(cfg, Failed, data) == Failed
    decreases |data|
  {
    if data != [] {
      RunOnFailed(cfg, data[..|data| - 1]);
    }
  }

  lemma {:induction false} RunOnUpgraded(cfg: Settings, r: Run, data: seq<byte>)
    requires r.Upgraded?
    ensures RunOn(cfg, r, data) == r.(rest := r.rest + data)
    decreases |data|
  {
    if data == [] {
      assert r.rest + data == r.rest;
    } else {
      RunOnUpgraded(cfg, r, data[..|data| - 1]);
      assert r.rest + data == (r.rest + data[..|data| - 1]) + [data[|data| - 1]];
    }
  }

  // Batches --------------------------------------------------------------

  // States in which the parser scans ahead over many bytes at once.
  predicate IsBatch(s: State) {
    s.HeaderField? || s.HeaderValue? || s.BodyIdentity? || s.BodyIdentityEof? || s.ChunkData?
  }

  // The run after some header bytes of a batch, of which n have been read since
  // the count was last reset: it has failed as soon as they are too many.
  ghost predicate Tally(r: Run, s: Parser, n: nat, log: seq<Event>) {
    r == if n <= MAX_HEADER_SIZE then Going(s, n, log) else Failed
  }

  lemma ExamineField(cfg: Settings, s: Parser, n: nat, log: seq<Event>, b: byte)
    requires s.state == HeaderField
    ensures Examine(cfg, s, n, log, b) ==
            if Token(b) != 0 then Going(FieldChar(s, b, Token(b)), n, Append(log, Data(Field, [b])))
            else if Is(b, ':') then Going(s.(state := HeaderValueDiscardWs), n, log) else Failed
  {
    hide Token, FieldChar, Append;
    assert Arm(cfg, s, b) == FieldArm(s, b);
  }

  // A header name byte, and the byte after the name.
  lemma FieldTally(cfg: Settings, r: Run, s: Parser, n: nat, log: seq<Event>, b: byte)
    requires Tally(r, s, n, log) && s.state == HeaderField
    ensures Token(b) != 0 ==>
              Tally(FeedByte(cfg, r, b), FieldChar(s, b, Token(b)), n + 1, Append(log, Data(Field, [b])))
    ensures Token(b) == 0 ==>
              FeedByte(cfg, r, b) ==
              if n < MAX_HEADER_SIZE && Is(b, ':') then Going(s.(state := HeaderValueDiscardWs), n + 1, log) else Failed
  {
    hide Token, FieldChar, Append, Examine;
    ExamineField(cfg, s, n + 1, log, b);
  }

  lemma ExamineValue(cfg: Settings, s: Parser, n: nat, log: seq<Event>, b: byte)
    requires s.state == HeaderValue
    ensures b == CR ==> Examine(cfg, s, n, log, b) == Going(s.(state := HeaderAlmostDone), n, log)
    ensures b == LF ==> Examine(cfg, s, n, log, b) == Examine(cfg, s.(state := HeaderAlmostDone), n, log, b)
    ensures b != CR && b != LF ==>
              Examine(cfg, s, n, log, b) ==
              if s.lenient || IsHeaderChar(b) then
                match ValueChar(s, b) case Ok(t) => Going(t, n, Append(log, Data(Value, [b]))) case Bad(_) => Failed
              else Failed
  {
    hide ValueChar, IsHeaderChar, Append;
    assert Arm(cfg, s, b) == ValueArm(s, b);
  }

  // A header value byte.
  lemma ValueTally(cfg: Settings, r: Run, s: Parser, n: nat, log: seq<Event>, b: byte)
    requires Tally(r, s, n, log) && s.state == HeaderValue && b != CR && b != LF
    ensures s.lenient || IsHeaderChar(b) ==>
              match ValueChar(s, b)
              case Ok(t) => Tally(FeedByte(cfg, r, b), t, n + 1, Append(log, Data(Value, [b])))
              case Bad(_) => FeedByte(cfg, r, b) == Failed
    ensures !(s.lenient || IsHeaderChar(b)) || n >= MAX_HEADER_SIZE ==> FeedByte(cfg, r, b) == Failed
  {
    hide ValueChar, IsHeaderChar, Append, Examine;
    ExamineValue(cfg, s, n + 1, log, b);
  }

  // The CR or LF that ends the value.
  lemma ValueEndTally(cfg: Settings, r: Run, s: Parser, n: nat, log: seq<Event>, b: byte)
    requires Tally(r, s, n, log) && s.state == HeaderValue
    ensures b == CR ==> Tally(FeedByte(cfg, r, b), s.(state := HeaderAlmostDone), n + 1, log)
    ensures b == LF ==>
              FeedByte(cfg, r, b) ==
              if n < MAX_HEADER_SIZE then Examine(cfg, s.(state := HeaderAlmostDone), n + 1, log, b) else Failed
  {
    hide ValueChar, IsHeaderChar, Append, Examine;
    ExamineValue(cfg, s, n + 1, log, b);
  }

  lemma BodyStep(cfg: Settings, s: Parser, nread: nat, log: seq<Event>, b: byte)
    requires s.state == BodyIdentity || s.state == ChunkData || s.state == BodyIdentityEof
    ensures FeedByte(cfg, Going(s, nread, log), b) ==
            var l := Append(log, Data(Body, [b]));
            if s.state == BodyIdentityEof then Going(s, nread, l)
            else if s.contentLength > 1 then Going(s.(contentLength := s.contentLength - 1), nread, l)
            else if s.state == ChunkData then Going(s.(contentLength := 0, state := ChunkDataAlmostDone), nread, l)
            else Examine(cfg, s.(contentLength := 0, state := MessageDone), nread, l, b)
  {
    hide Append, Arm;
    BodyArms(cfg, s, b);
    assert CuesLog(log, [BodyByte], b) == Append(log, Data(Body, [b]));
  }

  lemma BodyArms(cfg: Settings, s: Parser, b: byte)
    requires s.state == BodyIdentity || s.state == ChunkData || s.state == BodyIdentityEof
    ensures Arm(cfg, s, b) ==
            if s.state == BodyIdentityEof then Done(s, [BodyByte])
            else if s.contentLength > 1 then Done(s.(contentLength := s.contentLength - 1), [BodyByte])
            else if s.state == ChunkData then Done(s.(contentLength := 0, state := ChunkDataAlmostDone), [BodyByte])
            else Redo(s.(contentLength := 0, state := MessageDone), [BodyByte])
  {
    hide CountsDown;
  }

  // Body bytes of one piece, short of its end.
  lemma {:induction false} BodyInside(cfg: Settings, s: Parser, nread: nat, log: seq<Event>, bs: seq<byte>)
    requires bs != []
    requires s.state == BodyIdentityEof || ((s.state == BodyIdentity || s.state == ChunkData) && |bs| < s.contentLength)
    ensures RunOn(cfg, Going(s, nread, log), bs) ==
            Going(if s.state == BodyIdentityEof then s else s.(contentLength := s.contentLength - |bs|),
                  nread, Append(log, Data(Body, bs)))
    decreases |bs|
  {
    hide Append, FeedByte;
    var last := |bs| - 1;
    var init := bs[..last];
    if init == [] {
      assert RunOn(cfg, Going(s, nread, log), init) == Going(s, nread, log);
      assert bs == [bs[0]];
      BodyStep(cfg, s, nread, log, bs[0]);
    } else {
      BodyInside(cfg, s, nread, log, init);
      var t := if s.state == BodyIdentityEof then s else s.(contentLength := s.contentLength - |init|);
      BodyStep(cfg, t, nread, Append(log, Data(Body, init)), bs[last]);
      AppendTwice(log, Body, init, [bs[last]]);
      assert init + [bs[last]] == bs;
    }
  }

  // All bytes of the body or chunk.
  lemma BodyToEnd(cfg: Settings, s: Parser, nread: nat, log: seq<Event>, bs: seq<byte>)
    requires bs != [] && (s.state == BodyIdentity || s.state == ChunkData) && |bs| == s.contentLength
    ensures RunOn(cfg, Going(s, nread, log), bs) ==
            var l := Append(log, Data(Body, bs));
            if s.state == ChunkData then Going(s.(contentLength := 0, state := ChunkDataAlmostDone), nread, l)
            else Examine(cfg, s.(contentLength := 0, state := MessageDone), nread, l, bs[|bs| - 1])
  {
    hide Append, FeedByte, Examine;
    var last := |bs| - 1;
    var init := bs[..last];
    if init == [] {
      assert RunOn(cfg, Going(s, nread, log), init) == Going(s, nread, log);
      assert bs == [bs[0]];
      BodyStep(cfg, s, nread, log, bs[0]);
    } else {
      BodyInside(cfg, s, nread, log, init);
      BodyStep(cfg, s.(contentLength := 1), nread, Append(log, Data(Body, init)), bs[last]);
      AppendTwice(log, Body, init, [bs[last]]);
      assert init + [bs[last]] == bs;
    }
  }

  // What holds between two bytes ------------------------------------------

  ghost predicate Steady(s: Parser, nread: nat, log: seq<Event>) {
    && nread <= MAX_HEADER_SIZE
    && CountsDown(s)
    && (Live(s.state).Some? ==> log != [] && log[|log| - 1].Data? && Some(log[|log| - 1].kind) == Live(s.state))
  }

  lemma {:induction false} ExamineSteady(cfg: Settings, s: Parser, nread: nat, log: seq<Event>, b: byte)
    requires CountsDown(s) && nread <= MAX_HEADER_SIZE
    ensures match Examine(cfg, s, nread, log, b)
            case Going(t, n, l) => Steady(t, n, l)
            case Upgraded(t, n, l, _) => Steady(t, n, l)
            case Failed => true
    decreases Rank(s.state)
  {
    hide Arm, CuesLog;
    var r := Arm(cfg, s, b);
    match r
    case Redo(t, cues) => ExamineSteady(cfg, t, CuesCount(nread, cues), CuesLog(log, cues, b), b);
    case Done(t, cues) => WithByteIsLive(CuesLog(log, cues, b), t.state, b);
    case _ =>
  }

  lemma WithByteIsLive(log: seq<Event>, s: State, b: byte)
    ensures var l := WithByte(log, s, b);
            Live(s).Some? ==> l != [] && l[|l| - 1].Data? && Some(l[|l| - 1].kind) == Live(s)
  {
  }

  lemma {:induction false} RunSteady(cfg: Settings, s: Parser, nread: nat, log: seq<Event>, data: seq<byte>)
    requires Steady(s, nread, log)
    ensures match RunOn(cfg, Going(s, nread, log), data)
            case Going(t, n, l) => Steady(t, n, l)
            case Upgraded(t, n, l, _) => Steady(t, n, l)
            case Failed => true
    decreases |data|
  {
    hide Examine;
    if data != [] {
      var init := data[..|data| - 1];
      RunSteady(cfg, s, nread, log, init);
      match RunOn(cfg, Going(s, nread, log), init)
      case Going(t, n, l) => if Counted(t.state, n) <= MAX_HEADER_SIZE {
        ExamineSteady(cfg, t, Counted(t.state, n), l, data[|data| - 1]);
      }
      case _ =>
    }
  }
}
