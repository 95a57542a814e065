/** The incremental HTTP/1 request parser: marks into the buffer, batch scanning loops, callbacks. */
module HttpParser {
  import opened Common
  import opened HttpMessage
  import opened HttpRun
  import opened HttpInvariants

  // Where data that is being collected starts in the buffer at hand.
  datatype Marks = Marks(field: Option<nat>, value: Option<nat>, url: Option<nat>, body: Option<nat>) {
    function Get(k: Kind): Option<nat> {
      match k case Field => field case Value => value case Url => url case Body => body
    }

    function Put(k: Kind, m: Option<nat>): Marks {
      match k
      case Field => this.(field := m)
      case Value => this.(value := m)
      case Url => this.(url := m)
      case Body => this.(body := m)
    }

    // The data mark that is live.
    function TheKind(): Option<Kind> {
      if field.Some? then Some(Field) else if value.Some? then Some(Value)
      else if url.Some? then Some(Url) else if body.Some? then Some(Body) else None
    }

    ghost predicate AtMostOne(p: nat) {
      forall k: Kind | Get(k).Some? :: TheKind() == Some(k) && Get(k).value <= p
    }
  }

  const NO_MARKS := Marks(None, None, None, None)

  // The callbacks made so far, and the data collected since the mark.
  ghost function Seen(calls: seq<Event>, m: Marks, data: seq<byte>, p: nat): seq<Event> {
    match m.TheKind()
    case None => Norm(calls)
    case Some(k) =>
      if m.Get(k).value <= p <= |data| then Append(Norm(calls), Data(k, data[m.Get(k).value..p])) else Norm(calls)
  }

  // The run over a stretch of the buffer, and the look at one byte of it.
  ghost function RunTo(cfg: Settings, r: Run, data: seq<byte>, from: nat, to: nat): Run {
    if from <= to <= |data| then RunOn(cfg, r, data[from..to]) else Failed
  }

  ghost function Look(cfg: Settings, s: Parser, nread: nat, log: seq<Event>, data: seq<byte>, p: nat): Run {
    if p < |data| then Examine(cfg, s, nread, log, data[p]) else Failed
  }

  // The mark that is live belongs to the state.
  ghost predicate MarksFit(s: State, m: Marks, p: nat) {
    && m.AtMostOne(p)
    && (if Live(s).Some? then m.TheKind() == Live(s)
        else m.TheKind() == None || (m.TheKind() == Some(Body) && (s == ChunkDataAlmostDone || IsBatch(s))))
  }

  // Passing a byte that belongs to the live mark, or to none.
  lemma SeenNext(calls: seq<Event>, m: Marks, s: State, data: seq<byte>, p: nat)
    requires p < |data| && MarksFit(s, m, p) && (Live(s) == None ==> m.TheKind() == None)
    ensures MarksFit(s, m, p + 1)
    ensures Seen(calls, m, data, p + 1) == WithByte(Seen(calls, m, data, p), s, data[p])
  {
    match Live(s)
    case None =>
    case Some(k) =>
      var a := m.Get(k).value;
      assert data[a..p] + [data[p]] == data[a..p + 1];
      AppendTwice(Norm(calls), k, data[a..p], [data[p]]);
  }

  lemma SeenNoMark(calls: seq<Event>, m: Marks, data: seq<byte>, p: nat, q: nat)
    requires q <= |data| && m.AtMostOne(p) && m.TheKind() == None
    ensures m.AtMostOne(q) && Seen(calls, m, data, q) == Norm(calls)
  {
  }

  // The bytes from start to p join the body data.
  lemma SeenBody(calls: seq<Event>, m: Marks, data: seq<byte>, start: nat, p: nat)
    requires start < p <= |data| && m.AtMostOne(start) && (m.TheKind() == None || m.TheKind() == Some(Body))
    ensures var n := MarkAfter(m, Mark(Body), start);
            && n.AtMostOne(start) && n.AtMostOne(p) && n.TheKind() == Some(Body)
            && Seen(calls, n, data, p) == Append(Seen(calls, m, data, start), Data(Body, data[start..p]))
  {
    if m.TheKind() == Some(Body) {
      var a := m.Get(Body).value;
      assert data[a..start] + data[start..p] == data[a..p];
      AppendTwice(Norm(calls), Body, data[a..start], data[start..p]);
    }
  }

  // Marks and cues -------------------------------------------------------

  // CROW_MARK leaves a set mark alone; the data callback clears it.
  function MarkAfter(m: Marks, cue: Cue, p: nat): Marks {
    match cue
    case Mark(k) => if m.Get(k) == None then m.Put(k, Some(p)) else m
    case Flush(k) => m.Put(k, None)
    case _ => m
  }

  ghost function MarksAfter(m: Marks, cues: seq<Cue>, p: nat): Marks
    decreases |cues|
  {
    if cues == [] then m else MarksAfter(MarkAfter(m, cues[0], p), cues[1..], p)
  }

  ghost predicate CueFits(m: Marks, cue: Cue) {
    match cue
    case Mark(_) => m.TheKind() == None
    case Flush(k) => m.TheKind() == None || m.TheKind() == Some(k)
    case Note(e) => m.TheKind() == None
    case BodyByte => false
    case ResetCount => true
  }

  ghost predicate CuesFit(m: Marks, cues: seq<Cue>, p: nat)
    decreases |cues|
  {
    cues == [] || (CueFits(m, cues[0]) && CuesFit(MarkAfter(m, cues[0], p), cues[1..], p))
  }

  function KindAfter(k: Option<Kind>, cue: Cue): Option<Kind> {
    match cue case Mark(j) => Some(j) case Flush(_) => None case _ => k
  }

  lemma MarkKinds(m: Marks, cue: Cue, p: nat)
    requires m.AtMostOne(p) && CueFits(m, cue)
    ensures MarkAfter(m, cue, p).AtMostOne(p) && MarkAfter(m, cue, p).TheKind() == KindAfter(m.TheKind(), cue)
  {
  }

  // Arms give no cue, one or two.
  lemma {:induction false} FewCues(m: Marks, cues: seq<Cue>, p: nat)
    decreases |cues|
    ensures cues == [] ==> CuesFit(m, cues, p) && MarksAfter(m, cues, p) == m
    ensures |cues| == 1 ==>
              && (CuesFit(m, cues, p) <==> CueFits(m, cues[0]))
              && MarksAfter(m, cues, p) == MarkAfter(m, cues[0], p)
    ensures |cues| == 2 ==>
              && (CuesFit(m, cues, p) <==> CueFits(m, cues[0]) && CueFits(MarkAfter(m, cues[0], p), cues[1]))
              && MarksAfter(m, cues, p) == MarkAfter(MarkAfter(m, cues[0], p), cues[1], p)
  {
    if |cues| == 1 {
      assert cues[1..] == [];
    } else if |cues| == 2 {
      FewCues(MarkAfter(m, cues[0], p), cues[1..], p);
    }
  }

  ghost predicate One(cues: seq<Cue>, c: Cue) { |cues| == 1 && cues[0] == c }

  ghost predicate Two(cues: seq<Cue>, c: Cue, d: Cue) { |cues| == 2 && cues[0] == c && cues[1] == d }

  // How an arm's cues go with its change of state.
  ghost predicate Shape(from: State, to: State, cues: seq<Cue>) {
    match (Live(from), Live(to))
    case (Some(j), Some(k)) => j == k && |cues| == 0
    case (Some(j), None) => One(cues, Flush(j))
    case (None, Some(k)) => from != ChunkDataAlmostDone && One(cues, Mark(k))
    case (None, None) =>
      if from == ChunkDataAlmostDone then One(cues, Flush(Body))
      else
        || |cues| == 0 || One(cues, ResetCount) || Two(cues, Mark(Value), Flush(Value))
        || One(cues, Note(MessageBegin)) || One(cues, Note(HeadersComplete)) || One(cues, Note(MessageComplete))
        || Two(cues, ResetCount, Note(MessageComplete))
  }

  lemma ShapeFits(from: State, to: State, cues: seq<Cue>, m: Marks, p: nat)
    requires Shape(from, to, cues) && MarksFit(from, m, p) && !IsBatch(from)
    ensures CuesFit(m, cues, p) && MarksFit(to, MarksAfter(m, cues, p), p)
    ensures Live(to) == None ==> MarksAfter(m, cues, p).TheKind() == None
  {
    hide CuesFit, MarksAfter, MarkAfter, Marks.TheKind, Marks.AtMostOne, Live, IsBatch;
    FewCues(m, cues, p);
    if |cues| == 1 {
      MarkKinds(m, cues[0], p);
    } else if |cues| == 2 {
      MarkKinds(m, cues[0], p);
      MarkKinds(MarkAfter(m, cues[0], p), cues[1], p);
    }
  }

  // Every arm goes with its cues -------------------------------------------

  ghost predicate Shaped(from: State, r: ArmResult) {
    r.Fail? || (Shape(from, r.s.state, r.cues) && (r.Halt? ==> Live(r.s.state) == None))
  }

  lemma UrlShape(s: Parser, b: byte)
    requires s.state == ReqSpacesBeforeUrl || IsUrlState(s.state)
    ensures Shaped(s.state, UrlArm(s, b))
  {
    hide ParseUrlChar, CountsDown;
  }

  lemma VersionShape(s: Parser, b: byte)
    requires s.state.ReqHttpMajor? || s.state.ReqHttpDot? || s.state.ReqHttpMinor?
    ensures Shaped(s.state, VersionArm(s, b))
  {
    hide IsNum, Is, CountsDown;
  }

  lemma LineShape(s: Parser, b: byte)
    requires s.state.ReqHttpStart? || s.state.ReqHttpEnd? || s.state.ReqLineAlmostDone?
    ensures Shaped(s.state, VersionArm(s, b))
  {
    hide IsNum, Is, CountsDown;
  }

  lemma ConstantShape(s: Parser, b: byte)
    requires s.state.ReqHttpH? || s.state.ReqHttpHT? || s.state.ReqHttpHTT? || s.state.ReqHttpHTTP?
             || s.state.ReqHttpI? || s.state.ReqHttpIC?
    ensures Shaped(s.state, ConstantArm(s, b))
  {
  }

  lemma StartShape(s: Parser, b: byte)
    requires s.state == StartReq
    ensures Shaped(s.state, StartArm(s, b))
  {
    hide FirstMethod, IsAlpha;
  }

  lemma MethodShape(s: Parser, b: byte)
    requires s.state == ReqMethod
    ensures Shaped(s.state, MethodArm(s, b))
  {
    hide SwitchMethod, MethodChar;
  }

  lemma FieldStartShape(s: Parser, b: byte)
    requires s.state == HeaderFieldStart
    ensures Shaped(s.state, FieldStartArm(s, b))
  {
    hide Token;
  }

  lemma MessageDoneShape(s: Parser)
    requires s.state == MessageDone
    ensures Shaped(s.state, NewMessage(s))
  {
  }

  lemma ValueStartShape(s: Parser, b: byte)
    requires Live(s.state) == None && s.state != ChunkDataAlmostDone
    ensures Shaped(s.state, ValueStartArm(s, b))
  {
    hide Lower, IsNum;
  }

  lemma ValueEndShape(s: Parser, b: byte)
    requires s.state.HeaderValueDiscardWs? || s.state.HeaderValueStart? || s.state.HeaderAlmostDone?
             || s.state.HeaderValueDiscardWsAlmostDone?
    ensures Shaped(s.state, ValueEndArm(s, b))
  {
    hide ValueStartArm;
    ValueStartShape(s, b);
  }

  lemma ValueLinesShape(s: Parser, b: byte)
    requires s.state.HeaderValueLws? || s.state.HeaderValueDiscardLws?
    ensures Shaped(s.state, ValueEndArm(s, b))
  {
  }

  lemma HeadersShape(cfg: Settings, s: Parser, b: byte)
    requires s.state == HeadersAlmostDone
    ensures Shaped(s.state, HeadersAlmostDoneArm(cfg, s, b))
  {
    hide CountsDown;
  }

  lemma HeadersDoneShape(s: Parser, b: byte)
    requires s.state == HeadersDone
    ensures Shaped(s.state, HeadersDoneArm(s, b))
  {
    hide CountsDown;
  }

  lemma ChunkSizeShape(s: Parser, b: byte)
    requires s.state.ChunkSizeStart? || s.state.ChunkSize? || s.state.ChunkParameters?
    ensures Shaped(s.state, ChunkArm(s, b))
  {
    hide Unhex, CountsDown, Is;
  }

  lemma ChunkShape(s: Parser, b: byte)
    requires s.state.ChunkSizeAlmostDone? || s.state.ChunkDataAlmostDone? || s.state.ChunkDataDone?
    ensures Shaped(s.state, ChunkArm(s, b))
  {
    hide Unhex, CountsDown, Is;
  }

  lemma ArmShape(cfg: Settings, s: Parser, b: byte)
    requires !IsBatch(s.state)
    ensures Shaped(s.state, Arm(cfg, s, b))
  {
    hide Shaped, UrlArm, ConstantArm, VersionArm, StartArm, MethodArm, FieldStartArm, NewMessage, ValueEndArm,
         HeadersAlmostDoneArm, HeadersDoneArm, ChunkArm;
    if s.state == ReqSpacesBeforeUrl || IsUrlState(s.state) {
      UrlShape(s, b);
    } else if s.state.StartReq? {
      StartShape(s, b);
    } else if s.state.ReqMethod? {
      MethodShape(s, b);
    } else if s.state.HeaderFieldStart? {
      FieldStartShape(s, b);
    } else if s.state.MessageDone? {
      MessageDoneShape(s);
    } else if s.state.HeaderValueDiscardWs? || s.state.HeaderValueStart? || s.state.HeaderAlmostDone?
              || s.state.HeaderValueDiscardWsAlmostDone? {
      ValueEndShape(s, b);
    } else if s.state.HeaderValueLws? || s.state.HeaderValueDiscardLws? {
      ValueLinesShape(s, b);
    } else if s.state.HeadersAlmostDone? {
      HeadersShape(cfg, s, b);
    } else if s.state.HeadersDone? {
      HeadersDoneShape(s, b);
    } else if s.state.ChunkSizeStart? || s.state.ChunkSize? || s.state.ChunkParameters? {
      ChunkSizeShape(s, b);
    } else if s.state.ChunkSizeAlmostDone? || s.state.ChunkDataAlmostDone? || s.state.ChunkDataDone? {
      ChunkShape(s, b);
    } else if s.state == Dead {
      DeadShape(cfg, s, b);
    } else if s.state.ReqHttpH? || s.state.ReqHttpHT? || s.state.ReqHttpHTT? || s.state.ReqHttpHTTP?
              || s.state.ReqHttpI? || s.state.ReqHttpIC? {
      ConstantShape(s, b);
    } else if s.state.ReqHttpMajor? || s.state.ReqHttpDot? || s.state.ReqHttpMinor? {
      VersionShape(s, b);
    } else {
      LineShape(s, b);
    }
  }

  lemma DeadShape(cfg: Settings, s: Parser, b: byte)
    requires s.state == Dead
    ensures Shaped(s.state, Arm(cfg, s, b))
  {
  }

  // A byte is never examined again in the middle of a batch.
  lemma RedoIsNoBatch(cfg: Settings, s: Parser, b: byte)
    ensures Arm(cfg, s, b).Redo? ==> !IsBatch(Arm(cfg, s, b).s.state)
  {
    hide Arm;
    LooksAgain(cfg, s, b);
  }

  // The parser object ------------------------------------------------------

  // How a step over bytes ends: on to the next byte, the same byte again in
  // another state, the end of parsing (an upgrade), or an error.
  datatype Act = Next | Again | Stop | Error

  // nread is a 32-bit count.
  function CountAfter(nread: nat, v: nat): nat {
    (nread + v % TWO32) % TWO32
  }

  // The count is exact within the limit; beyond, it is within the limit only if it has
  // gone round.
  lemma CountTells(nread: nat, v: nat)
    requires nread <= MAX_HEADER_SIZE
    ensures nread + v <= MAX_HEADER_SIZE ==> CountAfter(nread, v) == nread + v
    ensures nread + v > MAX_HEADER_SIZE && CountAfter(nread, v) <= MAX_HEADER_SIZE ==> nread + v >= TWO32
  {
  }

  ghost predicate AllTokens(name: seq<byte>) {
    forall i :: 0 <= i < |name| ==> Token(name[i]) != 0
  }

  // Byte by byte, a header name fails exactly when it is too long.
  lemma {:induction false} LongName(cfg: Settings, s: Parser, nread: nat, log: seq<Event>, name: seq<byte>)
    returns (t: Parser, l: seq<Event>)
    requires s.state == HeaderField && nread <= MAX_HEADER_SIZE && AllTokens(name)
    ensures t.state == HeaderField && Tally(RunOn(cfg, Going(s, nread, log), name), t, nread + |name|, l)
    decreases |name|
  {
    hide FeedByte, Token, FieldChar, Append;
    t, l := s, log;
    if name != [] {
      var last := |name| - 1;
      t, l := LongName(cfg, s, nread, log, name[..last]);
      FieldTally(cfg, RunOn(cfg, Going(s, nread, log), name[..last]), t, nread + last, l, name[last]);
      t, l := FieldChar(t, name[last], Token(name[last])), Append(l, Data(Field, [name[last]]));
    }
  }

  // As one batch, of which the first byte has been counted already, the name passes by its
  // 32-bit count. The two agree exactly unless the count goes round to within the limit.
  lemma NameCounts(cfg: Settings, s: Parser, nread: nat, log: seq<Event>, name: seq<byte>)
    requires s.state == HeaderField && nread < MAX_HEADER_SIZE && AllTokens(name) && name != []
    ensures var all := nread + |name|;
            (RunOn(cfg, Going(s, nread, log), name).Going? <==> CountAfter(nread + 1, |name| - 1) <= MAX_HEADER_SIZE)
            <==> all < TWO32 || all % TWO32 > MAX_HEADER_SIZE
  {
    hide RunOn;
    var t, l := LongName(cfg, s, nread, log, name);
    assert CountAfter(nread + 1, |name| - 1) == (nread + |name|) % TWO32;
  }

  // 2^32 letters: too long, and they pass.
  lemma HugeNamePasses(cfg: Settings, s: Parser, nread: nat, log: seq<Event>, name: seq<byte>)
    requires s.state == HeaderField && nread < MAX_HEADER_SIZE && name == seq(TWO32, _ => 'a' as int)
    ensures RunOn(cfg, Going(s, nread, log), name) == Failed && CountAfter(nread + 1, |name| - 1) <= MAX_HEADER_SIZE
  {
    hide RunOn;
    assert Token('a' as int) != 0;
    var t, l := LongName(cfg, s, nread, log, name);
  }

  lemma ValueMark(m: Marks, p: nat)
    requires MarksFit(HeaderValue, m, p)
    ensures m.AtMostOne(p) && m.TheKind() == Some(Value)
  {
    hide Marks.AtMostOne, Marks.TheKind;
  }

  lemma NoMarkFits(m: Marks, p: nat)
    requires m.AtMostOne(p) && m.TheKind() == None
    ensures MarksFit(HeaderAlmostDone, m, p)
  {
    hide Marks.AtMostOne, Marks.TheKind;
  }

  // How the run up to p, where the parser has got to, compares with what it has now made of
  // it, or, if it has still to look at the byte at p or has stopped there, will have.
  ghost predicate Compared(cfg: Settings, r: Run, data: seq<byte>, start: nat, p: nat, act: Act, wrapped: bool,
                           now: Run, after: Run)
  {
    && (act == Next && !wrapped ==> RunTo(cfg, r, data, start, p) == now)
    && ((act == Again || act == Stop) && !wrapped ==> RunTo(cfg, r, data, start, p + 1) == after)
    && (act == Error || wrapped ==> p <= |data| && RunTo(cfg, r, data, start, |data|) == Failed)
  }

  class HttpParser {
    var st: Parser
    var nread: nat
    var errno: Errno
    var calls: seq<Event>  // the callbacks made, in order

    ghost predicate Valid()
      reads this
    {
      errno == OK ==> Steady(st, nread, Norm(calls))
    }

    // Where the parser stands, as a run.
    ghost function Now(m: Marks, data: seq<byte>, p: nat): Run
      reads this
    {
      Going(st, nread, Seen(calls, m, data, p))
    }

    constructor (allowChunkedLength: bool, lenient: bool)
      ensures Valid() && errno == OK && calls == [] && nread == 0
      ensures st == INITIAL.(allowChunkedLength := allowChunkedLength, lenient := lenient)
    {
      st := INITIAL.(allowChunkedLength := allowChunkedLength, lenient := lenient);
      nread, errno, calls := 0, OK, [];
    }

    // CROW_COUNT_HEADER_SIZE
    method CountHeaderSize(v: nat) returns (ok: bool)
      modifies this`nread, this`errno
      ensures nread == CountAfter(old(nread), v)
      ensures ok == (nread <= MAX_HEADER_SIZE)
      ensures errno == if ok then old(errno) else HEADER_OVERFLOW
    {
      nread := CountAfter(nread, v);
      ok := nread <= MAX_HEADER_SIZE;
      if !ok {
        errno := HEADER_OVERFLOW;
      }
    }

    // The data callback over the bytes from the mark up to p.
    method CallbackData(k: Kind, data: seq<byte>, p: nat, m: Marks) returns (m': Marks)
      requires p <= |data| && m.AtMostOne(p) && (m.TheKind() == None || m.TheKind() == Some(k))
      modifies this`calls
      ensures m' == m.Put(k, None) && m'.AtMostOne(p) && m'.TheKind() == None
      ensures Norm(calls) == old(Seen(calls, m, data, p))
    {
      m' := m.Put(k, None);
      if m.Get(k).Some? {
        calls := calls + [Data(k, data[m.Get(k).value..p])];
      }
    }

    method RunCue(cue: Cue, data: seq<byte>, p: nat, m: Marks) returns (m': Marks)
      requires p < |data| && m.AtMostOne(p) && CueFits(m, cue)
      modifies this`calls, this`nread
      ensures m' == MarkAfter(m, cue, p) && m'.AtMostOne(p)
      ensures Seen(calls, m', data, p) == CueLog(old(Seen(calls, m, data, p)), cue, data[p])
      ensures nread == CuesCount(old(nread), [cue])
    {
      MarkKinds(m, cue, p);
      m' := m;
      match cue
      case Mark(k) =>
        m' := m.Put(k, Some(p));
        assert data[p..p] == [];
      case Flush(k) =>
        m' := CallbackData(k, data, p, m);
      case Note(e) =>
        calls := calls + [e];
      case ResetCount =>
        nread := 0;
    }

    method RunCues(cues: seq<Cue>, data: seq<byte>, p: nat, m: Marks) returns (m': Marks)
      requires p < |data| && m.AtMostOne(p) && CuesFit(m, cues, p)
      modifies this`calls, this`nread
      ensures m' == MarksAfter(m, cues, p) && m'.AtMostOne(p)
      ensures Seen(calls, m', data, p) == CuesLog(old(Seen(calls, m, data, p)), cues, data[p])
      ensures nread == CuesCount(old(nread), cues)
      decreases |cues|
    {
      m' := m;
      if cues != [] {
        m' := RunCue(cues[0], data, p, m);
        m' := RunCues(cues[1..], data, p, m');
      }
    }

    // One arm: the byte is done with, or is to be examined again.
    method RunArm(cfg: Settings, data: seq<byte>, p: nat, m: Marks) returns (m': Marks, act: Act)
      requires p < |data| && !IsBatch(st.state) && MarksFit(st.state, m, p) && errno == OK
      modifies this
      ensures errno == OK <==> act != Error
      ensures act == Error ==> old(Look(cfg, st, nread, Seen(calls, m, data, p), data, p)) == Failed
      ensures act == Next ==> MarksFit(st.state, m', p + 1)
                              && Now(m', data, p + 1) == old(Look(cfg, st, nread, Seen(calls, m, data, p), data, p))
      ensures act == Stop ==> Upgraded(st, nread, Norm(calls), []) == old(Look(cfg, st, nread, Seen(calls, m, data, p), data, p))
      ensures act == Again ==>
                && Rank(st.state) < Rank(old(st.state)) && !IsBatch(st.state) && MarksFit(st.state, m', p)
                && Look(cfg, st, nread, Seen(calls, m', data, p), data, p)
                   == old(Look(cfg, st, nread, Seen(calls, m, data, p), data, p))
    {
      hide Arm, Shape, MarksAfter, CuesFit, CuesLog, WithByte, Norm, Append, Live, IsUrlState, Marks.AtMostOne, Marks.TheKind;
      m' := m;
      var r := Arm(cfg, st, data[p]);
      ArmShape(cfg, st, data[p]);
      RedoIsNoBatch(cfg, st, data[p]);
      if r.Fail? {
        errno := r.errno;
        return m, Error;
      }
      ShapeFits(st.state, r.s.state, r.cues, m, p);
      m' := RunCues(r.cues, data, p, m);
      st := r.s;
      if r.Done? {
        SeenNext(calls, m', st.state, data, p);
        act := Next;
      } else if r.Halt? {
        act := Stop;
      } else {
        act := Again;
      }
    }

    // The arms that look at one byte, with their re-executions.
    method RunArms(cfg: Settings, data: seq<byte>, p: nat, m: Marks) returns (m': Marks, act: Act)
      requires p < |data| && !IsBatch(st.state) && MarksFit(st.state, m, p) && errno == OK
      modifies this
      ensures act != Again && (errno == OK <==> act != Error)
      ensures act == Error ==> old(Look(cfg, st, nread, Seen(calls, m, data, p), data, p)) == Failed
      ensures act == Next ==> MarksFit(st.state, m', p + 1)
                              && Now(m', data, p + 1) == old(Look(cfg, st, nread, Seen(calls, m, data, p), data, p))
      ensures act == Stop ==> Upgraded(st, nread, Norm(calls), []) == old(Look(cfg, st, nread, Seen(calls, m, data, p), data, p))
    {
      hide Examine, Seen, Live, IsBatch, Marks.AtMostOne, Marks.TheKind, RunTo, Look;
      m' := m;
      act := Again;
      ghost var target := Look(cfg, st, nread, Seen(calls, m, data, p), data, p);
      while act == Again
        invariant errno == OK <==> act != Error
        invariant act == Again ==>
                    && !IsBatch(st.state) && MarksFit(st.state, m', p)
                    && Look(cfg, st, nread, Seen(calls, m', data, p), data, p) == target
        invariant act == Next ==> MarksFit(st.state, m', p + 1) && Now(m', data, p + 1) == target
        invariant act == Stop ==> target == Upgraded(st, nread, Norm(calls), [])
        invariant act == Error ==> target == Failed
        decreases act == Again, Rank(st.state)
      {
        m', act := RunArm(cfg, data, p, m');
      }
    }

    // Batches ----------------------------------------------------------------

    // Header name bytes, as many as the buffer has; runs of plain ones are skipped at once.
    method PassField(cfg: Settings, data: seq<byte>, start: nat, m: Marks, ghost r: Run) returns (p: nat)
      requires start < |data| && st.state == HeaderField && MarksFit(HeaderField, m, start) && 0 < nread <= MAX_HEADER_SIZE
      requires r == Going(st, nread - 1, Seen(calls, m, data, start))
      modifies this`st
      ensures start <= p <= |data| && (p == |data| || Token(data[p]) == 0)
      ensures st.state == HeaderField && MarksFit(HeaderField, m, p)
      ensures Tally(RunTo(cfg, r, data, start, p), st, nread - 1 + (p - start), Seen(calls, m, data, p))
    {
      hide Token, FieldChar, FeedByte, Examine, Seen, Append, Marks.AtMostOne, Marks.TheKind, RunTo, Look, MarksFit;
      p := start;
      ghost var n := nread - 1;
      RunOnNothing(cfg, r, data, start);
      while p < |data| && Token(data[p]) != 0
        invariant start <= p <= |data| && st.state == HeaderField && MarksFit(HeaderField, m, p)
        invariant Tally(RunTo(cfg, r, data, start, p), st, n + (p - start), Seen(calls, m, data, p))
      {
        if st.hstate == General {
          var left := |data| - p;
          var pe := p + if left < MAX_HEADER_SIZE then left else MAX_HEADER_SIZE;
          while p + 1 < pe && Token(data[p + 1]) != 0
            invariant start <= p < |data| && Token(data[p]) != 0 && MarksFit(HeaderField, m, p)
            invariant st.state == HeaderField && st.hstate == General
            invariant Tally(RunTo(cfg, r, data, start, p), st, n + (p - start), Seen(calls, m, data, p))
          {
            FieldStep(cfg, calls, m, st, data, start, p, r, n);
            p := p + 1;
          }
          FieldStep(cfg, calls, m, st, data, start, p, r, n);
        } else {
          FieldStep(cfg, calls, m, st, data, start, p, r, n);
          st := FieldChar(st, data[p], Token(data[p]));
        }
        p := p + 1;
      }
    }

    // A header name. It passes although it is too long exactly when the count has wrapped.
    method ScanField(cfg: Settings, data: seq<byte>, start: nat, m: Marks, ghost r: Run)
      returns (p: nat, m': Marks, act: Act, ghost wrapped: bool)
      requires start < |data| && errno == OK
      requires st.state == HeaderField && MarksFit(HeaderField, m, start) && 0 < nread <= MAX_HEADER_SIZE
      requires r == Going(st, nread - 1, Seen(calls, m, data, start))
      modifies this
      ensures act == Next || act == Error
      ensures errno == OK <==> act == Next
      ensures act == Next ==> start < p <= |data| && MarksFit(st.state, m', p) && CountsDown(st)
      ensures act == Next ==> nread == CountAfter(old(nread), p - 1 - start) <= MAX_HEADER_SIZE
      ensures wrapped <==> act == Next && old(nread) + (p - 1 - start) > MAX_HEADER_SIZE
      ensures wrapped ==> |data| >= TWO32 - MAX_HEADER_SIZE
      ensures Compared(cfg, r, data, start, p, act, wrapped, Now(m', data, p),
                       Look(cfg, st, nread, Seen(calls, m', data, p), data, p))
      ensures AllTokens(data[start..]) ==>
                (act == Next <==> CountAfter(old(nread), |data| - 1 - start) <= MAX_HEADER_SIZE) && (act == Next ==> p == |data|)
    {
      hide Token, Seen, Marks.AtMostOne, Marks.TheKind, RunTo, Look, CountAfter, MarksFit, Tally, Compared;
      p := PassField(cfg, data, start, m, r);
      m' := m;
      if p == |data| {
        act, wrapped := CountRest(cfg, data, start, m, r);
      } else {
        p, m', act, wrapped := EndField(cfg, data, start, p, m, r);
      }
    }

    // The buffer ends within a header name or value: what has been passed is counted.
    method CountRest(cfg: Settings, data: seq<byte>, start: nat, m: Marks, ghost r: Run) returns (act: Act, ghost wrapped: bool)
      requires start < |data| && errno == OK && 0 < nread <= MAX_HEADER_SIZE
      requires Tally(RunTo(cfg, r, data, start, |data|), st, nread - 1 + (|data| - start), Seen(calls, m, data, |data|))
      modifies this`nread, this`errno
      ensures act == Next || act == Error
      ensures errno == OK <==> act == Next
      ensures nread == CountAfter(old(nread), |data| - 1 - start) && (act == Next <==> nread <= MAX_HEADER_SIZE)
      ensures wrapped <==> act == Next && old(nread) + (|data| - 1 - start) > MAX_HEADER_SIZE
      ensures wrapped ==> |data| >= TWO32 - MAX_HEADER_SIZE
      ensures Compared(cfg, r, data, start, |data|, act, wrapped, Now(m, data, |data|),
                       Look(cfg, st, nread, Seen(calls, m, data, |data|), data, |data|))
    {
      hide Seen, RunTo, CountAfter;
      CountTells(nread, |data| - 1 - start);
      wrapped := nread + (|data| - 1 - start) > MAX_HEADER_SIZE;
      var ok := CountHeaderSize(|data| - 1 - start);
      act := if ok then Next else Error;
      wrapped := ok && wrapped;
    }

    method EndField(cfg: Settings, data: seq<byte>, start: nat, p: nat, m: Marks, ghost r: Run)
      returns (p': nat, m': Marks, act: Act, ghost wrapped: bool)
      requires start <= p < |data| && errno == OK && Token(data[p]) == 0
      requires st.state == HeaderField && MarksFit(HeaderField, m, p) && 0 < nread <= MAX_HEADER_SIZE
      requires Tally(RunTo(cfg, r, data, start, p), st, nread - 1 + (p - start), Seen(calls, m, data, p))
      modifies this
      ensures act == Next || act == Error
      ensures errno == OK <==> act == Next
      ensures act == Next ==> p' == p + 1 && MarksFit(st.state, m', p') && st.state == HeaderValueDiscardWs
      ensures act == Next ==> nread == CountAfter(old(nread), p - start) <= MAX_HEADER_SIZE
      ensures wrapped <==> act == Next && old(nread) + (p - start) > MAX_HEADER_SIZE
      ensures wrapped ==> |data| >= TWO32 - MAX_HEADER_SIZE
      ensures Compared(cfg, r, data, start, p', act, wrapped, Now(m', data, p'),
                       Look(cfg, st, nread, Seen(calls, m', data, p'), data, p'))
    {
      hide Token, FeedByte, Examine, Seen, Append, Marks.AtMostOne, Marks.TheKind, Norm, Tally, RunTo, Look;
      p', m', act, wrapped := p + 1, m, Error, false;
      FieldEnd(cfg, calls, m, st, data, start, p, r, nread - 1);
      CountTells(nread, p - start);
      ghost var total := nread + (p - start);
      if total > MAX_HEADER_SIZE || !Is(data[p], ':') {
        StaysFailed(cfg, r, data, start, p + 1);
      }
      var ok := CountHeaderSize(p - start);
      if ok && Is(data[p], ':') {
        st := st.(state := HeaderValueDiscardWs);
        m' := CallbackData(Field, data, p, m);
        SeenNoMark(calls, m', data, p, p + 1);
        act, wrapped := Next, total > MAX_HEADER_SIZE;
      } else {
        errno := if ok then INVALID_HEADER_TOKEN else HEADER_OVERFLOW;
      }
    }

    // Header value bytes, as many as the buffer has. A plain run is skipped at once, up to
    // the size limit; the byte after a run that long is not looked at, but the count then
    // exceeds the limit.
    method PassValue(cfg: Settings, data: seq<byte>, start: nat, m: Marks, ghost r: Run) returns (p: nat, act: Act)
      requires start < |data| && st.state == HeaderValue && MarksFit(HeaderValue, m, start) && 0 < nread <= MAX_HEADER_SIZE && errno == OK
      requires r == Going(st, nread - 1, Seen(calls, m, data, start))
      modifies this`st, this`errno
      ensures act == Next || act == Error
      ensures errno == OK <==> act == Next
      ensures act == Next ==> start <= p <= |data| && (p == |data| || data[p] == CR || data[p] == LF)
      ensures act == Next ==> st.state == HeaderValue && MarksFit(HeaderValue, m, p)
      ensures act == Next ==> Tally(RunTo(cfg, r, data, start, p), st, nread - 1 + (p - start), Seen(calls, m, data, p))
      ensures act == Error ==> p <= |data| && RunTo(cfg, r, data, start, |data|) == Failed
    {
      hide Token, ValueChar, IsHeaderChar, FeedByte, Examine, Seen, Append, Marks.AtMostOne, Marks.TheKind, RunTo, Look, MarksFit;
      p, act := start, Next;
      ghost var n := nread - 1;
      RunOnNothing(cfg, r, data, start);
      while p < |data| && data[p] != CR && data[p] != LF
        invariant act == Next && errno == OK
        invariant start <= p <= |data| && st.state == HeaderValue && MarksFit(HeaderValue, m, p)
        invariant Tally(RunTo(cfg, r, data, start, p), st, n + (p - start), Seen(calls, m, data, p))
        decreases |data| - p
      {
        if !st.lenient && !IsHeaderChar(data[p]) {
          ValueByteStep(cfg, calls, m, st, data, start, p, r, n);
          errno := INVALID_HEADER_TOKEN;
          StaysFailed(cfg, r, data, start, p + 1);
          return p, Error;
        }
        if st.hstate == General {
          p, act := SkipPlain(cfg, data, start, p, m, r);
          if act == Error {
            return;
          }
        } else {
          ValueByteStep(cfg, calls, m, st, data, start, p, r, n);
          match ValueChar(st, data[p]) {
            case Bad(e) =>
              errno := e;
              StaysFailed(cfg, r, data, start, p + 1);
              return p, Error;
            case Ok(t) =>
              st := t;
          }
        }
        p := p + 1;
      }
    }

    // A header value, up to the CR or LF that ends it.
    method ScanValue(cfg: Settings, data: seq<byte>, start: nat, m: Marks, ghost r: Run)
      returns (p: nat, m': Marks, act: Act, ghost wrapped: bool)
      requires start < |data| && errno == OK
      requires st.state == HeaderValue && MarksFit(HeaderValue, m, start) && 0 < nread <= MAX_HEADER_SIZE
      requires r == Going(st, nread - 1, Seen(calls, m, data, start))
      modifies this
      ensures act != Stop && (errno == OK <==> act != Error)
      ensures act == Next ==> start < p <= |data| && MarksFit(st.state, m', p) && CountsDown(st)
      ensures act == Again ==> start <= p < |data| && st.state == HeaderAlmostDone && MarksFit(st.state, m', p)
      ensures act != Error ==> nread == CountAfter(old(nread), (if act == Next then p - 1 else p) - start) <= MAX_HEADER_SIZE
      ensures wrapped <==> act != Error && old(nread) + ((if act == Next then p - 1 else p) - start) > MAX_HEADER_SIZE
      ensures wrapped ==> |data| >= TWO32 - MAX_HEADER_SIZE
      ensures Compared(cfg, r, data, start, p, act, wrapped, Now(m', data, p),
                       Look(cfg, st, nread, Seen(calls, m', data, p), data, p))
    {
      hide Seen, Marks.AtMostOne, Marks.TheKind, RunTo, Look, CountAfter, MarksFit, Tally;
      wrapped := false;
      p, act := PassValue(cfg, data, start, m, r);
      m' := m;
      if act == Next {
        if p == |data| {
          act, wrapped := CountRest(cfg, data, start, m, r);
        } else {
          p, m', act, wrapped := EndValue(cfg, data, start, p, m, r);
        }
      }
    }

    // The fast loop over plain value bytes; p is left one short of the next byte to look at.
    method SkipPlain(cfg: Settings, data: seq<byte>, start: nat, from: nat, m: Marks, ghost r: Run) returns (p: nat, act: Act)
      requires start <= from < |data| && errno == OK && data[from] != CR && data[from] != LF
      requires st.state == HeaderValue && st.hstate == General && MarksFit(HeaderValue, m, from) && 0 < nread
      requires Tally(RunTo(cfg, r, data, start, from), st, nread - 1 + (from - start), Seen(calls, m, data, from))
      modifies this`errno
      ensures act == Next || act == Error
      ensures errno == OK <==> act == Next
      ensures act == Next ==> from <= p < |data| && MarksFit(HeaderValue, m, p + 1)
      ensures act == Next ==> Tally(RunTo(cfg, r, data, start, p + 1), st, nread - 1 + (p + 1 - start), Seen(calls, m, data, p + 1))
      ensures act == Error ==> p <= |data| && RunTo(cfg, r, data, start, |data|) == Failed
    {
      hide ValueChar, IsHeaderChar, FeedByte, Examine, Seen, Append, Marks.AtMostOne, Marks.TheKind, RunTo, Look;
      p, act := from, Next;
      var left := |data| - p;
      var pe := p + if left < MAX_HEADER_SIZE then left else MAX_HEADER_SIZE;
      while p != pe && data[p] != CR && data[p] != LF
        invariant from <= p <= pe <= |data| && MarksFit(HeaderValue, m, p) && errno == OK && act == Next
        invariant p == from ==> p != pe && data[p] != CR && data[p] != LF
        invariant Tally(RunTo(cfg, r, data, start, p), st, nread - 1 + (p - start), Seen(calls, m, data, p))
        decreases pe - p
      {
        ValueByteStep(cfg, calls, m, st, data, start, p, r, nread - 1);
        if !st.lenient && !IsHeaderChar(data[p]) {
          errno := INVALID_HEADER_TOKEN;
          StaysFailed(cfg, r, data, start, p + 1);
          return p, Error;
        }
        p := p + 1;
      }
      if p != pe {
        p := p - 1;
      } else if p == |data| {
        p := p - 1;
      } else {
        ValueOverflow(cfg, calls, m, st, data, start, p, r, nread - 1);
      }
    }

    method EndValue(cfg: Settings, data: seq<byte>, start: nat, p: nat, m: Marks, ghost r: Run)
      returns (p': nat, m': Marks, act: Act, ghost wrapped: bool)
      requires start <= p < |data| && errno == OK && (data[p] == CR || data[p] == LF)
      requires st.state == HeaderValue && MarksFit(HeaderValue, m, p) && 0 < nread <= MAX_HEADER_SIZE
      requires Tally(RunTo(cfg, r, data, start, p), st, nread - 1 + (p - start), Seen(calls, m, data, p))
      modifies this
      ensures act != Stop && (errno == OK <==> act != Error)
      ensures act == Next ==> p' == p + 1 && MarksFit(st.state, m', p')
      ensures act == Again ==> p' == p && MarksFit(st.state, m', p)
      ensures act != Error ==> st.state == HeaderAlmostDone && nread == CountAfter(old(nread), p - start) <= MAX_HEADER_SIZE
      ensures wrapped <==> act != Error && old(nread) + (p - start) > MAX_HEADER_SIZE
      ensures wrapped ==> |data| >= TWO32 - MAX_HEADER_SIZE
      ensures Compared(cfg, r, data, start, p', act, wrapped, Now(m', data, p'),
                       Look(cfg, st, nread, Seen(calls, m', data, p'), data, p'))
    {
      hide FeedByte, Examine, Seen, Append, Marks.AtMostOne, Marks.TheKind, Norm, Tally, RunTo, Look, CountAfter, MarksFit;
      ValueEnd(cfg, calls, m, st, data, start, p, r, nread - 1);
      ValueMark(m, p);
      st := st.(state := HeaderAlmostDone);
      m' := CallbackData(Value, data, p, m);
      SeenNoMark(calls, m', data, p, p + 1);
      SeenNoMark(calls, m', data, p, p);
      NoMarkFits(m', p);
      NoMarkFits(m', p + 1);
      CountTells(nread, p - start);
      wrapped := nread + (p - start) > MAX_HEADER_SIZE;
      if wrapped {
        StaysFailed(cfg, r, data, start, p + 1);
      }
      var ok := CountHeaderSize(p - start);
      if !ok {
        p', act, wrapped := p, Error, false;
      } else if data[p] == CR {
        p', act := p + 1, Next;
      } else {
        p', act := p, Again;
      }
    }

    // Body bytes: all that the body or chunk still wants and the buffer has.
    method ScanBody(cfg: Settings, data: seq<byte>, start: nat, m: Marks, ghost r: Run) returns (p: nat, m': Marks)
      requires start < |data| && errno == OK && CountsDown(st) && MarksFit(st.state, m, start)
      requires st.state == BodyIdentity || st.state == ChunkData || st.state == BodyIdentityEof
      requires r == Going(st, nread, Seen(calls, m, data, start))
      modifies this`st
      ensures start < p <= |data| && m'.AtMostOne(p) && m'.TheKind() == Some(Body)
      ensures st.state == MessageDone || MarksFit(st.state, m', p)
      ensures st.state == MessageDone || st.state == ChunkDataAlmostDone
              || (IsBatch(st.state) && Live(st.state) == None && CountsDown(st))
      ensures RunTo(cfg, r, data, start, p) ==
              if st.state == MessageDone then Look(cfg, st, nread, Seen(calls, m', data, p), data, p - 1)
              else Now(m', data, p)
    {
      hide FeedByte, Examine, Seen, Append, Norm, Marks.AtMostOne, Marks.TheKind, RunTo, Look;
      var toRead := |data| - start;
      if st.state != BodyIdentityEof && st.contentLength < toRead {
        toRead := st.contentLength;
      }
      p := start + toRead;
      m' := MarkAfter(m, Mark(Body), start);
      BodyPiece(cfg, st, nread, calls, m, data, start, p, r);
      if st.state != BodyIdentityEof {
        st := st.(contentLength := st.contentLength - toRead);
        if st.contentLength == 0 {
          st := st.(state := if st.state == ChunkData then ChunkDataAlmostDone else MessageDone);
        }
      }
    }

    // The whole body has been read: deliver it, then look at its last byte again.
    method EndBody(data: seq<byte>, p: nat, m: Marks) returns (m': Marks)
      requires 0 < p <= |data| && m.AtMostOne(p) && m.TheKind() == Some(Body)
      modifies this`calls
      ensures MarksFit(MessageDone, m', p - 1)
      ensures Seen(calls, m', data, p - 1) == old(Seen(calls, m, data, p))
    {
      m' := CallbackData(Body, data, p, m);
      SeenNoMark(calls, m', data, p, p - 1);
    }

    method ScanWholeBody(cfg: Settings, data: seq<byte>, start: nat, m: Marks, ghost r: Run)
      returns (p: nat, m': Marks, act: Act)
      requires start < |data| && errno == OK && CountsDown(st) && MarksFit(st.state, m, start)
      requires st.state == BodyIdentity || st.state == ChunkData || st.state == BodyIdentityEof
      requires r == Going(st, nread, Seen(calls, m, data, start))
      modifies this`st, this`calls
      ensures act == Next || act == Again
      ensures CountsDown(st)
      ensures act == Next ==> start < p <= |data| && MarksFit(st.state, m', p)
      ensures act == Again ==> start <= p < |data| && st.state == MessageDone && MarksFit(st.state, m', p)
      ensures Compared(cfg, r, data, start, p, act, false, Now(m', data, p),
                       Look(cfg, st, nread, Seen(calls, m', data, p), data, p))
    {
      hide FeedByte, Examine, Seen, Append, Norm, Marks.AtMostOne, Marks.TheKind, RunTo, Look, MarksFit;
      p, m' := ScanBody(cfg, data, start, m, r);
      act := Next;
      if st.state == MessageDone {
        m' := EndBody(data, p, m');
        p, act := p - 1, Again;
      }
    }

    // A batch, after its first byte has been counted.
    method ScanBatch(cfg: Settings, data: seq<byte>, start: nat, m: Marks, ghost r: Run)
      returns (p: nat, m': Marks, act: Act, ghost wrapped: bool)
      requires start < |data| && errno == OK && IsBatch(st.state)
      requires CountsDown(st) && nread <= MAX_HEADER_SIZE && MarksFit(st.state, m, start)
      requires ParsingHeader(st.state) ==> 0 < nread
      requires r == Going(st, if ParsingHeader(st.state) then nread - 1 else nread, Seen(calls, m, data, start))
      modifies this
      ensures act != Stop && (errno == OK <==> act != Error)
      ensures act != Error ==> CountsDown(st) && nread <= MAX_HEADER_SIZE
      ensures act == Next ==> start < p <= |data| && MarksFit(st.state, m', p)
      ensures act == Again ==> start <= p < |data| && !IsBatch(st.state) && MarksFit(st.state, m', p)
      ensures Compared(cfg, r, data, start, p, act, wrapped, Now(m', data, p),
                       Look(cfg, st, nread, Seen(calls, m', data, p), data, p))
      ensures wrapped ==> |data| >= TWO32 - MAX_HEADER_SIZE
    {
      hide Examine, Seen, Norm, Marks.AtMostOne, Marks.TheKind, RunTo, Look, MarksFit, Compared, CountAfter;
      wrapped := false;
      if st.state == HeaderField {
        p, m', act, wrapped := ScanField(cfg, data, start, m, r);
      } else if st.state == HeaderValue {
        p, m', act, wrapped := ScanValue(cfg, data, start, m, r);
      } else {
        p, m', act := ScanWholeBody(cfg, data, start, m, r);
      }
    }

    // The byte at from is examined in a state that is no batch.
    method LookAgain(cfg: Settings, data: seq<byte>, ghost start: nat, from: nat, m: Marks, ghost r: Run, ghost wrapped: bool)
      returns (p: nat, m': Marks, act: Act)
      requires start <= from < |data| && errno == OK && !IsBatch(st.state)
      requires CountsDown(st) && nread <= MAX_HEADER_SIZE && MarksFit(st.state, m, from)
      requires Compared(cfg, r, data, start, from, Again, wrapped, Now(m, data, from),
                        Look(cfg, st, nread, Seen(calls, m, data, from), data, from))
      modifies this
      ensures act != Again && (errno == OK <==> act != Error)
      ensures act == Next ==> start < p <= |data| && MarksFit(st.state, m', p) && CountsDown(st) && nread <= MAX_HEADER_SIZE
      ensures act == Stop ==> start <= p < |data| && Steady(st, nread, Norm(calls))
      ensures Compared(cfg, r, data, start, p, act, wrapped, Now(m', data, p), Upgraded(st, nread, Norm(calls), []))
    {
      hide Examine, Seen, Norm, Marks.AtMostOne, Marks.TheKind, Live, MarksFit, RunTo, Look, FeedByte, IsBatch;
      LookSteady(cfg, st, nread, Seen(calls, m, data, from), data, from);
      p := from;
      m', act := RunArms(cfg, data, p, m);
      if act == Next {
        p := p + 1;
      } else if act == Error && !wrapped {
        StaysFailed(cfg, r, data, start, p + 1);
      }
    }

    // One turn of the main loop: a batch or a single byte.
    method Advance(cfg: Settings, data: seq<byte>, start: nat, m: Marks, ghost r: Run)
      returns (p: nat, m': Marks, act: Act, ghost wrapped: bool)
      requires start < |data| && errno == OK
      requires CountsDown(st) && nread <= MAX_HEADER_SIZE && MarksFit(st.state, m, start)
      requires r == Now(m, data, start)
      modifies this
      ensures act != Again && (errno == OK <==> act != Error)
      ensures act == Next ==> start < p <= |data| && MarksFit(st.state, m', p) && CountsDown(st) && nread <= MAX_HEADER_SIZE
      ensures act == Stop ==> start <= p < |data| && Steady(st, nread, Norm(calls))
      ensures Compared(cfg, r, data, start, p, act, wrapped, Now(m', data, p), Upgraded(st, nread, Norm(calls), []))
      ensures wrapped ==> |data| >= TWO32 - MAX_HEADER_SIZE
    {
      hide Examine, Seen, Norm, Marks.AtMostOne, Marks.TheKind, Live, MarksFit, RunTo, Look, FeedByte, IsBatch;
      p, m', act, wrapped := start, m, Again, false;
      FirstByte(cfg, st, nread, Seen(calls, m, data, start), data, start);
      if ParsingHeader(st.state) {
        var ok := CountHeaderSize(1);
        if !ok {
          StaysFailed(cfg, r, data, start, start + 1);
          act := Error;
          return;
        }
      }
      if IsBatch(st.state) {
        p, m', act, wrapped := ScanBatch(cfg, data, start, m, r);
      }
      if act == Again {
        p, m', act := LookAgain(cfg, data, start, p, m', r, wrapped);
      }
    }

    // The data collected at the end of the buffer is delivered.
    method DeliverRest(data: seq<byte>, m: Marks)
      requires m.AtMostOne(|data|)
      modifies this`calls
      ensures Norm(calls) == old(Seen(calls, m, data, |data|))
    {
      var m' := m;
      if m'.field.Some? {
        m' := CallbackData(Field, data, |data|, m');
      }
      if m'.value.Some? {
        m' := CallbackData(Value, data, |data|, m');
      }
      if m'.url.Some? {
        m' := CallbackData(Url, data, |data|, m');
      }
      if m'.body.Some? {
        m' := CallbackData(Body, data, |data|, m');
      }
    }

    // The main loop, from a live mark at the start of the buffer or none.
    method Scan(cfg: Settings, data: seq<byte>, m: Marks, ghost r: Run)
      returns (p: nat, m': Marks, act: Act, ghost wrapped: bool)
      requires errno == OK && MarksFit(st.state, m, 0)
      requires r == Now(m, data, 0) && CountsDown(st) && nread <= MAX_HEADER_SIZE
      modifies this
      ensures act != Again && (errno == OK <==> act != Error) && p <= |data|
      ensures act == Next ==> p == |data| && MarksFit(st.state, m', p) && CountsDown(st) && nread <= MAX_HEADER_SIZE
      ensures act == Stop ==> Steady(st, nread, Norm(calls))
      ensures act == Next && !wrapped ==> RunTo(cfg, r, data, 0, p) == Now(m', data, p)
      ensures act == Stop && !wrapped ==> RunTo(cfg, r, data, 0, p) == Upgraded(st, nread, Norm(calls), [])
      ensures act == Error || wrapped ==> RunTo(cfg, r, data, 0, |data|) == Failed
      ensures wrapped ==> |data| >= TWO32 - MAX_HEADER_SIZE
    {
      hide Examine, Seen, Norm, Marks.AtMostOne, Marks.TheKind, Live, FeedByte, RunTo, Append, MarksFit;
      RunToWhole(cfg, r, data);
      p, m', act, wrapped := 0, m, Next, false;
      while p < |data|
        invariant p <= |data| && errno == OK && MarksFit(st.state, m', p) && act == Next
        invariant CountsDown(st) && nread <= MAX_HEADER_SIZE
        invariant !wrapped ==> RunTo(cfg, r, data, 0, p) == Now(m', data, p)
        invariant wrapped ==> RunTo(cfg, r, data, 0, |data|) == Failed && |data| >= TWO32 - MAX_HEADER_SIZE
      {
        ghost var from := p;
        ghost var now;
        p, m', act, now := Advance(cfg, data, p, m', Now(m', data, p));
        if !wrapped {
          RunToChain(cfg, r, data, 0, from, if act == Error || now then |data| else if act == Stop then p + 1 else p);
        }
        wrapped := wrapped || now;
        if act == Error {
          return;
        }
        if act == Stop {
          p := p + 1;
          return;
        }
      }
    }

    // http_parser_execute on a buffer that is not empty.
    method ExecuteBuffer(cfg: Settings, data: seq<byte>) returns (n: nat, ghost wrapped: bool)
      requires Valid() && errno == OK && 0 < |data|
      modifies this
      ensures Valid() && n <= |data|
      ensures match RunOn(cfg, Going(old(st), old(nread), Norm(old(calls))), data)
              case Going(s, k, log) => errno == OK && n == |data| && Going(st, nread, Norm(calls)) == Going(s, k, log) && !wrapped
              case Upgraded(s, k, log, rest) =>
                && errno == OK && n + |rest| == |data| && rest == data[n..]
                && st == s && nread == k && Norm(calls) == log && !wrapped
              case Failed => errno != OK || wrapped
      ensures wrapped ==> |data| >= TWO32 - MAX_HEADER_SIZE
    {
      hide Examine, Seen, Norm, Marks.AtMostOne, Marks.TheKind, Live, FeedByte, RunTo, MarksFit, Append, RunOn, MarksAtStart;
      ghost var r := Going(st, nread, Norm(calls));
      var m := MarksAtStart(st.state);
      Resume(st, nread, calls, data);
      RunToWhole(cfg, r, data);
      var act;
      n, m, act, wrapped := Scan(cfg, data, m, r);
      if act == Next {
        SeenSteady(st, nread, calls, m, data);
        DeliverRest(data, m);
      } else if act == Stop && !wrapped {
        RestAfterUpgrade(cfg, r, data, n);
      }
    }

    // http_parser_execute. On an empty buffer, the end of the input, a body that
    // ends with the connection is complete; in the middle of a message it is an error.
    // What the run byte by byte accepts is treated alike in buffers of any size; what it
    // refuses is refused, unless a header count of one buffer has gone round 2^32.
    method Execute(cfg: Settings, data: seq<byte>) returns (n: nat, ghost wrapped: bool)
      requires Valid()
      modifies this
      ensures Valid()
      ensures old(errno) != OK ==> n == 0 && errno == old(errno) && st == old(st) && nread == old(nread) && calls == old(calls)
      ensures old(errno) == OK && data == [] ==>
                if old(st).state == BodyIdentityEof
                then n == 0 && errno == OK && st == old(st) && calls == old(calls) + [MessageComplete]
                else st == old(st) && calls == old(calls) && (n == 0 <==> errno == OK)
                     && (errno == OK <==> st.state == Dead || st.state == StartReq)
      ensures old(errno) == OK && data != [] ==>
                n <= |data| &&
                match RunOn(cfg, Going(old(st), old(nread), Norm(old(calls))), data)
                case Going(s, k, log) => errno == OK && n == |data| && Going(st, nread, Norm(calls)) == Going(s, k, log) && !wrapped
                case Upgraded(s, k, log, rest) =>
                  && errno == OK && n + |rest| == |data| && rest == data[n..]
                  && st == s && nread == k && Norm(calls) == log && !wrapped
                case Failed => errno != OK || wrapped
      ensures wrapped ==> |data| >= TWO32 - MAX_HEADER_SIZE
    {
      hide Examine, Norm, Live, FeedByte, Append, RunOn;
      wrapped := false;
      if errno != OK {
        return 0, false;
      }
      if data == [] {
        n := EndOfInput();
      } else {
        n, wrapped := ExecuteBuffer(cfg, data);
      }
    }

    method EndOfInput() returns (n: nat)
      requires Valid() && errno == OK
      modifies this
      ensures Valid()
      ensures if old(st).state == BodyIdentityEof
              then n == 0 && errno == OK && st == old(st) && calls == old(calls) + [MessageComplete]
              else st == old(st) && calls == old(calls) && (n == 0 <==> errno == OK)
                   && (errno == OK <==> st.state == Dead || st.state == StartReq)
    {
      hide Norm;
      n := 0;
      match st.state
      case BodyIdentityEof => calls := calls + [MessageComplete];
      case Dead =>
      case StartReq =>
      case _ =>
        errno := INVALID_EOF_STATE;
        n := 1;
    }

    // A connection feeds what it receives, buffer by buffer, until an error or an
    // upgrade, which it has to look for after each call.
    method FeedAll(cfg: Settings, parts: seq<seq<byte>>) returns (fed: nat, n: nat, ghost wrapped: bool)
      requires Valid() && errno == OK && !st.upgrade && Framed(st, nread)
      requires forall d :: d in parts ==> d != []
      modifies this
      ensures Valid() && fed <= |parts|
      ensures match RunOn(cfg, Going(old(st), old(nread), Norm(old(calls))), Flat(parts))
              case Going(s, k, log) =>
                errno == OK && fed == |parts| && Going(st, nread, Norm(calls)) == Going(s, k, log) && !wrapped
              case Upgraded(s, k, log, rest) =>
                && errno == OK && fed < |parts| && n <= |parts[fed]| && rest == parts[fed][n..] + Flat(parts[fed + 1..])
                && st == s && nread == k && Norm(calls) == log && !wrapped
              case Failed => errno != OK || wrapped
      ensures (forall d :: d in parts ==> |d| < TWO32 - MAX_HEADER_SIZE) ==> !wrapped
    {
      hide Examine, Norm, Live, FeedByte, Append, RunOn, Steady, Framed;
      ghost var r := Going(st, nread, Norm(calls));
      fed, n, wrapped := 0, 0, false;
      NothingFed(cfg, r);
      while fed < |parts|
        invariant fed <= |parts| && Valid() && errno == OK
        invariant !wrapped ==> RunOn(cfg, r, Flat(parts[..fed])) == Going(st, nread, Norm(calls))
        invariant !wrapped ==> Stands(Going(st, nread, Norm(calls)))
        invariant wrapped ==> RunOn(cfg, r, Flat(parts)) == Failed
        invariant (forall d :: d in parts ==> |d| < TWO32 - MAX_HEADER_SIZE) ==> !wrapped
      {
        ghost var now;
        if !wrapped {
          FedNext(cfg, r, parts, fed);
          RunStands(cfg, Going(st, nread, Norm(calls)), parts[fed]);
          FedRest(cfg, r, parts, fed + 1);
        }
        n, now := Execute(cfg, parts[fed]);
        assert parts[fed] in parts;
        wrapped := wrapped || now;
        if errno != OK || st.upgrade {
          return;
        }
        fed := fed + 1;
      }
      assert parts[..fed] == parts;
    }
  }

  lemma RunOnNothing(cfg: Settings, r: Run, data: seq<byte>, start: nat)
    requires start <= |data|
    ensures RunTo(cfg, r, data, start, start) == r
  {
  }

  lemma StaysFailed(cfg: Settings, r: Run, data: seq<byte>, start: nat, p: nat)
    requires start <= p <= |data| && RunTo(cfg, r, data, start, p) == Failed
    ensures RunTo(cfg, r, data, start, |data|) == Failed
  {
    hide FeedByte, Examine;
    assert data[start..|data|] == data[start..p] + data[p..];
    RunOnConcat(cfg, r, data[start..p], data[p..]);
    RunOnFailed(cfg, data[p..]);
  }

  lemma RunOnNext(cfg: Settings, r: Run, data: seq<byte>, start: nat, p: nat)
    requires start <= p < |data|
    ensures RunTo(cfg, r, data, start, p + 1) == FeedByte(cfg, RunTo(cfg, r, data, start, p), data[p])
  {
    assert data[start..p + 1] == data[start..p] + [data[p]];
  }

  // One more byte of a header name.
  lemma FieldStep(cfg: Settings, calls: seq<Event>, m: Marks, s: Parser, data: seq<byte>, start: nat, p: nat, r: Run, n: nat)
    requires start <= p < |data| && MarksFit(HeaderField, m, p) && s.state == HeaderField && Token(data[p]) != 0
    requires Tally(RunTo(cfg, r, data, start, p), s, n + (p - start), Seen(calls, m, data, p))
    ensures MarksFit(HeaderField, m, p + 1)
    ensures Tally(RunTo(cfg, r, data, start, p + 1), FieldChar(s, data[p], Token(data[p])), n + (p + 1 - start), Seen(calls, m, data, p + 1))
    ensures FieldChar(s, data[p], Token(data[p])).state == HeaderField
    ensures s.hstate == General ==> FieldChar(s, data[p], Token(data[p])) == s
  {
    hide FeedByte, Tally, Token, Marks.AtMostOne, Marks.TheKind, Seen, Append, RunTo, Look, Examine;
    RunOnNext(cfg, r, data, start, p);
    FieldTally(cfg, RunTo(cfg, r, data, start, p), s, n + (p - start), Seen(calls, m, data, p), data[p]);
    SeenNext(calls, m, s.state, data, p);
  }

  // The byte after a header name.
  lemma FieldEnd(cfg: Settings, calls: seq<Event>, m: Marks, s: Parser, data: seq<byte>, start: nat, p: nat, r: Run, n: nat)
    requires start <= p < |data| && MarksFit(HeaderField, m, p) && s.state == HeaderField && Token(data[p]) == 0
    requires Tally(RunTo(cfg, r, data, start, p), s, n + (p - start), Seen(calls, m, data, p))
    ensures RunTo(cfg, r, data, start, p + 1) ==
            if n + (p - start) < MAX_HEADER_SIZE && Is(data[p], ':')
            then Going(s.(state := HeaderValueDiscardWs), n + (p - start) + 1, Seen(calls, m, data, p)) else Failed
  {
    hide FeedByte, Tally, Token, Marks.AtMostOne, Marks.TheKind, Seen, Append, RunTo, Look, Examine;
    RunOnNext(cfg, r, data, start, p);
    FieldTally(cfg, RunTo(cfg, r, data, start, p), s, n + (p - start), Seen(calls, m, data, p), data[p]);
  }

  // One more byte of a header value.
  lemma ValueByteStep(cfg: Settings, calls: seq<Event>, m: Marks, s: Parser, data: seq<byte>, start: nat, p: nat, r: Run, n: nat)
    requires start <= p < |data| && MarksFit(HeaderValue, m, p) && s.state == HeaderValue && data[p] != CR && data[p] != LF
    requires Tally(RunTo(cfg, r, data, start, p), s, n + (p - start), Seen(calls, m, data, p))
    ensures MarksFit(HeaderValue, m, p + 1)
    ensures !(s.lenient || IsHeaderChar(data[p])) ==> RunTo(cfg, r, data, start, p + 1) == Failed
    ensures s.lenient || IsHeaderChar(data[p]) ==>
              match ValueChar(s, data[p])
              case Ok(t) => t.state == HeaderValue
                            && Tally(RunTo(cfg, r, data, start, p + 1), t, n + (p + 1 - start), Seen(calls, m, data, p + 1))
              case Bad(_) => RunTo(cfg, r, data, start, p + 1) == Failed
    ensures s.hstate == General ==> ValueChar(s, data[p]) == Ok(s)
  {
    hide FeedByte, Tally, Marks.AtMostOne, Marks.TheKind, Seen, Append, IsHeaderChar, Examine, RunTo, Look;
    RunOnNext(cfg, r, data, start, p);
    ValueTally(cfg, RunTo(cfg, r, data, start, p), s, n + (p - start), Seen(calls, m, data, p), data[p]);
    SeenNext(calls, m, s.state, data, p);
  }

  // A byte that is not looked at, once the header is too long anyway.
  lemma ValueOverflow(cfg: Settings, calls: seq<Event>, m: Marks, s: Parser, data: seq<byte>, start: nat, p: nat, r: Run, n: nat)
    requires start <= p < |data| && MarksFit(HeaderValue, m, p) && s.state == HeaderValue && n + (p - start) >= MAX_HEADER_SIZE
    requires Tally(RunTo(cfg, r, data, start, p), s, n + (p - start), Seen(calls, m, data, p))
    ensures MarksFit(HeaderValue, m, p + 1)
    ensures Tally(RunTo(cfg, r, data, start, p + 1), s, n + (p + 1 - start), Seen(calls, m, data, p + 1))
  {
    hide FeedByte, Marks.AtMostOne, Marks.TheKind, Seen, Append, IsHeaderChar, Examine, ValueChar, RunTo, Look;
    RunOnNext(cfg, r, data, start, p);
    if data[p] == CR || data[p] == LF {
      ValueEndTally(cfg, RunTo(cfg, r, data, start, p), s, n + (p - start), Seen(calls, m, data, p), data[p]);
    } else {
      ValueTally(cfg, RunTo(cfg, r, data, start, p), s, n + (p - start), Seen(calls, m, data, p), data[p]);
    }
    SeenNext(calls, m, s.state, data, p);
  }

  // The CR or LF after a header value.
  lemma ValueEnd(cfg: Settings, calls: seq<Event>, m: Marks, s: Parser, data: seq<byte>, start: nat, p: nat, r: Run, n: nat)
    requires start <= p < |data| && MarksFit(HeaderValue, m, p) && s.state == HeaderValue && (data[p] == CR || data[p] == LF)
    requires Tally(RunTo(cfg, r, data, start, p), s, n + (p - start), Seen(calls, m, data, p))
    ensures RunTo(cfg, r, data, start, p + 1) ==
            if n + (p - start) >= MAX_HEADER_SIZE then Failed
            else if data[p] == CR then Going(s.(state := HeaderAlmostDone), n + (p - start) + 1, Seen(calls, m, data, p))
            else Look(cfg, s.(state := HeaderAlmostDone), n + (p - start) + 1, Seen(calls, m, data, p), data, p)
  {
    hide FeedByte, Marks.AtMostOne, Marks.TheKind, Seen, Append, Examine, RunTo;
    RunOnNext(cfg, r, data, start, p);
    ValueEndTally(cfg, RunTo(cfg, r, data, start, p), s, n + (p - start), Seen(calls, m, data, p), data[p]);
  }

  // A piece of the body that ends at the end of the buffer, of the body or of the chunk.
  lemma BodyPiece(cfg: Settings, s: Parser, nread: nat, calls: seq<Event>, m: Marks, data: seq<byte>, start: nat, p: nat, r: Run)
    requires start < p <= |data| && MarksFit(s.state, m, start) && r == Going(s, nread, Seen(calls, m, data, start))
    requires s.state == BodyIdentityEof || ((s.state == BodyIdentity || s.state == ChunkData) && p - start <= s.contentLength)
    ensures var n := MarkAfter(m, Mark(Body), start);
            && n.AtMostOne(p) && n.TheKind() == Some(Body)
            && RunTo(cfg, r, data, start, p) ==
               var log := Seen(calls, n, data, p);
               if s.state == BodyIdentityEof then Going(s, nread, log)
               else
                 var t := s.(contentLength := s.contentLength - (p - start));
                 if 0 < t.contentLength then Going(t, nread, log)
                 else if s.state == ChunkData then Going(t.(state := ChunkDataAlmostDone), nread, log)
                 else Look(cfg, t.(state := MessageDone), nread, log, data, p - 1)
  {
    hide FeedByte, Examine, Seen, Append, Norm, Marks.AtMostOne, Marks.TheKind;
    SeenBody(calls, m, data, start, p);
    var bs := data[start..p];
    assert |bs| == p - start && bs[|bs| - 1] == data[p - 1];
    if s.state == BodyIdentityEof || |bs| < s.contentLength {
      BodyInside(cfg, s, nread, Seen(calls, m, data, start), bs);
    } else {
      BodyToEnd(cfg, s, nread, Seen(calls, m, data, start), bs);
    }
  }

  lemma FirstByte(cfg: Settings, s: Parser, nread: nat, log: seq<Event>, data: seq<byte>, start: nat)
    requires start < |data|
    ensures RunTo(cfg, Going(s, nread, log), data, start, start + 1) ==
            if ParsingHeader(s.state) && nread >= MAX_HEADER_SIZE then Failed
            else Look(cfg, s, Counted(s.state, nread), log, data, start)
  {
    hide Examine;
    RunOnNext(cfg, Going(s, nread, log), data, start, start);
    RunOnNothing(cfg, Going(s, nread, log), data, start);
  }

  // What a look at a byte leaves.
  lemma LookSteady(cfg: Settings, s: Parser, nread: nat, log: seq<Event>, data: seq<byte>, p: nat)
    requires p < |data| && CountsDown(s) && nread <= MAX_HEADER_SIZE
    ensures SteadyRun(Look(cfg, s, nread, log, data, p))
  {
    hide Examine, Steady;
    ExamineSteady(cfg, s, nread, log, data[p]);
  }

  // At the end of the buffer the data that is live is the last that was seen.
  lemma SeenSteady(s: Parser, nread: nat, calls: seq<Event>, m: Marks, data: seq<byte>)
    requires MarksFit(s.state, m, |data|) && CountsDown(s) && nread <= MAX_HEADER_SIZE
    ensures m.AtMostOne(|data|) && Steady(s, nread, Seen(calls, m, data, |data|))
  {
  }

  // Data that goes on from the last buffer is marked from the start of this one.
  function MarksAtStart(s: State): Marks {
    match Live(s) case None => NO_MARKS case Some(k) => NO_MARKS.Put(k, Some(0))
  }

  lemma Resume(s: Parser, nread: nat, calls: seq<Event>, data: seq<byte>)
    requires Steady(s, nread, Norm(calls))
    ensures MarksFit(s.state, MarksAtStart(s.state), 0)
    ensures Seen(calls, MarksAtStart(s.state), data, 0) == Norm(calls)
  {
    var log := Norm(calls);
    if Live(s.state).Some? {
      var last := log[|log| - 1];
      assert data[0..0] == [] && last.bytes + [] == last.bytes;
      assert log[..|log| - 1] + [last] == log;
    }
  }

  lemma RunToWhole(cfg: Settings, r: Run, data: seq<byte>)
    ensures RunTo(cfg, r, data, 0, 0) == r
    ensures RunTo(cfg, r, data, 0, |data|) == RunOn(cfg, r, data)
  {
    assert data[0..|data|] == data;
  }

  lemma RunToChain(cfg: Settings, r: Run, data: seq<byte>, a: nat, b: nat, c: nat)
    requires a <= b <= c <= |data|
    ensures RunTo(cfg, r, data, a, c) == RunTo(cfg, RunTo(cfg, r, data, a, b), data, b, c)
  {
    hide FeedByte;
    assert data[a..c] == data[a..b] + data[b..c];
    RunOnConcat(cfg, r, data[a..b], data[b..c]);
  }

  ghost predicate SteadyRun(r: Run) {
    match r
    case Going(t, n, l) => Steady(t, n, l)
    case Upgraded(t, n, l, _) => Steady(t, n, l)
    case Failed => true
  }

  lemma RestAfterUpgrade(cfg: Settings, r: Run, data: seq<byte>, p: nat)
    requires p <= |data| && RunTo(cfg, r, data, 0, p).Upgraded? && RunTo(cfg, r, data, 0, p).rest == []
    ensures RunTo(cfg, r, data, 0, |data|) == RunTo(cfg, r, data, 0, p).(rest := data[p..])
  {
    hide FeedByte;
    RunToChain(cfg, r, data, 0, p, |data|);
    RunOnUpgraded(cfg, RunTo(cfg, r, data, 0, p), data[p..|data|]);
    assert data[p..|data|] == data[p..] && [] + data[p..] == data[p..];
  }

  // Feeds ------------------------------------------------------------------

  ghost function Flat(parts: seq<seq<byte>>): seq<byte> {
    if parts == [] then [] else parts[0] + Flat(parts[1..])
  }

  lemma {:induction false} FlatConcat(a: seq<seq<byte>>, b: seq<seq<byte>>)
    ensures Flat(a + b) == Flat(a) + Flat(b)
  {
    if a == [] {
      assert a + b == b;
    } else {
      assert (a + b)[1..] == a[1..] + b;
      FlatConcat(a[1..], b);
      assert a[0] + (Flat(a[1..]) + Flat(b)) == Flat(a) + Flat(b);
    }
  }

  lemma NothingFed(cfg: Settings, r: Run)
    ensures RunOn(cfg, r, Flat([])) == r
  {
  }

  lemma FedNext(cfg: Settings, r: Run, parts: seq<seq<byte>>, fed: nat)
    requires fed < |parts|
    ensures RunOn(cfg, r, Flat(parts[..fed + 1])) == RunOn(cfg, RunOn(cfg, r, Flat(parts[..fed])), parts[fed])
  {
    hide RunOn;
    assert parts[..fed + 1] == parts[..fed] + [parts[fed]];
    assert Flat([parts[fed]]) == parts[fed];
    FlatConcat(parts[..fed], [parts[fed]]);
    RunOnConcat(cfg, r, Flat(parts[..fed]), parts[fed]);
  }

  // Nothing that comes later changes a run that has failed or stopped.
  lemma FedRest(cfg: Settings, r: Run, parts: seq<seq<byte>>, fed: nat)
    requires fed <= |parts|
    ensures var done := RunOn(cfg, r, Flat(parts[..fed]));
            RunOn(cfg, r, Flat(parts)) ==
            match done
            case Failed => Failed
            case Upgraded(_, _, _, rest) => done.(rest := rest + Flat(parts[fed..]))
            case Going(_, _, _) => RunOn(cfg, done, Flat(parts[fed..]))
  {
    hide FeedByte, Flat;
    var done := RunOn(cfg, r, Flat(parts[..fed]));
    assert parts[..fed] + parts[fed..] == parts;
    FlatConcat(parts[..fed], parts[fed..]);
    RunOnConcat(cfg, r, Flat(parts[..fed]), Flat(parts[fed..]));
    RunOnFailed(cfg, Flat(parts[fed..]));
    if done.Upgraded? {
      RunOnUpgraded(cfg, done, Flat(parts[fed..]));
    }
  }
}
