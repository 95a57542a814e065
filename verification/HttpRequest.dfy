/** The callbacks that put a request together from the pieces the parser delivers. */
module HttpRequest {
  import opened Common
  import opened HttpMessage
  import opened HttpRun

  datatype Header = Header(field: seq<byte>, value: seq<byte>)

  // inField: the last header callback brought a field name (header_building_state).
  datatype Request = Request(url: seq<byte>, inField: bool, field: seq<byte>, value: seq<byte>,
                             headers: seq<Header>, body: seq<byte>)

  const EMPTY := Request([], false, [], [], [], [])

  function Step(q: Request, e: Event): Request {
    match e
    case MessageBegin => EMPTY
    case Data(Url, x) => q.(url := q.url + x)
    case Data(Field, x) =>
      if q.inField then q.(field := q.field + x)
      else if q.value == [] then q.(field := x, inField := true)
      else q.(headers := q.headers + [Header(q.field, q.value)], field := x, value := [], inField := true)
    case Data(Value, x) =>
      if q.inField then q.(value := x, inField := false) else q.(value := q.value + x)
    case Data(Body, x) => q.(body := q.body + x)
    case HeadersComplete =>
      if q.field == [] then q
      else q.(headers := q.headers + [Header(q.field, q.value)], field := [], value := [])
    case MessageComplete => q
  }

  function Assembled(q: Request, log: seq<Event>): Request {
    if log == [] then q else Step(Assembled(q, log[..|log| - 1]), log[|log| - 1])
  }

  // The object whose methods the parser calls. A string that was moved from is taken to be empty.
  class RequestBuilder {
    var url: seq<byte>
    var inField: bool
    var field: seq<byte>
    var value: seq<byte>
    var headers: seq<Header>
    var body: seq<byte>

    function Now(): Request
      reads this
    {
      Request(url, inField, field, value, headers, body)
    }

    constructor ()
      ensures Now() == EMPTY
    {
      url, inField, field, value, headers, body := [], false, [], [], [], [];
    }

    method Clear()
      modifies this
      ensures Now() == Step(old(Now()), MessageBegin)
    {
      url, field, value, headers, body := [], [], [], [], [];
      inField := false;
    }

    method OnHeaderField(x: seq<byte>)
      modifies this
      ensures Now() == Step(old(Now()), Data(Field, x))
    {
      if inField {
        field := field + x;
      } else {
        if value != [] {
          headers := headers + [Header(field, value)];
          value := [];
        }
        field := x;
        inField := true;
      }
    }

    method OnHeaderValue(x: seq<byte>)
      modifies this
      ensures Now() == Step(old(Now()), Data(Value, x))
    {
      if inField {
        inField := false;
        value := x;
      } else {
        value := value + x;
      }
    }

    method OnHeadersComplete()
      modifies this
      ensures Now() == Step(old(Now()), HeadersComplete)
    {
      if field != [] {
        headers := headers + [Header(field, value)];
        field, value := [], [];
      }
    }

    method OnEvent(e: Event)
      modifies this
      ensures Now() == Step(old(Now()), e)
    {
      match e
      case MessageBegin => Clear();
      case Data(Url, x) => url := url + x;
      case Data(Field, x) => OnHeaderField(x);
      case Data(Value, x) => OnHeaderValue(x);
      case Data(Body, x) => body := body + x;
      case HeadersComplete => OnHeadersComplete();
      case MessageComplete =>
    }

    // All callbacks of some feeds.
    method Receive(calls: seq<Event>)
      modifies this
      ensures Now() == Assembled(old(Now()), calls)
      ensures Now() == Assembled(old(Now()), Norm(calls))
    {
      ghost var q := Now();
      for i := 0 to |calls|
        invariant Now() == Assembled(q, calls[..i])
      {
        OnEvent(calls[i]);
        assert calls[..i + 1][..i] == calls[..i];
      }
      assert calls[..|calls|] == calls;
      PiecesDoNotMatter(q, calls);
    }
  }

  // Data in two pieces is as good as in one.
  lemma StepTwice(q: Request, k: Kind, x: seq<byte>, y: seq<byte>)
    ensures Step(Step(q, Data(k, x)), Data(k, y)) == Step(q, Data(k, x + y))
  {
    assert q.url + x + y == q.url + (x + y);
    assert q.field + x + y == q.field + (x + y);
    assert q.value + x + y == q.value + (x + y);
    assert q.body + x + y == q.body + (x + y);
  }

  lemma AssembledAppend(q: Request, log: seq<Event>, e: Event)
    ensures Assembled(q, Append(log, e)) == Step(Assembled(q, log), e)
  {
    hide Step;
    var joined := Append(log, e);
    var n := |joined| - 1;
    if log != [] && log[|log| - 1].Data? && e.Data? && log[|log| - 1].kind == e.kind {
      var last := log[|log| - 1];
      assert joined[..n] == log[..n];
      StepTwice(Assembled(q, log[..n]), e.kind, last.bytes, e.bytes);
      assert Data(e.kind, last.bytes) == last && Data(e.kind, e.bytes) == e;
    } else {
      assert joined[..n] == log;
    }
  }

  // The request that is put together does not depend on how the input was cut into buffers.
  lemma {:induction false} PiecesDoNotMatter(q: Request, calls: seq<Event>)
    ensures Assembled(q, Norm(calls)) == Assembled(q, calls)
    decreases |calls|
  {
    hide Step, Append;
    if calls != [] {
      PiecesDoNotMatter(q, calls[..|calls| - 1]);
      AssembledAppend(q, Norm(calls[..|calls| - 1]), calls[|calls| - 1]);
    }
  }

  // The headers that a request ends up with ---------------------------------

  function HeaderLog(hs: seq<Header>): seq<Event> {
    if hs == [] then []
    else HeaderLog(hs[..|hs| - 1]) + [Data(Field, hs[|hs| - 1].field), Data(Value, hs[|hs| - 1].value)]
  }

  // Those before the last that have a value.
  function Kept(hs: seq<Header>): seq<Header> {
    if hs == [] then []
    else Kept(hs[..|hs| - 1]) + if hs[|hs| - 1].value == [] then [] else [hs[|hs| - 1]]
  }

  lemma AssembledTwo(q: Request, log: seq<Event>, d: Event, e: Event)
    ensures Assembled(q, log + [d, e]) == Step(Step(Assembled(q, log), d), e)
  {
    hide Step;
    assert (log + [d, e])[..|log| + 1] == log + [d];
    assert (log + [d])[..|log|] == log;
  }

  lemma {:induction false} HeadersSoFar(q: Request, hs: seq<Header>)
    requires q.headers == [] && q.value == [] && !q.inField && hs != []
    ensures var last := hs[|hs| - 1];
            Assembled(q, HeaderLog(hs)) == q.(headers := Kept(hs[..|hs| - 1]), field := last.field, value := last.value)
    decreases |hs|
  {
    var init := hs[..|hs| - 1];
    var last := hs[|hs| - 1];
    AssembledTwo(q, HeaderLog(init), Data(Field, last.field), Data(Value, last.value));
    if init == [] {
      assert Assembled(q, HeaderLog(init)) == q;
    } else {
      HeadersSoFar(q, init);
      assert init[|init| - 1].value == [] || Header(init[|init| - 1].field, init[|init| - 1].value) == init[|init| - 1];
    }
  }

  // A header whose value is empty is lost, except the last one. So all headers arrive if
  // and only if only the last may be without a value.
  lemma HeadersArrive(q: Request, hs: seq<Header>)
    requires q.headers == [] && q.value == [] && !q.inField && hs != [] && hs[|hs| - 1].field != []
    ensures var init := hs[..|hs| - 1];
            var got := Assembled(q, HeaderLog(hs) + [HeadersComplete]).headers;
            && got == Kept(init) + [hs[|hs| - 1]]
            && (got == hs <==> forall h :: h in init ==> h.value != [])
  {
    HeadersSoFar(q, hs);
    var log := HeaderLog(hs) + [HeadersComplete];
    assert log[..|log| - 1] == HeaderLog(hs);
    var init := hs[..|hs| - 1];
    assert init + [hs[|hs| - 1]] == hs;
    KeptAll(init);
    assert Header(hs[|hs| - 1].field, hs[|hs| - 1].value) == hs[|hs| - 1];
    if Kept(init) + [hs[|hs| - 1]] == init + [hs[|hs| - 1]] {
      assert (Kept(init) + [hs[|hs| - 1]])[..|Kept(init)|] == Kept(init);
      assert (init + [hs[|hs| - 1]])[..|init|] == init;
    }
  }

  lemma {:induction false} KeptAll(hs: seq<Header>)
    ensures |Kept(hs)| <= |hs|
    ensures (Kept(hs) == hs <==> forall h :: h in hs ==> h.value != [])
    ensures (|Kept(hs)| == |hs| <==> forall h :: h in hs ==> h.value != [])
    decreases |hs|
  {
    if hs != [] {
      var init := hs[..|hs| - 1];
      KeptAll(init);
      assert init + [hs[|hs| - 1]] == hs;
      assert forall h :: h in hs <==> h in init || h == hs[|hs| - 1];
    }
  }
}
