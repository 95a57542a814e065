/** Which header names the parser recognises while it reads them character by character. */
module HttpNames {
  import opened Common
  import opened HttpMessage
  import opened HttpRun
  import opened HttpBodies

  // The lower-case characters of a name.
  function Tokens(name: seq<byte>): seq<byte> {
    seq(|name|, i requires 0 <= i < |name| => Token(name[i]))
  }

  ghost predicate IsName(name: seq<byte>) {
    name != [] && forall i :: 0 <= i < |name| ==> Token(name[i]) != 0
  }

  predicate Starts(low: seq<byte>, name: string) {
    |low| <= |name| && forall i :: 0 <= i < |low| ==> low[i] == name[i] as int
  }

  predicate Same(low: seq<byte>, name: string) {
    |low| == |name| && Starts(low, name)
  }

  // What the parser makes of a name of which it has read this much.
  function Recognised(low: seq<byte>): HState {
    if Same(low, "connection") || Same(low, "proxy-connection") then Connection
    else if Same(low, "content-length") then ContentLength
    else if Same(low, "transfer-encoding") then TransferEncoding
    else if Same(low, "upgrade") then Upgrade
    else if Same(low, "c") then C
    else if Same(low, "co") then CO
    else if Same(low, "con") then CON
    else if Starts(low, "connection") then MatchingConnection
    else if Starts(low, "proxy-connection") then MatchingProxyConnection
    else if Starts(low, "content-length") then MatchingContentLength
    else if Starts(low, "transfer-encoding") then MatchingTransferEncoding
    else if Starts(low, "upgrade") then MatchingUpgrade
    else General
  }

  ghost predicate Knows(s: Parser, low: seq<byte>) {
    low != [] && s.hstate == Recognised(low) && (s.hstate != General ==> s.index == |low| - 1)
  }

  lemma StartsNext(low: seq<byte>, c: byte, name: string)
    ensures Starts(low + [c], name) <==> Starts(low, name) && |low| < |name| && name[|low|] as int == c
  {
    assert forall i :: 0 <= i < |low| ==> (low + [c])[i] == low[i];
  }

  // Names that differ in the first character.
  lemma OneStart(low: seq<byte>, name: string)
    requires low != [] && name != [] && low[0] != name[0] as int
    ensures !Starts(low, name) && !Same(low, name)
  {
  }

  lemma NextAfterC(s: Parser, low: seq<byte>, b: byte, c: byte)
    requires Knows(s, low) && low[0] == 'c' as int && c == Token(b) && c != 0
    ensures Knows(FieldChar(s, b, c), low + [c])
  {
    hide Token, Starts, FieldChar, Recognised;
    var next := low + [c];
    assert next[0] == low[0];
    NamesInC(low);
    NamesInC(next);
    StartsNext(low, c, "connection");
    StartsNext(low, c, "content-length");
    StartsNext(low, c, "c"); StartsNext(low, c, "co"); StartsNext(low, c, "con");
    ShortStarts(low);
    ShortStarts(next);
    NotSpace(b);
    CharInC(s, b, c);
  }

  lemma NamesInC(low: seq<byte>)
    requires low != [] && low[0] == 'c' as int
    ensures Recognised(low) ==
            if Same(low, "connection") then Connection
            else if Same(low, "content-length") then ContentLength
            else if Same(low, "c") then C else if Same(low, "co") then CO else if Same(low, "con") then CON
            else if Starts(low, "connection") then MatchingConnection
            else if Starts(low, "content-length") then MatchingContentLength else General
  {
    hide Starts;
    OneStart(low, "proxy-connection"); OneStart(low, "transfer-encoding"); OneStart(low, "upgrade");
  }

  lemma CharInC(s: Parser, b: byte, c: byte)
    requires b != SP
    ensures var t := FieldChar(s, b, c);
            && (s.hstate == General || s.hstate == Connection || s.hstate == ContentLength ==> t.hstate == General)
            && (s.hstate == C ==> t.index == s.index + 1 && t.hstate == if Is(c, 'o') then CO else General)
            && (s.hstate == CO ==> t.index == s.index + 1 && t.hstate == if Is(c, 'n') then CON else General)
            && (s.hstate == CON ==>
                  && t.index == s.index + 1
                  && t.hstate == if Is(c, 'n') then MatchingConnection else if Is(c, 't') then MatchingContentLength else General)
            && (s.hstate == MatchingConnection ==>
                  && t.index == s.index + 1
                  && t.hstate == Matched(s.index + 1, c, "connection", MatchingConnection, General, Connection))
            && (s.hstate == MatchingContentLength ==>
                  && t.index == s.index + 1
                  && t.hstate == Matched(s.index + 1, c, "content-length", MatchingContentLength, General, ContentLength))
  {
    hide Matched;
  }

  lemma NotSpace(b: byte)
    ensures Token(b) != 0 ==> b != SP
  {
  }

  lemma ShortStarts(low: seq<byte>)
    requires low != []
    ensures Same(low, "c") || Same(low, "co") || Same(low, "con") ==> Starts(low, "connection") && Starts(low, "content-length")
    ensures Starts(low, "connection") && Starts(low, "content-length") ==> Same(low, "c") || Same(low, "co") || Same(low, "con")
    ensures Starts(low, "connection") && |low| == 1 ==> Same(low, "c")
    ensures Starts(low, "connection") && |low| == 2 ==> Same(low, "co")
    ensures Starts(low, "connection") && |low| == 3 ==> Same(low, "con")
    ensures Starts(low, "content-length") && |low| <= 3 ==> Starts(low, "connection")
  {
    if Starts(low, "connection") && |low| > 3 {
      assert low[3] == 'n' as int;
    }
  }

  lemma NotInC(low: seq<byte>)
    requires low != [] && low[0] != 'c' as int
    ensures !Starts(low, "connection") && !Starts(low, "content-length")
    ensures !Same(low, "c") && !Same(low, "co") && !Same(low, "con")
  {
    hide Same, Starts;
    OneStart(low, "connection"); OneStart(low, "content-length");
    OneStart(low, "c"); OneStart(low, "co"); OneStart(low, "con");
  }

  // A name that can become only this one.
  lemma NextAfterOne(s: Parser, low: seq<byte>, b: byte, c: byte, name: string, on: HState, hit: HState)
    requires Knows(s, low) && low[0] != 'c' as int && c == Token(b) && c != 0
    requires (name == "proxy-connection" && on == MatchingProxyConnection && hit == Connection)
             || (name == "transfer-encoding" && on == MatchingTransferEncoding && hit == TransferEncoding)
             || (name == "upgrade" && on == MatchingUpgrade && hit == Upgrade)
    requires low[0] == name[0] as int
    ensures Knows(FieldChar(s, b, c), low + [c])
  {
    hide Token, Starts, Recognised, FieldChar;
    var next := low + [c];
    assert next[0] == low[0];
    StartsNext(low, c, name);
    OneName(low, name, on, hit);
    OneName(next, name, on, hit);
    NotSpace(b);
    OneChar(s, b, c, name, on, hit);
  }

  lemma OneChar(s: Parser, b: byte, c: byte, name: string, on: HState, hit: HState)
    requires b != SP
    requires (name == "proxy-connection" && on == MatchingProxyConnection && hit == Connection)
             || (name == "transfer-encoding" && on == MatchingTransferEncoding && hit == TransferEncoding)
             || (name == "upgrade" && on == MatchingUpgrade && hit == Upgrade)
    ensures var t := FieldChar(s, b, c);
            && (s.hstate == General || s.hstate == hit ==> t.hstate == General)
            && (s.hstate == on ==> t.index == s.index + 1 && t.hstate == Matched(s.index + 1, c, name, on, General, hit))
  {
    hide Matched;
  }

  lemma OneName(low: seq<byte>, name: string, on: HState, hit: HState)
    requires low != [] && low[0] != 'c' as int
    requires (name == "proxy-connection" && on == MatchingProxyConnection && hit == Connection)
             || (name == "transfer-encoding" && on == MatchingTransferEncoding && hit == TransferEncoding)
             || (name == "upgrade" && on == MatchingUpgrade && hit == Upgrade)
    requires low[0] == name[0] as int
    ensures Recognised(low) == if Same(low, name) then hit else if Starts(low, name) then on else General
  {
    hide Starts;
    NotInC(low);
    FirstTells(low);
  }

  lemma NextAfterNone(s: Parser, low: seq<byte>, b: byte, c: byte)
    requires Knows(s, low) && c == Token(b) && c != 0
    requires low[0] != 'c' as int && low[0] != 'p' as int && low[0] != 't' as int && low[0] != 'u' as int
    ensures Knows(FieldChar(s, b, c), low + [c])
  {
    hide Token, Starts;
    var next := low + [c];
    assert next[0] == low[0];
    NotInC(low);
    NotInC(next);
    FirstTells(low);
    FirstTells(next);
  }

  lemma NextAfterOther(s: Parser, low: seq<byte>, b: byte, c: byte)
    requires Knows(s, low) && low[0] != 'c' as int && c == Token(b) && c != 0
    ensures Knows(FieldChar(s, b, c), low + [c])
  {
    hide Token, Knows, FieldChar;
    assert low != [] by { KnowsSome(s, low); }
    if low[0] == 'p' as int {
      NextAfterOne(s, low, b, c, "proxy-connection", MatchingProxyConnection, Connection);
    } else if low[0] == 't' as int {
      NextAfterOne(s, low, b, c, "transfer-encoding", MatchingTransferEncoding, TransferEncoding);
    } else if low[0] == 'u' as int {
      NextAfterOne(s, low, b, c, "upgrade", MatchingUpgrade, Upgrade);
    } else {
      NextAfterNone(s, low, b, c);
    }
  }

  lemma KnowsSome(s: Parser, low: seq<byte>)
    requires Knows(s, low)
    ensures low != []
  {
  }

  lemma FirstTells(low: seq<byte>)
    requires low != []
    ensures Starts(low, "proxy-connection") ==> low[0] == 'p' as int
    ensures Starts(low, "transfer-encoding") ==> low[0] == 't' as int
    ensures Starts(low, "upgrade") ==> low[0] == 'u' as int
  {
  }

  lemma FirstChar(cfg: Settings, s: Parser, nread: nat, log: seq<Event>, b: byte)
    requires s.state == HeaderFieldStart && Token(b) != 0 && nread < MAX_HEADER_SIZE
    ensures var h := Recognised([Token(b)]);
            && FeedByte(cfg, Going(s, nread, log), b) ==
               Going(s.(state := HeaderField, index := 0, hstate := h), nread + 1, Append(log, Data(Field, [b])))
            && Knows(s.(state := HeaderField, index := 0, hstate := h), [Token(b)])
  {
    hide Append, Recognised, CuesLog;
    FirstArm(cfg, s, b);
    MarkedByte(log, Field, b);
  }

  lemma FirstArm(cfg: Settings, s: Parser, b: byte)
    requires s.state == HeaderFieldStart && Token(b) != 0
    ensures Arm(cfg, s, b) == Done(s.(state := HeaderField, index := 0, hstate := Recognised([Token(b)])), [Mark(Field)])
  {
    hide Token;
    assert Arm(cfg, s, b) == FieldStartArm(s, b);
    TokenIsText(b);
    var low := [Token(b)];
    FirstTells(low);
    ShortStarts(low);
    if low[0] != 'c' as int {
      NotInC(low);
    }
  }

  lemma TokenIsText(b: byte)
    ensures Token(b) != 0 ==> b != CR && b != LF && !Is(b, ':')
  {
  }

  lemma KnowsNext(s: Parser, low: seq<byte>, b: byte)
    requires Knows(s, low) && Token(b) != 0
    ensures Knows(FieldChar(s, b, Token(b)), low + [Token(b)])
  {
    hide Token, Recognised, FieldChar;
    if low[0] == 'c' as int {
      NextAfterC(s, low, b, Token(b));
    } else {
      NextAfterOther(s, low, b, Token(b));
    }
  }

  lemma NextChar(cfg: Settings, s: Parser, nread: nat, log: seq<Event>, low: seq<byte>, b: byte)
    requires s.state == HeaderField && Knows(s, low) && Token(b) != 0 && nread < MAX_HEADER_SIZE
    ensures var t := FieldChar(s, b, Token(b));
            && FeedByte(cfg, Going(s, nread, log), b) == Going(t, nread + 1, Append(log, Data(Field, [b])))
            && Knows(t, low + [Token(b)])
  {
    hide Append, Token, Recognised, FieldChar, Examine;
    ExamineField(cfg, s, nread + 1, log, b);
    KnowsNext(s, low, b);
  }

  // What else may change while a name is read.
  ghost predicate OnlyNames(s: Parser, t: Parser) {
    t == s.(state := HeaderField, index := t.index, hstate := t.hstate, usesTransferEncoding := t.usesTransferEncoding)
  }

  // The name is Transfer-Encoding, or begins with it.
  ghost predicate EncodingBegins(low: seq<byte>) {
    |low| >= 17 && Same(low[..17], "transfer-encoding")
  }

  lemma EncodingNext(low: seq<byte>, c: byte)
    ensures EncodingBegins(low + [c]) <==> EncodingBegins(low) || Same(low + [c], "transfer-encoding")
  {
    hide Starts;
    var next := low + [c];
    if |low| >= 17 {
      assert next[..17] == low[..17];
    } else if |next| == 17 {
      assert next[..17] == next;
    }
  }

  lemma CharOnlyNames(s: Parser, t: Parser, b: byte, c: byte)
    requires OnlyNames(s, t)
    ensures OnlyNames(s, FieldChar(t, b, c))
  {
    hide FieldChar;
    FieldCharOnly(t, b, c);
  }

  lemma FieldCharOnly(t: Parser, b: byte, c: byte)
    ensures var u := FieldChar(t, b, c);
            u == t.(index := u.index, hstate := u.hstate, usesTransferEncoding := u.usesTransferEncoding)
  {
    hide MatchNext;
    MatchNextOnly(t, c, "connection", Connection);
    MatchNextOnly(t, c, "proxy-connection", Connection);
    MatchNextOnly(t, c, "content-length", ContentLength);
    MatchNextOnly(t, c, "transfer-encoding", TransferEncoding);
    MatchNextOnly(t, c, "upgrade", Upgrade);
  }

  lemma MatchNextOnly(t: Parser, c: byte, name: string, hit: HState)
    ensures var u := MatchNext(t, c, name, General, hit); u == t.(index := u.index, hstate := u.hstate)
  {
  }

  lemma EncodingNoted(t: Parser, b: byte, c: byte)
    ensures var u := FieldChar(t, b, c);
            u.usesTransferEncoding <==> t.usesTransferEncoding
                                        || (t.hstate == MatchingTransferEncoding && u.hstate == TransferEncoding)
  {
    hide Matched;
  }

  lemma EncodingFound(low: seq<byte>, c: byte)
    requires low != []
    ensures Same(low + [c], "transfer-encoding") <==>
            Recognised(low) == MatchingTransferEncoding && Recognised(low + [c]) == TransferEncoding
  {
    hide Starts;
    var next := low + [c];
    assert next[0] == low[0];
    StartsNext(low, c, "transfer-encoding");
    FirstTells(low);
    FirstTells(next);
    if low[0] != 'c' as int {
      NotInC(low);
      NotInC(next);
    } else {
      OneStart(low, "transfer-encoding");
    }
  }

  ghost predicate Named(s: Parser, t: Parser, low: seq<byte>) {
    && OnlyNames(s, t) && Knows(t, low)
    && (t.usesTransferEncoding <==> s.usesTransferEncoding || EncodingBegins(low))
  }

  lemma NamedNext(s: Parser, t: Parser, low: seq<byte>, b: byte)
    requires Named(s, t, low) && Token(b) != 0
    ensures Named(s, FieldChar(t, b, Token(b)), low + [Token(b)])
  {
    hide Token, Starts, Same, FieldChar, Recognised, EncodingBegins;
    KnowsNext(t, low, b);
    CharOnlyNames(s, t, b, Token(b));
    EncodingNoted(t, b, Token(b));
    EncodingFound(low, Token(b));
    EncodingNext(low, Token(b));
  }

  lemma FirstNamed(cfg: Settings, s: Parser, nread: nat, log: seq<Event>, b: byte) returns (t: Parser)
    requires s.state == HeaderFieldStart && Token(b) != 0 && nread < MAX_HEADER_SIZE
    ensures RunOn(cfg, Going(s, nread, log), [b]) == Going(t, nread + 1, Append(log, Data(Field, [b])))
    ensures Named(s, t, [Token(b)])
  {
    hide FeedByte, Append, Token, Recognised;
    RunOnOne(cfg, Going(s, nread, log), b);
    FirstChar(cfg, s, nread, log, b);
    t := s.(state := HeaderField, index := 0, hstate := Recognised([Token(b)]));
  }

  lemma NextNamed(cfg: Settings, s: Parser, u: Parser, nread: nat, log: seq<Event>, low: seq<byte>, b: byte)
    requires Named(s, u, low) && Token(b) != 0 && nread < MAX_HEADER_SIZE
    ensures var t := FieldChar(u, b, Token(b));
            && FeedByte(cfg, Going(u, nread, log), b) == Going(t, nread + 1, Append(log, Data(Field, [b])))
            && Named(s, t, low + [Token(b)])
  {
    hide FeedByte, Append, Token, Recognised, FieldChar, EncodingBegins;
    NextChar(cfg, u, nread, log, low, b);
    NamedNext(s, u, low, b);
  }

  // While a name is read, the parser knows exactly how far it agrees with a known one.
  lemma {:induction false} NameIsRead(cfg: Settings, s: Parser, nread: nat, log: seq<Event>, name: seq<byte>)
    returns (t: Parser)
    requires s.state == HeaderFieldStart && IsName(name) && nread + |name| <= MAX_HEADER_SIZE
    ensures RunOn(cfg, Going(s, nread, log), name) == Going(t, nread + |name|, Append(log, Data(Field, name)))
    ensures Named(s, t, Tokens(name))
    decreases |name|
  {
    hide FeedByte, Append, Token, FieldChar, Named;
    var last := |name| - 1;
    var b := name[last];
    var init := name[..last];
    if init == [] {
      assert name == [b] && Tokens(name) == [Token(b)];
      t := FirstNamed(cfg, s, nread, log, b);
    } else {
      var u := NameIsRead(cfg, s, nread, log, init);
      assert Tokens(name) == Tokens(init) + [Token(b)];
      NextNamed(cfg, s, u, nread + last, Append(log, Data(Field, init)), Tokens(init), b);
      AppendTwice(log, Field, init, [b]);
      assert init + [b] == name;
      t := FieldChar(u, b, Token(b));
    }
  }

  // A header is recognised exactly when its whole name, ignoring case, is the known one;
  // but a name that only begins with Transfer-Encoding counts as a transfer encoding too.
  lemma NameIsRecognised(cfg: Settings, s: Parser, nread: nat, log: seq<Event>, name: seq<byte>)
    returns (t: Parser)
    requires s.state == HeaderFieldStart && IsName(name) && nread + |name| < MAX_HEADER_SIZE
    ensures RunOn(cfg, Going(s, nread, log), name + [':' as int]) ==
            Going(t.(state := HeaderValueDiscardWs), nread + |name| + 1, Append(log, Data(Field, name)))
    ensures OnlyNames(s, t)
    ensures t.hstate == ContentLength <==> Same(Tokens(name), "content-length")
    ensures t.hstate == TransferEncoding <==> Same(Tokens(name), "transfer-encoding")
    ensures t.hstate == Upgrade <==> Same(Tokens(name), "upgrade")
    ensures t.hstate == Connection <==> Same(Tokens(name), "connection") || Same(Tokens(name), "proxy-connection")
    ensures t.usesTransferEncoding <==> s.usesTransferEncoding || EncodingBegins(Tokens(name))
  {
    hide FeedByte, Append, Token, Starts, EncodingBegins;
    t := NameIsRead(cfg, s, nread, log, name);
    var l := Append(log, Data(Field, name));
    RunOnConcat(cfg, Going(s, nread, log), name, [':' as int]);
    RunOnOne(cfg, Going(t, nread + |name|, l), ':' as int);
    NameEnds(cfg, t, nread + |name|, l);
  }

  lemma NameEnds(cfg: Settings, s: Parser, nread: nat, log: seq<Event>)
    requires s.state == HeaderField && nread < MAX_HEADER_SIZE
    ensures FeedByte(cfg, Going(s, nread, log), ':' as int) == Going(s.(state := HeaderValueDiscardWs), nread + 1, log)
  {
    assert Token(':' as int) == 0;
    ExamineField(cfg, s, nread + 1, log, ':' as int);
  }
}
