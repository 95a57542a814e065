/** Multipart messages: the printer, the consuming parser, and their round trip. */
module Multipart {
  import opened Common

  datatype Param = Param(key: string, value: string)

  // A header and its parameters, in the order in which the maps give them.
  datatype Header = Header(key: string, value: string, params: seq<Param>)

  datatype Part = Part(headers: seq<Header>, body: string)

  const CRLF: string := "\r\n"
  const DD: string := "--"

  // Searching ---------------------------------------------------------------

  predicate At(s: string, k: nat, pattern: string) {
    k + |pattern| <= |s| && s[k..k + |pattern|] == pattern
  }

  // std::string::find
  function Find(s: string, pattern: string): (r: Option<nat>)
    ensures r.Some? ==> At(s, r.value, pattern) && forall k :: 0 <= k < r.value ==> !At(s, k, pattern)
    ensures r.None? ==> forall k :: 0 <= k <= |s| ==> !At(s, k, pattern)
    decreases |s|
  {
    if At(s, 0, pattern) then Some(0)
    else if s == "" then None
    else
      var r := Find(s[1..], pattern);
      assert forall k :: 0 < k <= |s| ==> (At(s, k, pattern) <==> At(s[1..], k - 1, pattern)) by {
        forall k | 0 < k <= |s|
          ensures At(s, k, pattern) <==> At(s[1..], k - 1, pattern)
        {
          assert k + |pattern| <= |s| ==> s[1..][k - 1..k - 1 + |pattern|] == s[k..k + |pattern|];
        }
      }
      match r
      case None => None
      case Some(k) => Some(k + 1)
  }

  // substr(0, n) and erase(0, n)
  function Take(s: string, n: nat): string { if n <= |s| then s[..n] else s }
  function Drop(s: string, n: nat): string { if n <= |s| then s[n..] else "" }

  // substr(0, found)
  function Before(s: string, found: Option<nat>): string {
    match found case None => s case Some(k) => Take(s, k)
  }

  // found + n on 64 bits: npos is the largest number, so that the sum wraps around.
  function Plus(found: Option<nat>, n: nat): nat {
    match found case None => if n == 0 then 0 else n - 1 case Some(k) => k + n
  }

  predicate Occurs(s: string, pattern: string) {
    exists k :: 0 <= k <= |s| && At(s, k, pattern)
  }

  // A separator of two different characters is found behind a text without it.
  lemma FindSeparator(x: string, sep: string, y: string)
    requires |sep| == 2 && sep[0] != sep[1] && !Occurs(x, sep)
    ensures Find(x + sep + y, sep) == Some(|x|)
  {
    var s := x + sep + y;
    assert s[|x|..|x| + 2] == sep;
    forall k | 0 <= k < |x|
      ensures !At(s, k, sep)
    {
      if k + 2 <= |x| {
        assert s[k..k + 2] == x[k..k + 2];
        assert !At(x, k, sep);
      } else {
        assert s[k + 1] == sep[0];
      }
    }
    assert At(s, |x|, sep);
  }

  lemma FindNothing(x: string, sep: string)
    requires !Occurs(x, sep)
    ensures Find(x, sep) == None
  {
  }

  // Printing ----------------------------------------------------------------

  function Quoted(s: string): string { "\"" + s + "\"" }

  function ParamText(p: Param): string { p.key + "=" + Quoted(p.value) }

  function ParamsText(ps: seq<Param>): string {
    if ps == [] then "" else "; " + ParamText(ps[0]) + ParamsText(ps[1..])
  }

  function LineText(h: Header): string { h.key + ": " + h.value + ParamsText(h.params) }

  function HeadText(hs: seq<Header>): string {
    if hs == [] then "" else LineText(hs[0]) + CRLF + HeadText(hs[1..])
  }

  function PartText(p: Part): string { HeadText(p.headers) + CRLF + p.body + CRLF }

  // What follows a delimiter.
  function Tail(ps: seq<Part>, delimiter: string): string {
    if ps == [] then DD + CRLF else CRLF + PartText(ps[0]) + delimiter + Tail(ps[1..], delimiter)
  }

  function Text(ps: seq<Part>, boundary: string): string {
    DD + boundary + Tail(ps, DD + boundary)
  }

  method DumpLine(h: Header, out: string) returns (str: string)
    ensures str == out + LineText(h)
  {
    hide Quoted;
    str := out + h.key + ": " + h.value;
    for j := 0 to |h.params|
      invariant str + ParamsText(h.params[j..]) == out + LineText(h)
    {
      assert h.params[j..][1..] == h.params[j + 1..];
      ghost var was := str;
      str := str + "; " + h.params[j].key + "=" + Quoted(h.params[j].value);
      assert str == was + ("; " + ParamText(h.params[j]));
    }
    assert h.params[|h.params|..] == [];
  }

  method DumpPart(p: Part) returns (str: string)
    ensures str == PartText(p)
  {
    hide LineText;
    str := "";
    for i := 0 to |p.headers|
      invariant str + HeadText(p.headers[i..]) == HeadText(p.headers)
    {
      assert p.headers[i..][1..] == p.headers[i + 1..];
      ghost var before := str;
      str := DumpLine(p.headers[i], str);
      str := str + CRLF;
      assert str == before + (LineText(p.headers[i]) + CRLF);
    }
    assert p.headers[|p.headers|..] == [];
    str := str + CRLF;
    str := str + p.body + CRLF;
  }

  method Dump(ps: seq<Part>, boundary: string) returns (str: string)
    ensures str == Text(ps, boundary)
  {
    hide PartText;
    var delimiter := DD + boundary;
    str := "";
    for i := 0 to |ps|
      invariant str + delimiter + Tail(ps[i..], delimiter) == Text(ps, boundary)
    {
      assert ps[i..][1..] == ps[i + 1..];
      ghost var before := str;
      str := str + delimiter + CRLF;
      var t := DumpPart(ps[i]);
      str := str + t;
      assert str == before + delimiter + (CRLF + PartText(ps[i]));
    }
    assert ps[|ps|..] == [];
    str := str + delimiter + DD + CRLF;
  }

  // Parsing -------------------------------------------------------------------

  // One pair of quotes around a text is removed.
  function Trimmed(s: string): string {
    if |s| > 1 && s[0] == '"' && s[|s| - 1] == '"' then s[1..|s| - 1] else s
  }

  predicate HasKey(ps: seq<Param>, key: string) {
    exists i :: 0 <= i < |ps| && ps[i].key == key
  }

  // emplace: the first of a key stays.
  function Emplaced(ps: seq<Param>, p: Param): seq<Param> {
    if HasKey(ps, p.key) then ps else ps + [p]
  }

  function ParamOf(text: string): Param {
    var k := Find(text, "=");
    Param(Before(text, k), Trimmed(Drop(text, Plus(k, 1))))
  }

  // The piece up to the next "; ", and what comes after it.
  function Piece(line: string): string { Before(line, Find(line, "; ")) }
  function AfterPiece(line: string): (r: string)
    ensures line != "" ==> |r| < |line|
  {
    match Find(line, "; ") case None => "" case Some(k) => Drop(line, k + 2)
  }

  function ParamsOf(line: string, sofar: seq<Param>): seq<Param>
    decreases |line|
  {
    if line == "" then sofar else ParamsOf(AfterPiece(line), Emplaced(sofar, ParamOf(Piece(line))))
  }

  // A header line; None where substr throws an exception.
  function LineOf(line: string): Option<Header> {
    if line == "" then Some(Header("", "", []))
    else
      var header := Piece(line);
      var k := Find(header, ": ");
      if Plus(k, 2) > |header| then None
      else Some(Header(Before(header, k), Drop(header, Plus(k, 2)), ParamsOf(AfterPiece(line), [])))
  }

  function HeadOf(lines: string): Option<seq<Header>>
    decreases |lines|
  {
    if lines == "" then Some([])
    else
      var k := Find(lines, CRLF);
      match LineOf(Before(lines, k))
      case None => None
      case Some(h) =>
        match HeadOf(Drop(lines, Plus(k, 2)))
        case None => None
        case Some(hs) => Some([h] + hs)
  }

  function SectionOf(section: string): Option<Part> {
    var k := Find(section, CRLF + CRLF);
    var rest := Drop(section, Plus(k, 4));
    match HeadOf(Take(section, Plus(k, 2)))
    case None => None
    case Some(hs) => Some(Part(hs, if |rest| >= 2 then Take(rest, |rest| - 2) else rest))
  }

  function Lower(c: char): char {
    if 'A' <= c <= 'Z' then ((c as int) + 32) as char else c
  }

  predicate SameKey(a: string, b: string) {
    |a| == |b| && forall i :: 0 <= i < |a| ==> Lower(a[i]) == Lower(b[i])
  }

  predicate IsDisposition(h: Header) { SameKey(h.key, "Content-Disposition") }

  // The name is looked up without a check whether there is one.
  predicate HasName(p: Part) {
    && (exists i :: 0 <= i < |p.headers| && IsDisposition(p.headers[i]))
    && (forall i :: 0 <= i < |p.headers| && IsDisposition(p.headers[i]) ==> HasKey(p.headers[i].params, "name"))
  }

  // parse_body; None if it does not end, throws, or reads a name that is not there.
  function BodyOf(body: string, delimiter: string): Option<seq<Part>>
    requires |delimiter| >= 2
    decreases |body|
  {
    if body == CRLF then Some([])
    else if body == "" then None
    else
      var k := Find(body, delimiter);
      var section := Before(body, k);
      var rest := Drop(body, Plus(k, |delimiter| + 2));
      if section == "" then BodyOf(rest, delimiter)
      else
        match SectionOf(section)
        case None => None
        case Some(p) =>
          if !HasName(p) then None
          else
            match BodyOf(rest, delimiter)
            case None => None
            case Some(ps) => Some([p] + ps)
  }

  method ParseParams(line: string) returns (ps: seq<Param>)
    ensures ps == ParamsOf(line, [])
  {
    hide Find;
    ps := [];
    var rest := line;
    while rest != ""
      invariant ParamsOf(rest, ps) == ParamsOf(line, [])
      decreases |rest|
    {
      var param := Piece(rest);
      ghost var was := rest;
      rest := AfterPiece(rest);
      var k := Find(param, "=");
      var value := Drop(param, Plus(k, 1));
      ps := Emplaced(ps, Param(Before(param, k), Trimmed(value)));
    }
  }

  method ParseLine(line: string) returns (h: Option<Header>)
    ensures h == LineOf(line)
  {
    hide Find, ParamsOf;
    if line == "" {
      return Some(Header("", "", []));
    }
    var header := Piece(line);
    var rest := AfterPiece(line);
    var split := Find(header, ": ");
    if Plus(split, 2) > |header| {
      return None;
    }
    var params := ParseParams(rest);
    h := Some(Header(Before(header, split), Drop(header, Plus(split, 2)), params));
  }

  // parse_section_head
  method ParseHead(text: string) returns (r: Option<seq<Header>>)
    ensures r == HeadOf(text)
  {
    hide Find, LineOf;
    var lines := text;
    var hs: seq<Header> := [];
    BehindNothing(HeadOf(lines));
    while lines != ""
      invariant HeadOf(text) == Behind(hs, HeadOf(lines))
      decreases |lines|
    {
      var found := Find(lines, CRLF);
      var line := Before(lines, found);
      lines := Drop(lines, Plus(found, 2));
      var h := ParseLine(line);
      if h.None? {
        return None;
      }
      BehindNext(hs, h.value, HeadOf(lines));
      hs := hs + [h.value];
    }
    assert hs + [] == hs;
    r := Some(hs);
  }

  function Behind<T>(done: seq<T>, rest: Option<seq<T>>): Option<seq<T>> {
    match rest case None => None case Some(more) => Some(done + more)
  }

  lemma BehindNothing<T>(r: Option<seq<T>>)
    ensures Behind([], r) == r
  {
    if r.Some? {
      assert [] + r.value == r.value;
    }
  }

  lemma BehindNext<T>(done: seq<T>, x: T, r: Option<seq<T>>)
    ensures Behind(done + [x], r) == Behind(done, Behind([x], r))
    ensures Behind(done, Some([])) == Some(done)
  {
    if r.Some? {
      assert done + [x] + r.value == done + ([x] + r.value);
    }
    assert done + [] == done;
  }

  method ParseSection(section: string) returns (r: Option<Part>)
    ensures r == SectionOf(section)
  {
    hide Find, HeadOf;
    var found := Find(section, CRLF + CRLF);
    var head := Take(section, Plus(found, 2));
    var rest := Drop(section, Plus(found, 4));
    var hs := ParseHead(head);
    if hs.None? {
      return None;
    }
    r := Some(Part(hs.value, if |rest| >= 2 then Take(rest, |rest| - 2) else rest));
  }

  // parse_body: sections are cut off the front until only the last line break is left.
  method ParseBody(text: string, boundary: string) returns (r: Option<seq<Part>>)
    ensures r == BodyOf(text, DD + boundary)
  {
    hide Find, SectionOf, HasName;
    var delimiter := DD + boundary;
    var body := text;
    var ps: seq<Part> := [];
    BehindNothing(BodyOf(body, delimiter));
    while body != CRLF
      invariant BodyOf(text, delimiter) == Behind(ps, BodyOf(body, delimiter))
      decreases |body|
    {
      if body == "" {
        return None;  // the program would go on forever
      }
      var found := Find(body, delimiter);
      var section := Before(body, found);
      body := Drop(body, Plus(found, |delimiter| + 2));
      if section != "" {
        var p := ParseSection(section);
        if p.None? || !HasName(p.value) {
          return None;
        }
        BehindNext(ps, p.value, BodyOf(body, delimiter));
        ps := ps + [p.value];
      }
    }
    assert ps + [] == ps;
    r := Some(ps);
  }

  // The round trip -------------------------------------------------------------------

  // A text in which neither a line break nor "; " occurs.
  ghost predicate Quiet(s: string) {
    !Occurs(s, CRLF) && !Occurs(s, "; ")
  }

  ghost predicate PlainParam(p: Param) {
    Quiet(p.key) && Quiet(p.value) && '=' !in p.key
  }

  ghost predicate PlainHeader(h: Header) {
    && Quiet(h.key) && Quiet(h.value) && !Occurs(h.key, ": ")
    && (forall p :: p in h.params ==> PlainParam(p))
    && (forall i, j :: 0 <= i < j < |h.params| ==> h.params[i].key != h.params[j].key)
  }

  ghost predicate PlainPart(p: Part, delimiter: string) {
    && p.headers != [] && (forall h :: h in p.headers ==> PlainHeader(h)) && HasName(p)
    && !Occurs(PartText(p), delimiter)
  }

  // Joining two texts makes a two-character separator only from the characters at the seam.
  lemma NoSeam(x: string, y: string, sep: string)
    requires |sep| == 2 && !Occurs(x, sep) && !Occurs(y, sep)
    requires x != "" && y != "" ==> !(x[|x| - 1] == sep[0] && y[0] == sep[1])
    ensures !Occurs(x + y, sep)
  {
    var s := x + y;
    forall k | 0 <= k <= |s|
      ensures !At(s, k, sep)
    {
      if k + 2 <= |x| {
        assert s[k..k + 2] == x[k..k + 2];
        assert !At(x, k, sep);
      } else if k + 2 <= |s| && k >= |x| {
        assert s[k..k + 2] == y[k - |x|..k - |x| + 2];
        assert !At(y, k - |x|, sep);
      } else if k + 2 <= |s| {
        assert s[k] == x[|x| - 1] && s[k + 1] == y[0];
      }
    }
  }

  lemma ShortQuiet(s: string)
    requires |s| <= 2 && s != CRLF && s != "; "
    ensures Quiet(s)
  {
    forall k | 0 <= k <= |s|
      ensures !At(s, k, CRLF) && !At(s, k, "; ")
    {
      assert k == 0 && |s| == 2 ==> s[0..2] == s;
    }
  }

  lemma QuietJoin(x: string, y: string)
    requires Quiet(x) && Quiet(y) && (x != "" ==> x[|x| - 1] != '\r' && x[|x| - 1] != ';')
    ensures Quiet(x + y)
  {
    NoSeam(x, y, CRLF);
    NoSeam(x, y, "; ");
  }

  lemma QuietJoinLeft(x: string, y: string)
    requires Quiet(x) && Quiet(y) && y != "" && y[0] != '\n' && y[0] != ' '
    ensures Quiet(x + y)
  {
    NoSeam(x, y, CRLF);
    NoSeam(x, y, "; ");
  }

  lemma ParamQuiet(p: Param)
    requires PlainParam(p)
    ensures Quiet(ParamText(p))
  {
    hide Quiet, Occurs;
    ShortQuiet("=\"");
    ShortQuiet("\"");
    QuietJoinLeft(p.key, "=\"");
    QuietJoin(p.key + "=\"", p.value);
    QuietJoinLeft(p.key + "=\"" + p.value, "\"");
    assert p.key + "=\"" + p.value + "\"" == ParamText(p);
  }

  lemma HeaderQuiet(h: Header)
    requires Quiet(h.key) && Quiet(h.value)
    ensures Quiet(h.key + ": " + h.value)
  {
    hide Quiet, Occurs;
    ShortQuiet(": ");
    QuietJoinLeft(h.key, ": ");
    QuietJoin(h.key + ": ", h.value);
  }

  lemma FindEquals(key: string, rest: string)
    requires '=' !in key
    ensures Find(key + "=" + rest, "=") == Some(|key|)
  {
    var s := key + "=" + rest;
    assert s[|key|..|key| + 1] == "=";
    assert At(s, |key|, "=");
    forall k | 0 <= k < |key|
      ensures !At(s, k, "=")
    {
      assert s[k..k + 1] == [key[k]];
      assert key[k] in key;
    }
  }

  lemma ParamIsRead(p: Param)
    requires PlainParam(p)
    ensures ParamOf(ParamText(p)) == p
  {
    hide Find;
    var q := Quoted(p.value);
    FindEquals(p.key, q);
    var t := ParamText(p);
    assert t == p.key + "=" + q;
    assert t[..|p.key|] == p.key && t[|p.key| + 1..] == q;
    assert q[1..|q| - 1] == p.value;
  }

  // A piece without "; " and then nothing, or "; " and more.
  lemma PieceIsRead(x: string, more: string)
    requires Quiet(x)
    ensures Piece(x) == x && AfterPiece(x) == ""
    ensures Piece(x + "; " + more) == x && AfterPiece(x + "; " + more) == more
  {
    hide Find;
    FindNothing(x, "; ");
    FindSeparator(x, "; ", more);
    var s := x + "; " + more;
    assert s[..|x|] == x && s[|x| + 2..] == more;
  }

  lemma {:induction false} ParamsAreRead(ps: seq<Param>, sofar: seq<Param>)
    requires forall p :: p in ps ==> PlainParam(p)
    requires forall i, j :: 0 <= i < j < |sofar + ps| ==> (sofar + ps)[i].key != (sofar + ps)[j].key
    ensures ps != [] ==> ParamsOf(ParamText(ps[0]) + ParamsText(ps[1..]), sofar) == sofar + ps
    decreases |ps|
  {
    hide PlainParam, Piece, AfterPiece, ParamText, ParamOf;
    if ps != [] {
      var p := ps[0];
      var line := ParamText(p) + ParamsText(ps[1..]);
      ParamQuiet(p);
      ParamIsRead(p);
      ParamNotEmpty(p);
      assert (sofar + ps)[|sofar|] == p;
      assert !HasKey(sofar, p.key) by {
        forall i | 0 <= i < |sofar|
          ensures sofar[i].key != p.key
        {
          assert (sofar + ps)[i] == sofar[i];
        }
      }
      assert sofar + [p] + ps[1..] == sofar + ps;
      if |ps| == 1 {
        assert ParamsText(ps[1..]) == "";
        assert line == ParamText(p);
        PieceIsRead(ParamText(p), "");
        assert ParamsOf("", sofar + [p]) == sofar + [p];
      } else {
        var more := ParamText(ps[1]) + ParamsText(ps[2..]);
        assert ps[1..][1..] == ps[2..];
        assert line == ParamText(p) + "; " + more;
        PieceIsRead(ParamText(p), more);
        ParamsAreRead(ps[1..], sofar + [p]);
      }
    }
  }

  lemma ParamNotEmpty(p: Param)
    ensures ParamText(p) != ""
  {
  }

  lemma LineIsRead(h: Header)
    requires PlainHeader(h)
    ensures LineOf(LineText(h)) == Some(h)
  {
    hide Piece, AfterPiece, PlainParam, ParamsOf, Find, Quiet, ParamText;
    var header := h.key + ": " + h.value;
    HeaderQuiet(h);
    FindSeparator(h.key, ": ", h.value);
    assert header[..|h.key|] == h.key && header[|h.key| + 2..] == h.value;
    var line := LineText(h);
    if h.params == [] {
      assert line == header;
      PieceIsRead(header, "");
      ParamsNothing();
    } else {
      var more := ParamText(h.params[0]) + ParamsText(h.params[1..]);
      assert line == header + "; " + more;
      PieceIsRead(header, more);
      assert [] + h.params == h.params;
      ParamsAreRead(h.params, []);
    }
  }

  lemma ParamsNothing()
    ensures ParamsOf("", []) == []
  {
  }

  lemma ParamsTextNext(x: string, ps: seq<Param>)
    requires ps != []
    ensures x + ParamsText(ps) == (x + "; " + ParamText(ps[0])) + ParamsText(ps[1..])
  {
    hide ParamText;
  }

  lemma {:induction false} ParamsQuiet(x: string, ps: seq<Param>)
    requires !Occurs(x, CRLF) && forall p :: p in ps ==> PlainParam(p)
    ensures !Occurs(x + ParamsText(ps), CRLF)
    decreases |ps|
  {
    hide PlainParam, ParamText, Occurs, ParamsText;
    if ps == [] {
      ParamsTextNothing(x);
    } else {
      var p := ps[0];
      ParamQuiet(p);
      SemicolonQuiet();
      NoSeam(x, "; ", CRLF);
      NoSeam(x + "; ", ParamText(p), CRLF);
      ParamsQuiet(x + "; " + ParamText(p), ps[1..]);
      ParamsTextNext(x, ps);
    }
  }

  lemma ParamsTextNothing(x: string)
    ensures x + ParamsText([]) == x
  {
  }

  lemma SemicolonQuiet()
    ensures !Occurs("; ", CRLF)
  {
    forall k | 0 <= k <= 2
      ensures !At("; ", k, CRLF)
    {
      assert k == 0 ==> "; "[0..2] == "; ";
    }
  }

  // A header line is not empty and holds no line break.
  lemma LineBreakless(h: Header)
    requires PlainHeader(h)
    ensures LineText(h) != "" && !Occurs(LineText(h), CRLF)
  {
    hide PlainParam, ParamText;
    HeaderQuiet(h);
    ParamsQuiet(h.key + ": " + h.value, h.params);
  }

  lemma {:induction false} HeadIsRead(hs: seq<Header>)
    requires forall h :: h in hs ==> PlainHeader(h)
    ensures HeadOf(HeadText(hs)) == Some(hs)
  {
    hide PlainHeader, LineText, LineOf, Find;
    if hs != [] {
      var line := LineText(hs[0]);
      var rest := HeadText(hs[1..]);
      LineBreakless(hs[0]);
      LineIsRead(hs[0]);
      FindSeparator(line, CRLF, rest);
      var s := line + CRLF + rest;
      assert s[..|line|] == line && s[|line| + 2..] == rest;
      HeadIsRead(hs[1..]);
      assert [hs[0]] + hs[1..] == hs;
    }
  }

  // Where two line breaks in a row can be, after a line.
  lemma Blank(line: string, after: string, k: nat)
    requires line != "" && !Occurs(line, CRLF) && At(line + CRLF + after, k, CRLF + CRLF)
    ensures k == |line| || k >= |line| + 2
    ensures k == |line| ==> At(after, 0, CRLF)
    ensures k >= |line| + 2 ==> At(after, k - |line| - 2, CRLF + CRLF)
  {
    BlankBehind(line, after, k);
    var s := line + CRLF + after;
    assert k == |line| ==> s[k..k + 4][2..] == s[k + 2..k + 4] == after[0..2];
    assert k >= |line| + 2 ==> s[k..k + 4] == after[k - |line| - 2..k - |line| + 2];
  }

  lemma BlankBehind(line: string, after: string, k: nat)
    requires line != "" && !Occurs(line, CRLF) && At(line + CRLF + after, k, CRLF + CRLF)
    ensures k == |line| || k >= |line| + 2
  {
    var s := line + CRLF + after;
    FindSeparator(line, CRLF, after);
    assert s[k..k + 2] == s[k..k + 4][..2] == CRLF;
    assert At(s, k, CRLF);
    assert s[|line| + 1] == CRLF[1] && s[k] == s[k..k + 2][0] == CRLF[0];
  }

  lemma HeadTextNext(hs: seq<Header>, z: string)
    requires hs != []
    ensures HeadText(hs) + CRLF + z == LineText(hs[0]) + CRLF + (HeadText(hs[1..]) + CRLF + z)
    ensures |HeadText(hs)| == |LineText(hs[0])| + 2 + |HeadText(hs[1..])|
    ensures |hs| == 1 ==> HeadText(hs[1..]) == ""
  {
    hide LineText;
  }

  lemma NoBreakFirst(line: string, after: string)
    requires line != "" && !Occurs(line, CRLF)
    ensures !At(line + CRLF + after, 0, CRLF)
  {
    FindSeparator(line, CRLF, after);
  }

  // The first empty line is the one after the headers.
  lemma {:induction false} FirstBlank(hs: seq<Header>, z: string, k: nat)
    requires hs != [] && (forall h :: h in hs ==> PlainHeader(h)) && At(HeadText(hs) + CRLF + z, k, CRLF + CRLF)
    ensures k + 2 >= |HeadText(hs)|
    decreases |hs|
  {
    hide PlainHeader, LineText, HeadText, At, Occurs;
    var line := LineText(hs[0]);
    var after := HeadText(hs[1..]) + CRLF + z;
    LineBreakless(hs[0]);
    HeadTextNext(hs, z);
    Blank(line, after, k);
    if |hs| > 1 {
      assert hs[1..][0] == hs[1];
      LineBreakless(hs[1]);
      HeadTextNext(hs[1..], z);
      NoBreakFirst(LineText(hs[1]), HeadText(hs[1..][1..]) + CRLF + z);
      FirstBlank(hs[1..], z, k - |line| - 2);
    }
  }

  lemma SectionSlices(head: string, body: string)
    requires |head| >= 2 && head[|head| - 2..] == CRLF
    ensures var s := head + CRLF + body + CRLF;
            var k := |head| - 2;
            && At(s, k, CRLF + CRLF) && Take(s, k + 2) == head && Drop(s, k + 4) == body + CRLF
            && Take(body + CRLF, |body + CRLF| - 2) == body
            && s == head + CRLF + (body + CRLF)
  {
    var s := head + CRLF + body + CRLF;
    var k := |head| - 2;
    assert s[k..k + 2] == head[k..];
    assert s[k..k + 4] == s[k..k + 2] + s[k + 2..k + 4];
  }

  lemma SectionIsRead(p: Part)
    requires p.headers != [] && forall h :: h in p.headers ==> PlainHeader(h)
    ensures SectionOf(PartText(p)) == Some(p)
  {
    hide PlainHeader, LineText, Find, HeadOf, HeadText, At, Take, Drop;
    var head := HeadText(p.headers);
    var s := PartText(p);
    HeadEnds(p.headers);
    SectionSlices(head, p.body);
    FirstBlank(p.headers, p.body + CRLF, Find(s, CRLF + CRLF).value);
    HeadIsRead(p.headers);
  }

  lemma {:induction false} HeadEnds(hs: seq<Header>)
    requires hs != []
    ensures |HeadText(hs)| >= 2 && HeadText(hs)[|HeadText(hs)| - 2..] == CRLF
    decreases |hs|
  {
    hide LineText;
    if |hs| > 1 {
      HeadEnds(hs[1..]);
      assert HeadText(hs)[|HeadText(hs)| - 2..] == HeadText(hs[1..])[|HeadText(hs[1..])| - 2..];
    } else {
      assert HeadText(hs[1..]) == "";
    }
  }

  // The delimiter is found where a part ends.
  lemma FindDelimiter(x: string, delimiter: string, y: string)
    requires !Occurs(x, delimiter) && '\n' !in delimiter && delimiter != "" && (x != "" ==> x[|x| - 1] == '\n')
    ensures Find(x + delimiter + y, delimiter) == Some(|x|)
  {
    var s := x + delimiter + y;
    var d := |delimiter|;
    assert s[|x|..|x| + d] == delimiter;
    assert At(s, |x|, delimiter);
    forall k | 0 <= k < |x|
      ensures !At(s, k, delimiter)
    {
      if k + d <= |x| {
        assert s[k..k + d] == x[k..k + d];
        assert !At(x, k, delimiter);
      } else {
        assert s[k..k + d][|x| - 1 - k] == s[|x| - 1] == x[|x| - 1] == '\n';
        assert delimiter[|x| - 1 - k] in delimiter;
      }
    }
  }

  lemma PartEnds(p: Part)
    ensures PartText(p) != "" && PartText(p)[|PartText(p)| - 1] == '\n'
  {
  }

  lemma BodySlices(t: string, delimiter: string, rest: string)
    requires |rest| >= 2
    ensures var body := t + delimiter + rest;
            Take(body, |t|) == t && Drop(body, |t| + (|delimiter| + 2)) == rest[2..]
  {
  }

  // One section and its delimiter.
  lemma PartIsRead(p: Part, delimiter: string, rest: string)
    requires |delimiter| >= 2 && '\n' !in delimiter && PlainPart(p, delimiter) && |rest| >= 2
    ensures BodyOf(PartText(p) + delimiter + rest, delimiter) == Behind([p], BodyOf(rest[2..], delimiter))
  {
    hide Find, SectionOf, HasName, PartText, PlainHeader, Occurs, Take, Drop;
    var t := PartText(p);
    PartEnds(p);
    FindDelimiter(t, delimiter, rest);
    BodySlices(t, delimiter, rest);
    SectionIsRead(p);
    var body := t + delimiter + rest;
    assert |body| > 2;
  }

  lemma TailSlices(ps: seq<Part>, delimiter: string)
    requires ps != []
    ensures Tail(ps, delimiter)[2..] == PartText(ps[0]) + delimiter + Tail(ps[1..], delimiter)
  {
    hide PartText;
  }

  // After a delimiter: the rest of its line is dropped, then come the parts.
  lemma {:induction false} PartsAreRead(ps: seq<Part>, delimiter: string)
    requires |delimiter| >= 2 && '\n' !in delimiter && forall p :: p in ps ==> PlainPart(p, delimiter)
    ensures |Tail(ps, delimiter)| >= 2 && BodyOf(Tail(ps, delimiter)[2..], delimiter) == Some(ps)
    decreases |ps|
  {
    hide PlainPart, PartText, BodyOf;
    if ps == [] {
      assert Tail(ps, delimiter)[2..] == CRLF;
      LastBreak(delimiter);
    } else {
      PartsAreRead(ps[1..], delimiter);
      TailSlices(ps, delimiter);
      PartIsRead(ps[0], delimiter, Tail(ps[1..], delimiter));
      assert [ps[0]] + ps[1..] == ps;
    }
  }

  lemma LastBreak(delimiter: string)
    requires |delimiter| >= 2
    ensures BodyOf(CRLF, delimiter) == Some([])
  {
  }

  // Parsing the text of a message gives its parts back, in order, with their headers,
  // parameters and bodies.
  lemma RoundTrip(ps: seq<Part>, boundary: string)
    requires '\n' !in boundary && forall p :: p in ps ==> PlainPart(p, DD + boundary)
    ensures BodyOf(Text(ps, boundary), DD + boundary) == Some(ps)
  {
    hide Find, SectionOf, PlainPart, Tail;
    var delimiter := DD + boundary;
    var tail := Tail(ps, delimiter);
    var text := Text(ps, boundary);
    assert text == "" + delimiter + tail;
    PartsAreRead(ps, delimiter);
    FindDelimiter("", delimiter, tail);
    assert text[0] == '-';
    assert text[..0] == "";
    assert text[|delimiter| + 2..] == tail[2..];
  }
}
