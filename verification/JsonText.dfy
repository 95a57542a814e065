/** JSON text: string escapes, the number automaton, and the grammar the parser accepts. */
module JsonText {
  import opened Common

  const QUOTE: byte := 34
  const BACKSLASH: byte := 92

  // Strings -----------------------------------------------------------------

  function FromHex(b: byte): int {
    if b >= 'a' as int then b - 'a' as int + 10
    else if b >= 'A' as int then b - 'A' as int + 10
    else b - '0' as int
  }

  function ToHex(n: nat): byte
    requires n < 16
  {
    if n < 10 then '0' as int + n else 'a' as int + n - 10
  }

  // The character a one-letter escape stands for, if it is one.
  function Simple(b: byte): Option<byte> {
    if b == QUOTE || b == BACKSLASH || Is(b, '/') then Some(b)
    else if Is(b, 'b') then Some(8)
    else if Is(b, 'f') then Some(12)
    else if Is(b, 'n') then Some(10)
    else if Is(b, 'r') then Some(13)
    else if Is(b, 't') then Some(9)
    else None
  }

  // How many bytes the next character of a string takes; 0 at its end or at an error.
  function PieceLen(s: seq<byte>): (k: nat)
    ensures k <= |s|
  {
    var c := Peek(s, 0);
    if c == QUOTE || c == 0 then 0
    else if c != BACKSLASH then 1
    else if Is(Peek(s, 1), 'u') then
      if IsHex(Peek(s, 2)) && IsHex(Peek(s, 3)) && IsHex(Peek(s, 4)) && IsHex(Peek(s, 5)) then 6 else 0
    else if Simple(Peek(s, 1)).Some? then 2
    else 0
  }

  function Code(s: seq<byte>): (n: nat)
    requires PieceLen(s) == 6
    ensures n < 0x1_0000
  {
    FromHex(s[2]) * 0x1000 + FromHex(s[3]) * 0x100 + FromHex(s[4]) * 0x10 + FromHex(s[5])
  }

  function Utf8(code: nat): seq<byte>
    requires code < 0x1_0000
  {
    if code >= 0x800 then [0xE0 + code / 0x1000, 0x80 + (code / 0x40) % 0x40, 0x80 + code % 0x40]
    else if code >= 0x80 then [0xC0 + code / 0x40, 0x80 + code % 0x40]
    else [code]
  }

  function Piece(s: seq<byte>): (r: seq<byte>)
    requires PieceLen(s) > 0
    ensures 1 <= |r| <= PieceLen(s)
  {
    if PieceLen(s) == 1 then [s[0]]
    else if PieceLen(s) == 2 then [Simple(s[1]).value]
    else Utf8(Code(s))
  }

  // How many bytes there are before the closing quote.
  function StringLen(s: seq<byte>): (r: Option<nat>)
    ensures r.Some? ==> r.value < |s| && s[r.value] == QUOTE
  {
    var k := PieceLen(s);
    if k == 0 then if Peek(s, 0) == QUOTE then Some(0) else None
    else
      match StringLen(s[k..])
      case None => None
      case Some(n) => Some(k + n)
  }

  function Unescaped(s: seq<byte>): seq<byte> {
    if PieceLen(s) == 0 then [] else Piece(s) + Unescaped(s[PieceLen(s)..])
  }

  ghost predicate WellEscaped(s: seq<byte>) {
    s == [] || (PieceLen(s) > 0 && WellEscaped(s[PieceLen(s)..]))
  }

  function EscapeByte(c: byte): seq<byte> {
    if c == QUOTE || c == BACKSLASH then [BACKSLASH, c]
    else if c == 10 then [BACKSLASH, 'n' as int]
    else if c == 8 then [BACKSLASH, 'b' as int]
    else if c == 12 then [BACKSLASH, 'f' as int]
    else if c == 13 then [BACKSLASH, 'r' as int]
    else if c == 9 then [BACKSLASH, 't' as int]
    else if c < 0x20 then [BACKSLASH, 'u' as int, '0' as int, '0' as int, ToHex(c / 16), ToHex(c % 16)]
    else [c]
  }

  function Escaped(s: seq<byte>): seq<byte> {
    if s == [] then [] else EscapeByte(s[0]) + Escaped(s[1..])
  }

  // A piece is determined by its own bytes.
  lemma PieceOfMore(s: seq<byte>, t: seq<byte>)
    requires PieceLen(s) > 0
    ensures PieceLen(s + t) == PieceLen(s) && Piece(s + t) == Piece(s)
  {
    var c := s + t;
    assert forall i :: 0 <= i < |s| ==> c[i] == s[i];
  }

  lemma EscapeByteIsPiece(c: byte)
    ensures var e := EscapeByte(c); PieceLen(e) == |e| && Piece(e) == [c]
  {
  }

  // The bytes up to the closing quote are well escaped, and nothing less is.
  lemma {:induction false} StringLenMeans(s: seq<byte>)
    ensures StringLen(s).Some? ==> WellEscaped(s[..StringLen(s).value])
    ensures StringLen(s).Some? ==> Unescaped(s[..StringLen(s).value]) == Unescaped(s)
    decreases |s|
  {
    hide Piece;
    var k := PieceLen(s);
    if k > 0 && StringLen(s[k..]).Some? {
      StringLenMeans(s[k..]);
      var n := StringLen(s[k..]).value;
      PrefixPiece(s, k + n);
      assert s[..k + n][k..] == s[k..][..n];
    }
  }

  lemma PrefixPiece(s: seq<byte>, n: nat)
    requires 0 < PieceLen(s) <= n <= |s|
    ensures PieceLen(s[..n]) == PieceLen(s) && Piece(s[..n]) == Piece(s)
  {
    assert forall i :: 0 <= i < n ==> s[..n][i] == s[i];
  }

  // Every well-escaped string is found again between its quotes.
  lemma {:induction false} StringLenFinds(raw: seq<byte>, rest: seq<byte>)
    requires WellEscaped(raw)
    ensures StringLen(raw + [QUOTE] + rest) == Some(|raw|)
    decreases |raw|
  {
    hide Piece;
    var s := raw + [QUOTE] + rest;
    if raw == [] {
      assert s[0] == QUOTE;
    } else {
      var k := PieceLen(raw);
      assert s == raw + ([QUOTE] + rest);
      PieceOfMore(raw, [QUOTE] + rest);
      assert s[k..] == raw[k..] + [QUOTE] + rest;
      StringLenFinds(raw[k..], rest);
    }
  }

  lemma {:induction false} EscapeRoundTrip(s: seq<byte>)
    ensures WellEscaped(Escaped(s)) && Unescaped(Escaped(s)) == s
  {
    hide PieceLen, Piece, EscapeByte;
    if s != [] {
      var e := EscapeByte(s[0]);
      var t := Escaped(s[1..]);
      EscapeByteIsPiece(s[0]);
      EscapeByteNotEmpty(s[0]);
      PieceOfMore(e, t);
      assert (e + t)[|e|..] == t;
      EscapeRoundTrip(s[1..]);
      assert s == [s[0]] + s[1..];
    }
  }

  lemma EscapeByteNotEmpty(c: byte)
    ensures EscapeByte(c) != []
  {
  }

  // A string without a backslash stands for itself.
  lemma {:induction false} PlainString(s: seq<byte>)
    requires WellEscaped(s) && BACKSLASH !in s
    ensures Unescaped(s) == s
    decreases |s|
  {
    if s != [] {
      PlainString(s[1..]);
      assert s == [s[0]] + s[1..];
    }
  }

  // UTF-8, section 3 of RFC 3629: the code point that up to three bytes stand for.
  function CodePoint(u: seq<byte>): int {
    if |u| == 1 then u[0] as int
    else if |u| == 2 then (u[0] as int - 0xC0) * 0x40 + (u[1] as int - 0x80)
    else if |u| == 3 then (u[0] as int - 0xE0) * 0x1000 + (u[1] as int - 0x80) * 0x40 + (u[2] as int - 0x80)
    else -1
  }

  lemma UnicodeEscape(code: nat)
    requires code < 0x1_0000
    ensures var u := Utf8(code);
            && CodePoint(u) == code
            && |u| == (if code < 0x80 then 1 else if code < 0x800 then 2 else 3)
            && (|u| == 1 ==> u[0] < 0x80)
            && (|u| == 2 ==> 0xC2 <= u[0] < 0xE0)
            && (|u| == 3 ==> 0xE0 <= u[0] < 0xF0)
            && forall i :: 1 <= i < |u| ==> 0x80 <= u[i] < 0xC0
  {
  }

  // Numbers -----------------------------------------------------------------

  datatype NumState = Minus | AfterMinus | ZeroFirst | Digits | DigitsAfterPoints | E | DigitsAfterE | Invalid

  predicate IsDigit(b: byte) { '0' as int <= b <= '9' as int }

  predicate IsNumberByte(b: byte) {
    IsDigit(b) || Is(b, '.') || Is(b, '-') || Is(b, '+') || Is(b, 'e') || Is(b, 'E')
  }

  // The transition tables.
  function NumStep(st: NumState, b: byte): NumState {
    if Is(b, '0') then
      match st
      case Minus => ZeroFirst
      case AfterMinus => ZeroFirst
      case ZeroFirst => Invalid
      case E => DigitsAfterE
      case _ => st
    else if IsDigit(b) then
      match st
      case Minus => Digits
      case AfterMinus => Digits
      case ZeroFirst => Invalid
      case E => DigitsAfterE
      case _ => st
    else if Is(b, '.') then (if st == ZeroFirst || st == Digits then DigitsAfterPoints else Invalid)
    else if Is(b, '-') then (if st == Minus then AfterMinus else if st == E then DigitsAfterE else Invalid)
    else if Is(b, '+') then (if st == E then DigitsAfterE else Invalid)
    else if Is(b, 'e') || Is(b, 'E') then (if st == Digits || st == DigitsAfterPoints then E else Invalid)
    else Invalid
  }

  predicate IsFinal(st: NumState) {
    st == ZeroFirst || st == Digits || st == DigitsAfterPoints || st == DigitsAfterE
  }

  // How many bytes a number takes, from a state of the automaton on.
  function NumberLen(s: seq<byte>, st: NumState): (r: Option<nat>)
    ensures r.Some? ==> r.value <= |s| && (!IsFinal(st) ==> r.value > 0)
  {
    if !IsNumberByte(Peek(s, 0)) then if IsFinal(st) then Some(0) else None
    else if NumStep(st, s[0]) == Invalid then None
    else
      match NumberLen(s[1..], NumStep(st, s[0]))
      case None => None
      case Some(n) => Some(n + 1)
  }

  // Values ------------------------------------------------------------------

  datatype Member = Member(key: seq<byte>, value: Value)

  datatype Value =
    | Null | False | True
    | Number(text: seq<byte>)
    | Str(bytes: seq<byte>)
    | List(items: seq<Value>)
    | Object(members: seq<Member>)

  datatype Result<+T> = Ok(value: T, len: nat) | Bad

  const MAX_DEPTH: nat := 10000

  predicate IsSpace(b: byte) { b == 32 || b == 9 || b == 13 || b == 10 }

  // How many white space bytes come first.
  function Spaces(s: seq<byte>): (n: nat)
    ensures n <= |s| && !IsSpace(Peek(s, n))
  {
    if IsSpace(Peek(s, 0)) then 1 + Spaces(s[1..]) else 0
  }

  predicate Begins(s: seq<byte>, word: string) {
    |word| <= |s| && forall i :: 0 <= i < |word| ==> s[i] == word[i] as int
  }

  function Word(s: seq<byte>, word: string, v: Value): (r: Result<Value>)
    ensures r.Ok? ==> r.len <= |s|
  {
    if Begins(s, word) then Ok(v, |word|) else Bad
  }

  // A string with its quotes.
  function StringOf(s: seq<byte>): (r: Result<seq<byte>>)
    ensures r.Ok? ==> 0 < r.len <= |s|
  {
    if Peek(s, 0) != QUOTE then Bad
    else
      match StringLen(s[1..])
      case None => Bad
      case Some(n) => Ok(Unescaped(s[1..1 + n]), n + 2)
  }

  function ValueOf(s: seq<byte>, depth: nat): (r: Result<Value>)
    decreases |s|, 3
    ensures r.Ok? ==> 0 < r.len <= |s|
  {
    var c := Peek(s, 0);
    if Is(c, '[') then ListOf(s, depth + 1)
    else if Is(c, '{') then ObjectOf(s, depth + 1)
    else if c == QUOTE then
      match StringOf(s) case Ok(bytes, n) => Ok(Str(bytes), n) case Bad => Bad
    else if Is(c, 't') then Word(s, "true", True)
    else if Is(c, 'f') then Word(s, "false", False)
    else if Is(c, 'n') then Word(s, "null", Null)
    else
      match NumberLen(s, Minus)
      case None => Bad
      case Some(n) => Ok(Number(s[..n]), n)
  }

  function ListOf(s: seq<byte>, depth: nat): (r: Result<Value>)
    requires Is(Peek(s, 0), '[')
    decreases |s|, 2
    ensures r.Ok? ==> 0 < r.len <= |s|
  {
    if depth > MAX_DEPTH then Bad
    else
      var i := 1 + Spaces(s[1..]);
      if Is(Peek(s, i), ']') then Ok(List([]), i + 1)
      else
        match Items(s[i..], depth)
        case Ok(vs, n) => Ok(List(vs), i + n)
        case Bad => Bad
  }

  // One item or more, up to the closing bracket.
  function Items(s: seq<byte>, depth: nat): (r: Result<seq<Value>>)
    decreases |s|, 4
    ensures r.Ok? ==> 0 < r.len <= |s|
  {
    match ValueOf(s, depth + 1)
    case Bad => Bad
    case Ok(v, n) =>
      var i := n + Spaces(s[n..]);
      if Is(Peek(s, i), ']') then Ok([v], i + 1)
      else if Is(Peek(s, i), ',') then
        var j := i + 1 + Spaces(s[i + 1..]);
        match Items(s[j..], depth)
        case Ok(vs, m) => Ok([v] + vs, j + m)
        case Bad => Bad
      else Bad
  }

  function ObjectOf(s: seq<byte>, depth: nat): (r: Result<Value>)
    requires Is(Peek(s, 0), '{')
    decreases |s|, 2
    ensures r.Ok? ==> 0 < r.len <= |s|
  {
    if depth > MAX_DEPTH then Bad
    else
      var i := 1 + Spaces(s[1..]);
      if Is(Peek(s, i), '}') then Ok(Object([]), i + 1)
      else
        match Members(s[i..], depth)
        case Ok(ms, n) => Ok(Object(ms), i + n)
        case Bad => Bad
  }

  // A key, a colon and a value.
  function MemberOf(s: seq<byte>, depth: nat): (r: Result<Member>)
    decreases |s|, 4
    ensures r.Ok? ==> 0 < r.len <= |s|
  {
    match StringOf(s)
    case Bad => Bad
    case Ok(key, n) =>
      var i := n + Spaces(s[n..]);
      if !Is(Peek(s, i), ':') then Bad
      else
        var j := i + 1 + Spaces(s[i + 1..]);
        match ValueOf(s[j..], depth + 1)
        case Bad => Bad
        case Ok(v, m) => Ok(Member(key, v), j + m)
  }

  function Members(s: seq<byte>, depth: nat): (r: Result<seq<Member>>)
    decreases |s|, 5
    ensures r.Ok? ==> 0 < r.len <= |s|
  {
    match MemberOf(s, depth)
    case Bad => Bad
    case Ok(kv, n) =>
      var i := n + Spaces(s[n..]);
      if Is(Peek(s, i), '}') then Ok([kv], i + 1)
      else if Is(Peek(s, i), ',') then
        var j := i + 1 + Spaces(s[i + 1..]);
        match Members(s[j..], depth)
        case Ok(ms, m) => Ok([kv] + ms, j + m)
        case Bad => Bad
      else Bad
  }

  // One item, and then the others.
  ghost function Prepended<T>(vs: seq<T>, k: int, r: Result<seq<T>>): Result<seq<T>> {
    match r case Bad => Bad case Ok(ws, n) => if k + n >= 0 then Ok(vs + ws, k + n) else Bad
  }

  ghost function ItemsStep(s: seq<byte>, depth: nat): Result<seq<Value>> {
    match ValueOf(s, depth + 1)
    case Bad => Bad
    case Ok(v, n) =>
      var i := n + Spaces(s[n..]);
      if Is(Peek(s, i), ']') then Ok([v], i + 1)
      else if Is(Peek(s, i), ',') then
        var j := i + 1 + Spaces(s[i + 1..]);
        Prepended([v], j, Items(s[j..], depth))
      else Bad
  }

  lemma ItemsOnce(s: seq<byte>, depth: nat)
    ensures Items(s, depth) == ItemsStep(s, depth)
  {
    hide ValueOf, MemberOf, Spaces;
  }

  ghost function MembersStep(s: seq<byte>, depth: nat): Result<seq<Member>> {
    match MemberOf(s, depth)
    case Bad => Bad
    case Ok(kv, n) =>
      var i := n + Spaces(s[n..]);
      if Is(Peek(s, i), '}') then Ok([kv], i + 1)
      else if Is(Peek(s, i), ',') then
        var j := i + 1 + Spaces(s[i + 1..]);
        Prepended([kv], j, Members(s[j..], depth))
      else Bad
  }

  lemma MembersOnce(s: seq<byte>, depth: nat)
    ensures Members(s, depth) == MembersStep(s, depth)
  {
    hide ValueOf, MemberOf, Spaces;
  }

  // A whole text: one value between white space, up to the first NUL.
  function Parsed(s: seq<byte>): Option<Value> {
    var i := Spaces(s);
    match ValueOf(s[i..], 0)
    case Bad => None
    case Ok(v, n) =>
      var j := i + n + Spaces(s[i + n..]);
      if Peek(s, j) == 0 then Some(v) else None
  }
}
