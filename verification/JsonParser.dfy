/** The in-place recursive-descent JSON parser over a NUL-terminated buffer. */
module JsonParser {
  import opened Common
  import opened JsonText

  // A parsed value refers to the buffer: numbers and strings are stretches of it. A string
  // is stored as it was written, with a flag before it that says whether it has escapes;
  // it is unescaped in place when it is first read. Keys are unescaped at once.
  datatype RMember = RMember(start: nat, end: nat, value: RValue)

  datatype RValue =
    | Null | False | True
    | Number(start: nat, end: nat)
    | Str(start: nat, end: nat)
    | List(items: seq<RValue>)
    | Object(members: seq<RMember>)
    | Error

  // What a string in the buffer reads as.
  ghost function Content(b: seq<byte>, start: nat, end: nat): seq<byte>
    requires 0 < start <= end <= |b|
  {
    if b[start - 1] != 0 then Unescaped(b[start..end]) else b[start..end]
  }

  ghost predicate StringAt(b: seq<byte>, start: nat, end: nat) {
    && 0 < start <= end < |b| && b[end] == 0
    && (b[start - 1] != 0 ==> WellEscaped(b[start..end]))
  }

  // The value v is found in the buffer between lo and hi; the parts of a container lie
  // apart from each other, in order.
  ghost predicate Denotes(b: seq<byte>, rv: RValue, v: Value, lo: nat, hi: nat)
    decreases rv, 1
  {
    && lo <= hi <= |b|
    && match rv
       case Null => v == Value.Null
       case False => v == Value.False
       case True => v == Value.True
       case Number(s, e) => lo <= s <= e <= hi && v == Value.Number(b[s..e])
       case Str(s, e) => lo < s && e < hi && StringAt(b, s, e) && v == Value.Str(Content(b, s, e))
       case List(items) => v.List? && exists cuts: seq<nat> :: ItemsAt(b, rv, v, cuts, lo, hi)
       case Object(members) => v.Object? && exists cuts: seq<nat> :: MembersAt(b, rv, v, cuts, lo, hi)
       case Error => false
  }

  ghost predicate Cut(cuts: seq<nat>, n: nat, lo: nat, hi: nat) {
    |cuts| == n + 1 && lo <= cuts[0] && cuts[n] <= hi && forall i, j :: 0 <= i <= j <= n ==> cuts[i] <= cuts[j]
  }

  ghost predicate ItemsAt(b: seq<byte>, rv: RValue, v: Value, cuts: seq<nat>, lo: nat, hi: nat)
    requires rv.List? && v.List?
    decreases rv, 0
  {
    && |rv.items| == |v.items| && Cut(cuts, |v.items|, lo, hi)
    && forall i :: 0 <= i < |v.items| ==> Denotes(b, rv.items[i], v.items[i], cuts[i], cuts[i + 1])
  }

  ghost predicate KeyAt(b: seq<byte>, m: RMember, key: seq<byte>, lo: nat, hi: nat) {
    && lo < m.start <= m.end < hi && hi <= |b|
    && b[m.start - 1] == 0 && b[m.end] == 0 && b[m.start..m.end] == key
  }

  ghost predicate MembersAt(b: seq<byte>, rv: RValue, v: Value, cuts: seq<nat>, lo: nat, hi: nat)
    requires rv.Object? && v.Object?
    decreases rv, 0
  {
    && |rv.members| == |v.members| && Cut(cuts, |v.members|, lo, hi)
    && forall i :: 0 <= i < |v.members| ==>
         && KeyAt(b, rv.members[i], v.members[i].key, cuts[i], cuts[i + 1])
         && Denotes(b, rv.members[i].value, v.members[i].value, rv.members[i].end + 1, cuts[i + 1])
  }

  // A value depends on its own stretch of the buffer only.
  lemma {:induction false} DenotesFrame(b: seq<byte>, c: seq<byte>, rv: RValue, v: Value, lo: nat, hi: nat, lo': nat, hi': nat)
    requires Denotes(b, rv, v, lo, hi) && |b| == |c| && b[lo..hi] == c[lo..hi] && lo' <= lo && hi <= hi' <= |c|
    ensures Denotes(c, rv, v, lo', hi')
    decreases rv, 1
  {
    hide Unescaped, WellEscaped, Cut, ItemsAt, MembersAt;
    match rv
    case Number(s, e) => SameSlice(b, c, lo, hi, s, e);
    case Str(s, e) =>
      SameSlice(b, c, lo, hi, s, e);
      SameByte(b, c, lo, hi, s - 1);
      SameByte(b, c, lo, hi, e);
    case List(items) =>
      var cuts: seq<nat> :| ItemsAt(b, rv, v, cuts, lo, hi);
      ItemsFrame(b, c, rv, v, cuts, lo, hi, lo', hi');
    case Object(members) =>
      var cuts: seq<nat> :| MembersAt(b, rv, v, cuts, lo, hi);
      MembersFrame(b, c, rv, v, cuts, lo, hi, lo', hi');
    case _ =>
  }

  lemma {:induction false} ItemsFrame(b: seq<byte>, c: seq<byte>, rv: RValue, v: Value, cuts: seq<nat>,
                                      lo: nat, hi: nat, lo': nat, hi': nat)
    requires rv.List? && v.List? && ItemsAt(b, rv, v, cuts, lo, hi)
    requires hi <= |b| && |b| == |c| && b[lo..hi] == c[lo..hi] && lo' <= lo && hi <= hi' <= |c|
    ensures ItemsAt(c, rv, v, cuts, lo', hi')
    decreases rv, 0
  {
    hide Cut, Denotes;
    CutOrder(cuts, |rv.items|, lo, hi, lo', hi');
    forall i | 0 <= i < |rv.items|
      ensures Denotes(c, rv.items[i], v.items[i], cuts[i], cuts[i + 1])
    {
      SameSlice(b, c, lo, hi, cuts[i], cuts[i + 1]);
      DenotesFrame(b, c, rv.items[i], v.items[i], cuts[i], cuts[i + 1], cuts[i], cuts[i + 1]);
    }
  }

  lemma {:induction false} MembersFrame(b: seq<byte>, c: seq<byte>, rv: RValue, v: Value, cuts: seq<nat>,
                                        lo: nat, hi: nat, lo': nat, hi': nat)
    requires rv.Object? && v.Object? && MembersAt(b, rv, v, cuts, lo, hi)
    requires hi <= |b| && |b| == |c| && b[lo..hi] == c[lo..hi] && lo' <= lo && hi <= hi' <= |c|
    ensures MembersAt(c, rv, v, cuts, lo', hi')
    decreases rv, 0
  {
    hide Cut, Denotes, KeyAt;
    CutOrder(cuts, |rv.members|, lo, hi, lo', hi');
    forall i | 0 <= i < |rv.members|
      ensures KeyAt(c, rv.members[i], v.members[i].key, cuts[i], cuts[i + 1])
      ensures Denotes(c, rv.members[i].value, v.members[i].value, rv.members[i].end + 1, cuts[i + 1])
    {
      var m := rv.members[i];
      KeyFrame(b, c, m, v.members[i].key, cuts[i], cuts[i + 1], lo, hi);
      SameSlice(b, c, lo, hi, m.end + 1, cuts[i + 1]);
      DenotesFrame(b, c, m.value, v.members[i].value, m.end + 1, cuts[i + 1], m.end + 1, cuts[i + 1]);
    }
  }

  lemma KeyFrame(b: seq<byte>, c: seq<byte>, m: RMember, key: seq<byte>, from: nat, to: nat, lo: nat, hi: nat)
    requires KeyAt(b, m, key, from, to) && lo <= from && to <= hi <= |b| && |b| == |c| && b[lo..hi] == c[lo..hi]
    ensures KeyAt(c, m, key, from, to) && from <= m.end + 1 <= to
  {
    SameSlice(b, c, lo, hi, m.start, m.end);
    SameByte(b, c, lo, hi, m.start - 1);
    SameByte(b, c, lo, hi, m.end);
  }

  lemma CutOrder(cuts: seq<nat>, n: nat, lo: nat, hi: nat, lo': nat, hi': nat)
    requires Cut(cuts, n, lo, hi) && lo' <= lo && hi <= hi'
    ensures Cut(cuts, n, lo', hi') && |cuts| == n + 1
    ensures forall i, j :: 0 <= i <= j <= n ==> lo <= cuts[i] <= cuts[j] <= hi
  {
  }

  lemma SameSlice(b: seq<byte>, c: seq<byte>, lo: nat, hi: nat, s: nat, e: nat)
    requires lo <= s <= e <= hi <= |b| && |b| == |c| && b[lo..hi] == c[lo..hi]
    ensures b[s..e] == c[s..e]
  {
    forall i | s <= i < e
      ensures b[i] == c[i]
    {
      SameByte(b, c, lo, hi, i);
    }
  }

  lemma SameByte(b: seq<byte>, c: seq<byte>, lo: nat, hi: nat, i: nat)
    requires lo <= i < hi <= |b| && |b| == |c| && b[lo..hi] == c[lo..hi]
    ensures b[i] == c[i]
  {
    assert b[i] == b[lo..hi][i - lo];
    assert c[i] == c[lo..hi][i - lo];
  }

  // Strings in place --------------------------------------------------------

  method Put(buf: array<byte>, at: nat, bytes: seq<byte>)
    requires at + |bytes| <= buf.Length
    modifies buf
    ensures buf[..] == old(buf[..at]) + bytes + old(buf[at + |bytes|..])
  {
    for i := 0 to |bytes|
      invariant buf[..] == old(buf[..at]) + bytes[..i] + old(buf[at + i..])
    {
      buf[at + i] := bytes[i];
    }
  }

  // What the loop of unescape keeps: the part that is done, then untouched bytes.
  ghost predicate Unescaping(b: seq<byte>, was: seq<byte>, start: nat, tail: nat, head: nat, end: nat) {
    && 0 < start <= tail <= head <= end < |b| && |b| == |was|
    && b[..start] == was[..start] && b[head..] == was[head..]
    && WellEscaped(was[head..end])
    && b[start..tail] + Unescaped(was[head..end]) == Unescaped(was[start..end])
  }

  lemma UnescapedOnce(raw: seq<byte>)
    requires PieceLen(raw) > 0
    ensures Unescaped(raw) == Piece(raw) + Unescaped(raw[PieceLen(raw)..])
    ensures WellEscaped(raw) ==> WellEscaped(raw[PieceLen(raw)..])
  {
  }

  lemma UnescapeStep(b: seq<byte>, c: seq<byte>, was: seq<byte>, start: nat, tail: nat, head: nat, end: nat, piece: seq<byte>)
    requires Unescaping(b, was, start, tail, head, end) && head < end
    requires PieceLen(was[head..end]) > 0 && piece == Piece(was[head..end])
    requires tail + |piece| <= |b| && c == b[..tail] + piece + b[tail + |piece|..]
    ensures Unescaping(c, was, start, tail + |piece|, head + PieceLen(was[head..end]), end)
  {
    hide PieceLen, Piece, Unescaped, WellEscaped;
    var raw := was[head..end];
    PieceShort(raw);
    UnescapedOnce(raw);
    var k := PieceLen(raw);
    assert k <= |raw| by { PieceWithin(raw); }
    assert raw[k..] == was[head + k..end];
    assert c[start..tail + |piece|] == b[start..tail] + piece;
    assert b[start..tail] + (piece + Unescaped(raw[k..])) == c[start..tail + |piece|] + Unescaped(raw[k..]);
    assert c[..start] == was[..start];
    assert c[head + k..] == b[head..][k..];
    assert was[head + k..] == was[head..][k..];
  }

  lemma PieceWithin(s: seq<byte>)
    ensures PieceLen(s) <= |s|
  {
  }

  // One character of the string: the bytes it stands for and those it takes.
  method NextPiece(buf: array<byte>, head: nat, end: nat) returns (piece: seq<byte>, next: nat)
    requires head < end <= buf.Length && WellEscaped(buf[head..end])
    ensures PieceLen(buf[head..end]) > 0 && piece == Piece(buf[head..end])
    ensures next == head + PieceLen(buf[head..end]) <= end
  {
    ghost var raw := buf[head..end];
    assert raw != [];
    if buf[head] == BACKSLASH {
      var c := buf[head + 1];
      if Is(c, 'u') {
        var code := FromHex(buf[head + 2]) * 0x1000 + FromHex(buf[head + 3]) * 0x100
                    + FromHex(buf[head + 4]) * 0x10 + FromHex(buf[head + 5]);
        assert code == Code(raw);
        piece, next := Utf8(code), head + 6;
      } else {
        piece, next := [Simple(c).value], head + 2;
      }
    } else {
      piece, next := [buf[head]], head + 1;
    }
  }

  method Unescape(buf: array<byte>, start: nat, end: nat) returns (newEnd: nat)
    requires StringAt(buf[..], start, end)
    modifies buf
    ensures start <= newEnd <= end && StringAt(buf[..], start, newEnd) && buf[start - 1] == 0
    ensures buf[start..newEnd] == old(Content(buf[..], start, end))
    ensures buf[..start - 1] == old(buf[..start - 1]) && buf[end + 1..] == old(buf[end + 1..])
    ensures old(buf[start - 1]) == 0 ==> newEnd == end && buf[..] == old(buf[..])
  {
    hide Unescaped, PieceLen, Piece;
    newEnd := end;
    ghost var was := buf[..];
    assert buf[start..end] == was[start..end];
    if buf[start - 1] != 0 {
      var head: nat, tail: nat := start, start;
      assert was[start..start] == [];
      while head != end
        invariant Unescaping(buf[..], was, start, tail, head, end)
        decreases end - head
      {
        ghost var b := buf[..];
        assert b[head..end] == was[head..end] by { assert b[head..][..end - head] == was[head..][..end - head]; }
        assert buf[head..end] == b[head..end];
        var piece, next := NextPiece(buf, head, end);
        assert |piece| <= next - head by { PieceShort(was[head..end]); }
        Put(buf, tail, piece);
        UnescapeStep(b, buf[..], was, start, tail, head, end, piece);
        tail, head := tail + |piece|, next;
      }
      FinishUnescape(buf[..], was, start, tail, end);
      newEnd := tail;
      buf[newEnd] := 0;
      buf[start - 1] := 0;
    }
  }

  lemma PieceShort(s: seq<byte>)
    requires PieceLen(s) > 0
    ensures |Piece(s)| <= PieceLen(s)
  {
  }

  lemma FinishUnescape(b: seq<byte>, was: seq<byte>, start: nat, tail: nat, end: nat)
    requires Unescaping(b, was, start, tail, end, end)
    ensures b[start..tail] == Unescaped(was[start..end])
    ensures b[..start - 1] == was[..start - 1] && b[end + 1..] == was[end + 1..]
  {
    assert was[end..end] == [];
    assert b[..start - 1] == b[..start][..start - 1];
    assert was[..start - 1] == was[..start][..start - 1];
    assert b[end + 1..] == b[end..][1..];
    assert was[end + 1..] == was[end..][1..];
  }

  // The parser ----------------------------------------------------------------

  // The rest of the text; its bytes from at on.
  ghost function From(text: seq<byte>, at: nat): seq<byte> {
    if at <= |text| then text[at..] else []
  }

  // How the outcome of parsing from start on shows in the buffer.
  ghost predicate Outcome(b: seq<byte>, rv: RValue, r: Result<Value>, start: nat, data: nat) {
    match r
    case Ok(v, n) => rv != Error && data == start + n && Denotes(b, rv, v, start, data)
    case Bad => rv == Error
  }

  datatype Sep = Closed | More | Wrong

  class Parser {
    const buf: array<byte>
    ghost const text: seq<byte>
    var data: nat

    // What has not been read yet is as it was.
    ghost predicate Valid()
      reads this, buf
    {
      && buf.Length == |text| && data < |text| && text[|text| - 1] == 0
      && buf[data..] == text[data..]
    }

    constructor (buf: array<byte>)
      requires buf.Length > 0 && buf[buf.Length - 1] == 0
      ensures Valid() && this.buf == buf && text == buf[..] && data == 0
    {
      this.buf := buf;
      text := buf[..];
      data := 0;
    }

    lemma Ahead(k: nat)
      requires Valid() && data + k < |text|
      ensures |text| == buf.Length && buf[data + k] == text[data + k] == Peek(From(text, data), k)
    {
      assert buf[data + k] == buf[data..][k];
    }

    // A byte that is not NUL can be passed.
    lemma NotAtEnd(k: nat)
      requires Valid() && data + k < |text| && text[data + k] != 0
      ensures data + k + 1 < |text| == buf.Length
    {
    }

    lemma Here()
      requires Valid()
      ensures data < |text| == buf.Length
    {
    }

    method Skip(k: nat)
      requires Valid() && data + k < |text|
      modifies this`data
      ensures Valid() && data == old(data) + k
    {
      assert buf[data + k..] == buf[data..][k..];
      assert text[data + k..] == text[data..][k..];
      data := data + k;
    }

    method Consume(c: byte) returns (ok: bool)
      requires Valid() && c != 0
      modifies this`data
      ensures Valid() && ok == (text[old(data)] == c)
      ensures data == old(data) + if ok then 1 else 0
    {
      hide Valid, From;
      Here();
      Ahead(0);
      ok := buf[data] == c;
      if ok {
        NotAtEnd(0);
        Skip(1);
      }
    }

    method WsSkip()
      requires Valid()
      modifies this`data
      ensures Valid() && data == old(data) + Spaces(From(text, old(data)))
    {
      hide Valid, From, Spaces;
      Here();
      Ahead(0);
      while IsSpace(buf[data])
        invariant Valid() && old(data) <= data < |text| == buf.Length && buf[data] == text[data]
        invariant old(data) + Spaces(From(text, old(data))) == data + Spaces(From(text, data))
        decreases |text| - data
      {
        SpacesNext(text, data);
        NotAtEnd(0);
        Skip(1);
        Ahead(0);
      }
      SpacesNext(text, data);
    }

    // Past the bytes of one character of a string; 0 for none.
    method PieceAhead() returns (k: nat)
      requires Valid()
      ensures k == PieceLen(From(text, data)) && data + k < |text|
    {
      Ahead(0);
      var c := buf[data];
      k := 0;
      if c != QUOTE && c != BACKSLASH && c != 0 {
        k := 1;
      } else if c == BACKSLASH {
        NotAtEnd(0);
        Ahead(1);
        var d := buf[data + 1];
        if Is(d, 'u') {
          var hex := HexAhead();
          k := if hex then 6 else 0;
        } else if Simple(d).Some? {
          NotAtEnd(1);
          k := 2;
        }
      }
    }

    method HexAhead() returns (hex: bool)
      requires Valid() && data + 1 < |text| && text[data + 1] != 0
      ensures hex == (IsHex(Peek(From(text, data), 2)) && IsHex(Peek(From(text, data), 3))
                      && IsHex(Peek(From(text, data), 4)) && IsHex(Peek(From(text, data), 5)))
      ensures hex ==> data + 6 < |text|
    {
      NotAtEnd(1);
      Ahead(2);
      hex := IsHex(buf[data + 2]);
      if hex {
        NotAtEnd(2);
        Ahead(3);
        hex := IsHex(buf[data + 3]);
      }
      if hex {
        NotAtEnd(3);
        Ahead(4);
        hex := IsHex(buf[data + 4]);
      }
      if hex {
        NotAtEnd(4);
        Ahead(5);
        hex := IsHex(buf[data + 5]);
        if hex {
          NotAtEnd(5);
        }
      }
    }

    // The scan for the closing quote: the escapes it passes are checked, and noted.
    method ScanString() returns (ok: bool, escaping: byte)
      requires Valid()
      modifies this`data
      ensures Valid() && old(data) <= data
      ensures ok == StringLen(From(text, old(data))).Some?
      ensures ok ==> data == old(data) + StringLen(From(text, old(data))).value && text[data] == QUOTE
      ensures ok ==> (escaping == 0 <==> BACKSLASH !in text[old(data)..data])
    {
      hide PieceLen, StringLen, From, Valid;
      Here();
      ghost var start := data;
      escaping := 0;
      ok := true;
      assert text[start..start] == [];
      while true
        invariant Valid() && start <= data < |text| == buf.Length && ok
        invariant StringLen(From(text, start)) == Further(data - start, StringLen(From(text, data)))
        invariant escaping == 0 <==> BACKSLASH !in text[start..data]
        decreases |text| - data
      {
        Ahead(0);
        var k := PieceAhead();
        if k == 0 {
          StringStops(From(text, data));
          ok := buf[data] == QUOTE;
          return;
        }
        if buf[data] == BACKSLASH {
          escaping := 1;
        }
        StringPiece(text, start, data, k);
        Skip(k);
      }
    }

    method DecodeString() returns (rv: RValue)
      requires Valid()
      modifies this`data, buf
      ensures Valid() && old(data) <= data && buf[..old(data)] == old(buf[..data])
      ensures match StringOf(From(text, old(data)))
              case Ok(bytes, n) => rv != Error && data == old(data) + n && Denotes(buf[..], rv, Value.Str(bytes), old(data), data)
              case Bad => rv == Error
    {
      hide PieceLen, Unescaped, StringLen, StringOf, WellEscaped, From;
      StringOpens(text, data);
      var ok := Consume(QUOTE);
      if !ok {
        return Error;
      }
      var start := data;
      assert buf[start..] == text[start..];
      var escaping;
      ok, escaping := ScanString();
      if !ok {
        return Error;
      }
      NotAtEnd(0);
      StringFound(text, start, data);
      ghost var was := buf[..];
      assert was[start..] == text[start..];
      buf[data] := 0;
      buf[start - 1] := escaping;
      StringStored(buf[..], was, text, start, data, escaping);
      assert buf[data + 1..] == buf[..][data + 1..];
      data := data + 1;
      rv := RValue.Str(start, data - 1);
    }

    lemma AllAhead()
      requires Valid()
      ensures forall i :: data <= i < |text| ==> buf[i] == text[i]
    {
      forall i | data <= i < |text|
        ensures buf[i] == text[i]
      {
        Ahead(i - data);
      }
    }

    // The number automaton; a run of digits after one of 1 to 9 is skipped at once.
    method DecodeNumber() returns (rv: RValue)
      requires Valid()
      modifies this`data
      ensures Valid() && old(data) <= data
      ensures match NumberLen(From(text, old(data)), Minus)
              case Some(n) => data == old(data) + n && rv == RValue.Number(old(data), data)
              case None => rv == Error
    {
      hide From, NumberLen, NumStep, Valid;
      Here();
      var start := data;
      var state := Minus;
      while state != Invalid
        invariant Valid() && start <= data < |text| == buf.Length
        invariant NumberLen(From(text, start), Minus) ==
                  if state == Invalid then None else Further(data - start, NumberLen(From(text, data), state))
        decreases |text| - data
      {
        Ahead(0);
        var c := buf[data];
        NumberNext(text, data, state);
        if !IsNumberByte(c) {
          return if IsFinal(state) then RValue.Number(start, data) else Error;
        }
        NotAtEnd(0);
        ghost var before := state;
        state := NumStep(state, c);
        if IsDigit(c) && c != '0' as int {
          SkipIsStuck(before, c);
          SkipDigits(start, state);
        }
        Skip(1);
      }
      return Error;
    }

    // The digits after the one at the cursor, short of the last.
    method SkipDigits(ghost start: nat, ghost state: NumState)
      requires Valid() && start <= data && data + 1 < |text| && Stuck(state)
      requires NumberLen(From(text, start), Minus) ==
               if state == Invalid then None else Further(data + 1 - start, NumberLen(From(text, data + 1), state))
      modifies this`data
      ensures Valid() && old(data) <= data && data + 1 < |text|
      ensures NumberLen(From(text, start), Minus) ==
              if state == Invalid then None else Further(data + 1 - start, NumberLen(From(text, data + 1), state))
    {
      hide From, NumberLen, NumStep, Valid;
      Here();
      Ahead(1);
      while IsDigit(buf[data + 1])
        invariant Valid() && old(data) <= data && data + 1 < |text| == buf.Length && buf[data + 1] == text[data + 1]
        invariant NumberLen(From(text, start), Minus) ==
                  if state == Invalid then None else Further(data + 1 - start, NumberLen(From(text, data + 1), state))
        decreases |text| - data
      {
        NotAtEnd(1);
        NumberNext(text, data + 1, state);
        Skip(1);
        Ahead(1);
      }
    }

    method DecodeWord(word: string, rv: RValue, ghost v: Value) returns (r: RValue)
      requires Valid() && forall i :: 0 <= i < |word| ==> 0 < word[i] as int < 256
      requires word != "" && text[data] == word[0] as int
      modifies this`data
      ensures Valid() && old(data) <= data
      ensures match Word(From(text, old(data)), word, v)
              case Ok(_, n) => data == old(data) + n && r == rv
              case Bad => r == Error
    {
      hide Word;
      var k := 1;
      AllAhead();
      NotAtEnd(0);
      while k < |word| && buf[data + k] == word[k] as int
        invariant data == old(data) && 1 <= k <= |word| && data + k < |text|
        invariant forall i :: 0 <= i < k ==> text[data + i] == word[i] as int
      {
        NotAtEnd(k);
        k := k + 1;
      }
      WordMeans(text, data, word, v, k);
      if k == |word| {
        Skip(k);
        r := rv;
      } else {
        r := Error;
      }
    }

    // Values -----------------------------------------------------------------

    method DecodeValue(depth: nat) returns (rv: RValue)
      requires Valid()
      modifies this`data, buf
      ensures Valid() && old(data) <= data && buf[..old(data)] == old(buf[..data])
      ensures Outcome(buf[..], rv, ValueOf(From(text, old(data)), depth), old(data), data)
      decreases |text| - data, 3
    {
      hide From, StringOf, NumberLen, ListOf, ObjectOf, Word;
      ghost var start := data;
      ValueUnfold(text, data, depth);
      Ahead(0);
      var c := buf[data];
      if Is(c, '[') {
        rv := DecodeList(depth + 1);
      } else if Is(c, '{') {
        rv := DecodeObject(depth + 1);
      } else if c == QUOTE {
        rv := DecodeString();
      } else if Is(c, 't') {
        rv := DecodeWord("true", RValue.True, Value.True);
        WordLen(From(text, start), "true", Value.True);
      } else if Is(c, 'f') {
        rv := DecodeWord("false", RValue.False, Value.False);
        WordLen(From(text, start), "false", Value.False);
      } else if Is(c, 'n') {
        rv := DecodeWord("null", RValue.Null, Value.Null);
        WordLen(From(text, start), "null", Value.Null);
      } else {
        assert buf[start..] == text[start..];
        rv := DecodeNumber();
        if rv != Error {
          SameStretch(text, buf[..], start, data);
        }
      }
    }

    // What follows an item: the closing bracket, or a comma and white space.
    method Separator(close: byte) returns (sep: Sep)
      requires Valid() && close != 0
      modifies this`data
      ensures Valid() && old(data) <= data
      ensures var q := old(data) + Spaces(From(text, old(data)));
              var c := Peek(From(text, q), 0);
              if c == close then sep == Closed && data == q + 1
              else if Is(c, ',') then sep == More && data == q + 1 + Spaces(From(text, q + 1))
              else sep == Wrong
    {
      hide From, Spaces;
      WsSkip();
      Ahead(0);
      var closed := Consume(close);
      if closed {
        return Closed;
      }
      var comma := Consume(',' as int);
      if !comma {
        return Wrong;
      }
      WsSkip();
      return More;
    }

    method DecodeList(depth: nat) returns (rv: RValue)
      requires Valid() && Is(text[data], '[')
      modifies this`data, buf
      ensures Valid() && old(data) <= data && buf[..old(data)] == old(buf[..data])
      ensures Outcome(buf[..], rv, ListOf(From(text, old(data)), depth), old(data), data)
      decreases |text| - data, 2
    {
      hide From, Items, Denotes, Cut;
      ghost var start := data;
      ListUnfold(text, data, depth);
      var ok := Consume('[' as int);
      if depth > MAX_DEPTH {
        return Error;
      }
      WsSkip();
      Ahead(0);
      if Is(buf[data], ']') {
        NotAtEnd(0);
        Skip(1);
        EmptyList(buf[..], start, data);
        return RValue.List([]);
      }
      rv := DecodeItems(start, depth);
    }

    // The items of a list and its closing bracket.
    method DecodeItems(ghost start: nat, depth: nat) returns (rv: RValue)
      requires Valid() && start <= data
      modifies this`data, buf
      ensures Valid() && old(data) <= data && buf[..old(data)] == old(buf[..data])
      ensures match Items(From(text, old(data)), depth)
              case Ok(vs, n) => rv != Error && data == old(data) + n && Denotes(buf[..], rv, Value.List(vs), start, data)
              case Bad => rv == Error
      decreases |text| - data, 4
    {
      hide From, Items, ValueOf, Denotes, Cut, ItemsAt, Prepended, Spaces;
      ghost var first := data;
      ghost var was := buf[..];
      ghost var vs: seq<Value> := [];
      ghost var cuts: seq<nat> := [start];
      var items: seq<RValue> := [];
      EmptyItems(buf[..], start, data);
      PrependNothing(Items(From(text, data), depth));
      while true
        invariant Valid() && first <= data && buf[..first] == was[..first]
        invariant ItemsAt(buf[..], RValue.List(items), Value.List(vs), cuts, start, data)
        invariant Items(From(text, first), depth) == Prepended(vs, data - first, Items(From(text, data), depth))
        decreases |text| - data
      {
        ghost var p := data;
        ghost var b := buf[..];
        ItemsTurn(text, first, data, depth, vs);
        var v := DecodeValue(depth + 1);
        if v == Error {
          return Error;
        }
        ghost var value := ValueOf(From(text, p), depth + 1).value;
        ghost var end := data;
        ItemAdded(b, buf[..], items, vs, cuts, start, p, v, value, end);
        KeepsBefore(was, b, buf[..], first, p);
        items, vs, cuts := items + [v], vs + [value], cuts + [end];
        var sep := Separator(']' as int);
        ItemsWiden(buf[..], items, vs, cuts, start, end, data);
        if sep == Closed {
          ItemsDone(buf[..], items, vs, cuts, start, data);
          return RValue.List(items);
        }
        if sep == Wrong {
          return Error;
        }
      }
    }

    method DecodeObject(depth: nat) returns (rv: RValue)
      requires Valid() && Is(text[data], '{')
      modifies this`data, buf
      ensures Valid() && old(data) <= data && buf[..old(data)] == old(buf[..data])
      ensures Outcome(buf[..], rv, ObjectOf(From(text, old(data)), depth), old(data), data)
      decreases |text| - data, 2
    {
      hide From, Members, Denotes, Cut;
      ghost var start := data;
      ObjectUnfold(text, data, depth);
      var ok := Consume('{' as int);
      if depth > MAX_DEPTH {
        return Error;
      }
      WsSkip();
      Ahead(0);
      if Is(buf[data], '}') {
        NotAtEnd(0);
        Skip(1);
        EmptyObject(buf[..], start, data);
        return RValue.Object([]);
      }
      rv := DecodeMembers(start, depth);
    }

    // A key, which is unescaped at once, and its colon.
    method DecodeKey() returns (ok: bool, start: nat, end: nat)
      requires Valid()
      modifies this`data, buf
      ensures Valid() && old(data) <= data && buf[..old(data)] == old(buf[..data])
      ensures match KeyFrom(text, old(data))
              case Ok(key, n) => ok && data == old(data) + n && KeyAt(buf[..], RMember(start, end, Error), key, old(data), data)
              case Bad => !ok
    {
      hide From, StringOf, Denotes, Unescaped, Spaces;
      ghost var from := data;
      ghost var was := buf[..];
      ok, start, end := false, 0, 0;
      var t := DecodeString();
      if t == Error {
        return;
      }
      ghost var p := data;
      ghost var key := StringOf(From(text, from)).value;
      IsString(buf[..], t, key, from, p);
      WsSkip();
      Ahead(0);
      var colon := Consume(':' as int);
      if !colon {
        return;
      }
      ghost var b := buf[..];
      var e := Unescape(buf, t.start, t.end);
      KeyStored(text, was, b, buf[..], t.start, t.end, e, key, from, p, data);
      ok, start, end := true, t.start, e;
    }

    method DecodeMember(depth: nat) returns (ok: bool, m: RMember)
      requires Valid()
      modifies this`data, buf
      ensures Valid() && old(data) <= data && buf[..old(data)] == old(buf[..data])
      ensures match MemberOf(From(text, old(data)), depth)
              case Ok(kv, n) => ok && data == old(data) + n && MemberAt(buf[..], m, kv, old(data), data)
              case Bad => !ok
      decreases |text| - data, 4
    {
      hide From, ValueOf, Denotes, MemberOf, KeyAt, KeyFrom, Spaces, MemberAt;
      ghost var from := data;
      ghost var was := buf[..];
      MemberUnfold(text, data, depth);
      m := RMember(0, 0, Error);
      var start, end;
      ok, start, end := DecodeKey();
      if !ok {
        return;
      }
      ghost var p := data;
      ghost var b := buf[..];
      WsSkip();
      ghost var j := data;
      var v := DecodeValue(depth + 1);
      ok := v != Error;
      if ok {
        m := RMember(start, end, v);
        KeepsBefore(was, b, buf[..], from, j);
        MemberStored(b, buf[..], m, KeyFrom(text, from).value, ValueOf(From(text, j), depth + 1).value, from, p, j, data);
      }
    }

    // The members of an object and its closing brace.
    method DecodeMembers(ghost start: nat, depth: nat) returns (rv: RValue)
      requires Valid() && start <= data
      modifies this`data, buf
      ensures Valid() && old(data) <= data && buf[..old(data)] == old(buf[..data])
      ensures match Members(From(text, old(data)), depth)
              case Ok(ms, n) => rv != Error && data == old(data) + n && Denotes(buf[..], rv, Value.Object(ms), start, data)
              case Bad => rv == Error
      decreases |text| - data, 5
    {
      hide From, Members, MemberOf, MemberAt, Denotes, Cut, MembersAt, Prepended, Spaces;
      ghost var first := data;
      ghost var was := buf[..];
      ghost var ms: seq<Member> := [];
      ghost var cuts: seq<nat> := [start];
      var members: seq<RMember> := [];
      EmptyMembers(buf[..], start, data);
      PrependNothing(Members(From(text, data), depth));
      while true
        invariant Valid() && first <= data && buf[..first] == was[..first]
        invariant MembersAt(buf[..], RValue.Object(members), Value.Object(ms), cuts, start, data)
        invariant Members(From(text, first), depth) == Prepended(ms, data - first, Members(From(text, data), depth))
        decreases |text| - data
      {
        ghost var p := data;
        ghost var b := buf[..];
        MembersTurn(text, first, data, depth, ms);
        var ok, m := DecodeMember(depth);
        if !ok {
          return Error;
        }
        ghost var kv := MemberOf(From(text, p), depth).value;
        ghost var end := data;
        MemberAdded(b, buf[..], members, ms, cuts, start, p, m, kv, end);
        KeepsBefore(was, b, buf[..], first, p);
        members, ms, cuts := members + [m], ms + [kv], cuts + [end];
        var sep := Separator('}' as int);
        MembersWiden(buf[..], members, ms, cuts, start, end, data);
        if sep == Closed {
          MembersDone(buf[..], members, ms, cuts, start, data);
          return RValue.Object(members);
        }
        if sep == Wrong {
          return Error;
        }
      }
    }

    method Parse() returns (rv: RValue)
      requires Valid() && data == 0
      modifies this`data, buf
      ensures match Parsed(text)
              case Some(v) => Denotes(buf[..], rv, v, 0, buf.Length)
              case None => rv == Error
    {
      hide From, ValueOf, Denotes, Spaces;
      ParsedUnfold(text);
      WsSkip();
      ghost var i := data;
      rv := DecodeValue(0);
      ghost var end := data;
      WsSkip();
      Ahead(0);
      if rv != Error {
        if buf[data] != 0 {
          rv := Error;
        } else {
          ghost var v := ValueOf(From(text, i), 0).value;
          DenotesFrame(buf[..], buf[..], rv, v, i, end, 0, buf.Length);
        }
      }
    }
  }

  // Parsing a copy of the input, with a NUL behind it.
  method Load(input: seq<byte>) returns (buf: array<byte>, rv: RValue)
    ensures fresh(buf) && buf.Length == |input| + 1
    ensures match Parsed(input + [0])
            case Some(v) => Denotes(buf[..], rv, v, 0, buf.Length)
            case None => rv == Error
  {
    buf := new byte[|input| + 1];
    for i := 0 to |input|
      invariant buf[..i] == input[..i]
    {
      buf[i] := input[i];
    }
    buf[|input|] := 0;
    assert buf[..] == input + [0];
    var p := new Parser(buf);
    rv := p.Parse();
  }

  // Reading ---------------------------------------------------------------------

  // The value that a path of positions leads to.
  function Reached(v: Value, path: seq<nat>): Option<Value> {
    if path == [] then Some(v)
    else if v.List? && path[0] < |v.items| then Reached(v.items[path[0]], path[1..])
    else if v.Object? && path[0] < |v.members| then Reached(v.members[path[0]].value, path[1..])
    else None
  }

  // s() on the value that a path leads to: the string is unescaped in place. All values
  // still read as before, and the string found is the one that was parsed.
  method ReadString(buf: array<byte>, rv: RValue, path: seq<nat>, ghost v: Value, ghost lo: nat, ghost hi: nat)
    returns (after: RValue, found: bool, start: nat, end: nat)
    requires Denotes(buf[..], rv, v, lo, hi)
    modifies buf
    ensures Denotes(buf[..], after, v, lo, hi)
    ensures buf[..lo] == old(buf[..lo]) && buf[hi..] == old(buf[hi..])
    ensures found <==> Reached(v, path).Some? && Reached(v, path).value.Str?
    ensures found ==> 0 < start <= end <= buf.Length && buf[start - 1] == 0
                      && buf[start..end] == Reached(v, path).value.bytes
    ensures !found ==> after == rv && buf[..] == old(buf[..])
    decreases |path|, 1
  {
    hide Unescaped, ItemsAt, MembersAt, Denotes, StringAt, KeyAt;
    after, found, start, end := rv, false, 0, 0;
    ghost var was := buf[..];
    if path == [] {
      KindsAgree(buf[..], rv, v, lo, hi);
      if rv.Str? {
        IsString(buf[..], rv, v.bytes, lo, hi);
        end := Unescape(buf, rv.start, rv.end);
        StringRead(was, buf[..], rv.start, rv.end, end, lo, hi);
        start, found, after := rv.start, true, RValue.Str(rv.start, end);
        IsRead(buf[..], after, v, lo, hi);
      }
    } else if rv.List? {
      after, found, start, end := ReadItem(buf, rv, path, v, lo, hi);
    } else if rv.Object? {
      after, found, start, end := ReadMember(buf, rv, path, v, lo, hi);
    } else {
      KindsAgree(was, rv, v, lo, hi);
    }
  }

  method ReadItem(buf: array<byte>, rv: RValue, path: seq<nat>, ghost v: Value, ghost lo: nat, ghost hi: nat)
    returns (after: RValue, found: bool, start: nat, end: nat)
    requires rv.List? && path != [] && Denotes(buf[..], rv, v, lo, hi)
    modifies buf
    ensures Denotes(buf[..], after, v, lo, hi)
    ensures buf[..lo] == old(buf[..lo]) && buf[hi..] == old(buf[hi..])
    ensures found <==> Reached(v, path).Some? && Reached(v, path).value.Str?
    ensures found ==> 0 < start <= end <= buf.Length && buf[start - 1] == 0
                      && buf[start..end] == Reached(v, path).value.bytes
    ensures !found ==> after == rv && buf[..] == old(buf[..])
    decreases |path|, 0
  {
    hide Unescaped, ItemsAt, MembersAt, Denotes, StringAt, KeyAt;
    after, found, start, end := rv, false, 0, 0;
    ghost var was := buf[..];
    ghost var cuts := ListParts(was, rv, v, lo, hi);
    var k := path[0];
    if k < |rv.items| {
      ItemPart(was, rv, v, cuts, lo, hi, k);
      var item;
      item, found, start, end := ReadString(buf, rv.items[k], path[1..], v.items[k], cuts[k], cuts[k + 1]);
      ItemReplaced(was, buf[..], rv, v, cuts, lo, hi, k, item);
      after := RValue.List(rv.items[k := item]);
    }
  }

  method ReadMember(buf: array<byte>, rv: RValue, path: seq<nat>, ghost v: Value, ghost lo: nat, ghost hi: nat)
    returns (after: RValue, found: bool, start: nat, end: nat)
    requires rv.Object? && path != [] && Denotes(buf[..], rv, v, lo, hi)
    modifies buf
    ensures Denotes(buf[..], after, v, lo, hi)
    ensures buf[..lo] == old(buf[..lo]) && buf[hi..] == old(buf[hi..])
    ensures found <==> Reached(v, path).Some? && Reached(v, path).value.Str?
    ensures found ==> 0 < start <= end <= buf.Length && buf[start - 1] == 0
                      && buf[start..end] == Reached(v, path).value.bytes
    ensures !found ==> after == rv && buf[..] == old(buf[..])
    decreases |path|, 0
  {
    hide Unescaped, ItemsAt, MembersAt, Denotes, StringAt, KeyAt;
    after, found, start, end := rv, false, 0, 0;
    ghost var was := buf[..];
    KindsAgree(was, rv, v, lo, hi);
    ghost var cuts := ObjectParts(was, rv, v, lo, hi);
    var k := path[0];
    if k < |rv.members| {
      MemberPart(was, rv, v, cuts, lo, hi, k);
      var m := rv.members[k];
      var value;
      value, found, start, end := ReadString(buf, m.value, path[1..], v.members[k].value, m.end + 1, cuts[k + 1]);
      MemberReplaced(was, buf[..], rv, v, cuts, lo, hi, k, value);
      after := RValue.Object(rv.members[k := m.(value := value)]);
    }
  }

  lemma KindsAgree(b: seq<byte>, rv: RValue, v: Value, lo: nat, hi: nat)
    requires Denotes(b, rv, v, lo, hi)
    ensures lo <= hi <= |b|
    ensures (rv.Str? <==> v.Str?) && (rv.List? <==> v.List?) && (rv.Object? <==> v.Object?)
  {
  }

  lemma IsRead(b: seq<byte>, rv: RValue, v: Value, lo: nat, hi: nat)
    requires rv.Str? && v.Str? && lo < rv.start && rv.end < hi <= |b| && StringAt(b, rv.start, rv.end)
    requires b[rv.start - 1] == 0 && b[rv.start..rv.end] == v.bytes
    ensures Denotes(b, rv, v, lo, hi)
  {
  }

  lemma StringRead(b: seq<byte>, c: seq<byte>, s: nat, e: nat, end: nat, lo: nat, hi: nat)
    requires lo < s <= end <= e < hi <= |b| == |c|
    requires c[..s - 1] == b[..s - 1] && c[e + 1..] == b[e + 1..]
    ensures c[..lo] == b[..lo] && c[hi..] == b[hi..]
  {
    assert c[..lo] == c[..s - 1][..lo];
    assert b[..lo] == b[..s - 1][..lo];
    assert c[hi..] == c[e + 1..][hi - e - 1..];
    assert b[hi..] == b[e + 1..][hi - e - 1..];
  }

  lemma ListParts(b: seq<byte>, rv: RValue, v: Value, lo: nat, hi: nat) returns (cuts: seq<nat>)
    requires Denotes(b, rv, v, lo, hi) && rv.List?
    ensures v.List? && lo <= hi <= |b| && ItemsAt(b, rv, v, cuts, lo, hi)
    ensures |rv.items| == |v.items| && |cuts| == |v.items| + 1
  {
    cuts :| ItemsAt(b, rv, v, cuts, lo, hi);
  }

  lemma ItemPart(b: seq<byte>, rv: RValue, v: Value, cuts: seq<nat>, lo: nat, hi: nat, k: nat)
    requires rv.List? && v.List? && ItemsAt(b, rv, v, cuts, lo, hi) && k < |v.items|
    ensures |rv.items| == |v.items| && |cuts| == |v.items| + 1
    ensures lo <= cuts[k] <= cuts[k + 1] <= hi && Denotes(b, rv.items[k], v.items[k], cuts[k], cuts[k + 1])
  {
    hide Denotes;
  }

  lemma ObjectParts(b: seq<byte>, rv: RValue, v: Value, lo: nat, hi: nat) returns (cuts: seq<nat>)
    requires Denotes(b, rv, v, lo, hi) && rv.Object?
    ensures v.Object? && lo <= hi <= |b| && MembersAt(b, rv, v, cuts, lo, hi)
    ensures |rv.members| == |v.members| && |cuts| == |v.members| + 1
  {
    cuts :| MembersAt(b, rv, v, cuts, lo, hi);
  }

  lemma MemberPart(b: seq<byte>, rv: RValue, v: Value, cuts: seq<nat>, lo: nat, hi: nat, k: nat)
    requires rv.Object? && v.Object? && MembersAt(b, rv, v, cuts, lo, hi) && k < |v.members|
    ensures |rv.members| == |v.members| && |cuts| == |v.members| + 1
    ensures lo <= cuts[k] < rv.members[k].start <= rv.members[k].end < cuts[k + 1] <= hi
    ensures KeyAt(b, rv.members[k], v.members[k].key, cuts[k], cuts[k + 1])
    ensures Denotes(b, rv.members[k].value, v.members[k].value, rv.members[k].end + 1, cuts[k + 1])
  {
    hide Denotes;
    assert KeyAt(b, rv.members[k], v.members[k].key, cuts[k], cuts[k + 1]);
  }

  // Only bytes between from and to have changed.
  ghost predicate ChangedWithin(b: seq<byte>, c: seq<byte>, from: nat, to: nat) {
    from <= to <= |b| == |c| && b[..from] == c[..from] && b[to..] == c[to..]
  }

  lemma Outside(b: seq<byte>, c: seq<byte>, from: nat, to: nat, s: nat, e: nat)
    requires ChangedWithin(b, c, from, to) && s <= e <= |b| && (e <= from || to <= s)
    ensures b[s..e] == c[s..e]
  {
    if e <= from {
      SameSlice(b, c, 0, from, s, e);
    } else {
      forall i | s <= i < e
        ensures b[i] == c[i]
      {
        assert b[i] == b[to..][i - to];
        assert c[i] == c[to..][i - to];
      }
    }
  }

  lemma StillOutside(b: seq<byte>, c: seq<byte>, from: nat, to: nat, lo: nat, hi: nat)
    requires ChangedWithin(b, c, from, to) && lo <= from && to <= hi <= |b|
    ensures c[..lo] == b[..lo] && c[hi..] == b[hi..]
  {
    Outside(b, c, from, to, 0, lo);
    Outside(b, c, from, to, hi, |b|);
    assert b[0..lo] == b[..lo] && c[0..lo] == c[..lo];
    assert b[hi..|b|] == b[hi..] && c[hi..|c|] == c[hi..];
  }

  lemma ItemReplaced(b: seq<byte>, c: seq<byte>, rv: RValue, v: Value, cuts: seq<nat>, lo: nat, hi: nat, k: nat, item: RValue)
    requires rv.List? && v.List? && ItemsAt(b, rv, v, cuts, lo, hi) && hi <= |b| && k < |rv.items| == |v.items|
    requires |cuts| == |v.items| + 1 && ChangedWithin(b, c, cuts[k], cuts[k + 1])
    requires Denotes(c, item, v.items[k], cuts[k], cuts[k + 1])
    ensures Denotes(c, RValue.List(rv.items[k := item]), v, lo, hi)
    ensures c[..lo] == b[..lo] && c[hi..] == b[hi..]
  {
    hide Denotes, Cut;
    ItemPart(b, rv, v, cuts, lo, hi, k);
    StillOutside(b, c, cuts[k], cuts[k + 1], lo, hi);
    CutOrder(cuts, |v.items|, lo, hi, lo, hi);
    var items := rv.items[k := item];
    forall i | 0 <= i < |v.items|
      ensures Denotes(c, items[i], v.items[i], cuts[i], cuts[i + 1])
    {
      if i != k {
        ItemPart(b, rv, v, cuts, lo, hi, i);
        Outside(b, c, cuts[k], cuts[k + 1], cuts[i], cuts[i + 1]);
        DenotesFrame(b, c, rv.items[i], v.items[i], cuts[i], cuts[i + 1], cuts[i], cuts[i + 1]);
      }
    }
    ListWhole(c, items, v, cuts, lo, hi);
  }

  lemma ListWhole(c: seq<byte>, items: seq<RValue>, v: Value, cuts: seq<nat>, lo: nat, hi: nat)
    requires v.List? && |items| == |v.items| && Cut(cuts, |v.items|, lo, hi) && lo <= hi <= |c|
    requires forall i :: 0 <= i < |v.items| ==> Denotes(c, items[i], v.items[i], cuts[i], cuts[i + 1])
    ensures Denotes(c, RValue.List(items), v, lo, hi)
  {
    assert ItemsAt(c, RValue.List(items), v, cuts, lo, hi) by { hide Denotes; }
  }

  lemma KeySame(b: seq<byte>, c: seq<byte>, m: RMember, key: seq<byte>, lo: nat, hi: nat)
    requires KeyAt(b, m, key, lo, hi) && |b| == |c| && b[m.start - 1..m.end + 1] == c[m.start - 1..m.end + 1]
    ensures KeyAt(c, m, key, lo, hi)
  {
    SameSlice(b, c, m.start - 1, m.end + 1, m.start, m.end);
    SameByte(b, c, m.start - 1, m.end + 1, m.start - 1);
    SameByte(b, c, m.start - 1, m.end + 1, m.end);
  }

  // A member whose stretch has not changed.
  lemma MemberKept(b: seq<byte>, c: seq<byte>, m: RMember, kv: Member, lo: nat, hi: nat)
    requires KeyAt(b, m, kv.key, lo, hi) && Denotes(b, m.value, kv.value, m.end + 1, hi)
    requires lo <= hi <= |b| == |c| && b[lo..hi] == c[lo..hi]
    ensures KeyAt(c, m, kv.key, lo, hi) && Denotes(c, m.value, kv.value, m.end + 1, hi)
  {
    hide Denotes;
    KeyFrame(b, c, m, kv.key, lo, hi, lo, hi);
    SameSlice(b, c, lo, hi, m.end + 1, hi);
    DenotesFrame(b, c, m.value, kv.value, m.end + 1, hi, m.end + 1, hi);
  }

  lemma MemberReplaced(b: seq<byte>, c: seq<byte>, rv: RValue, v: Value, cuts: seq<nat>, lo: nat, hi: nat, k: nat, value: RValue)
    requires rv.Object? && v.Object? && MembersAt(b, rv, v, cuts, lo, hi) && hi <= |b| && k < |rv.members| == |v.members|
    requires |cuts| == |v.members| + 1 && ChangedWithin(b, c, rv.members[k].end + 1, cuts[k + 1])
    requires Denotes(c, value, v.members[k].value, rv.members[k].end + 1, cuts[k + 1])
    ensures Denotes(c, RValue.Object(rv.members[k := rv.members[k].(value := value)]), v, lo, hi)
    ensures c[..lo] == b[..lo] && c[hi..] == b[hi..]
  {
    hide Denotes, Cut, KeyAt;
    MemberPart(b, rv, v, cuts, lo, hi, k);
    var m := rv.members[k];
    StillOutside(b, c, m.end + 1, cuts[k + 1], lo, hi);
    CutOrder(cuts, |v.members|, lo, hi, lo, hi);
    var members := rv.members[k := m.(value := value)];
    forall i | 0 <= i < |v.members|
      ensures KeyAt(c, members[i], v.members[i].key, cuts[i], cuts[i + 1])
      ensures Denotes(c, members[i].value, v.members[i].value, members[i].end + 1, cuts[i + 1])
    {
      MemberPart(b, rv, v, cuts, lo, hi, i);
      if i == k {
        Outside(b, c, m.end + 1, cuts[k + 1], m.start - 1, m.end + 1);
        KeySame(b, c, m, v.members[k].key, cuts[k], cuts[k + 1]);
        KeyOnly(c, m, members[k], v.members[k].key, cuts[k], cuts[k + 1]);
      } else {
        Outside(b, c, m.end + 1, cuts[k + 1], cuts[i], cuts[i + 1]);
        MemberKept(b, c, rv.members[i], v.members[i], cuts[i], cuts[i + 1]);
      }
    }
    ObjectWhole(c, members, v, cuts, lo, hi);
  }

  lemma KeyOnly(c: seq<byte>, m: RMember, n: RMember, key: seq<byte>, lo: nat, hi: nat)
    requires KeyAt(c, m, key, lo, hi) && m.start == n.start && m.end == n.end
    ensures KeyAt(c, n, key, lo, hi)
  {
  }

  lemma ObjectWhole(c: seq<byte>, members: seq<RMember>, v: Value, cuts: seq<nat>, lo: nat, hi: nat)
    requires v.Object? && |members| == |v.members| && Cut(cuts, |v.members|, lo, hi) && lo <= hi <= |c|
    requires forall i :: 0 <= i < |v.members| ==> KeyAt(c, members[i], v.members[i].key, cuts[i], cuts[i + 1])
    requires forall i :: 0 <= i < |v.members| ==>
               Denotes(c, members[i].value, v.members[i].value, members[i].end + 1, cuts[i + 1])
    ensures Denotes(c, RValue.Object(members), v, lo, hi)
  {
    assert MembersAt(c, RValue.Object(members), v, cuts, lo, hi) by { hide Denotes; }
  }

  lemma ParsedUnfold(text: seq<byte>)
    ensures Parsed(text) ==
            var i := Spaces(From(text, 0));
            match ValueOf(From(text, i), 0)
            case Bad => None
            case Ok(v, n) =>
              var j := i + n + Spaces(From(text, i + n));
              if Peek(From(text, j), 0) == 0 then Some(v) else None
  {
    hide ValueOf, Spaces, From;
    FromStart(text);
    var i := Spaces(text);
    Skipped(text, 0, 0);
    Skipped(text, 0, i);
    var r := ValueOf(text[i..], 0);
    if r.Ok? {
      ValueLen(text[i..], 0);
      Skipped(text, 0, i + r.len);
    }
  }

  lemma FromStart(text: seq<byte>)
    ensures From(text, 0) == text
  {
  }

  lemma ValueLen(s: seq<byte>, depth: nat)
    ensures ValueOf(s, depth).Ok? ==> 0 < ValueOf(s, depth).len <= |s|
  {
  }

  // Bytes and white space further on, seen from at and from the place itself.
  lemma Skipped(text: seq<byte>, at: nat, n: nat)
    requires at <= |text| && n <= |From(text, at)|
    ensures |From(text, at)| == |text| - at && From(text, at)[n..] == From(text, at + n)
    ensures var k := Spaces(From(text, at + n));
            n + k <= |text| - at && Peek(From(text, at), n + k) == Peek(From(text, at + n + k), 0)
  {
    hide Spaces;
    assert text[at..][n..] == text[at + n..];
    var k := Spaces(From(text, at + n));
    SpacesWithin(From(text, at + n));
  }

  lemma SpacesWithin(s: seq<byte>)
    ensures Spaces(s) <= |s|
  {
  }

  ghost function ValueAt(text: seq<byte>, at: nat, depth: nat): Result<Value> {
    var c := Peek(From(text, at), 0);
    if Is(c, '[') then ListOf(From(text, at), depth + 1)
    else if Is(c, '{') then ObjectOf(From(text, at), depth + 1)
    else if c == QUOTE then
      match StringOf(From(text, at)) case Ok(bytes, n) => Ok(Value.Str(bytes), n) case Bad => Bad
    else if Is(c, 't') then Word(From(text, at), "true", Value.True)
    else if Is(c, 'f') then Word(From(text, at), "false", Value.False)
    else if Is(c, 'n') then Word(From(text, at), "null", Value.Null)
    else
      match NumberLen(From(text, at), Minus)
      case None => Bad
      case Some(n) => Ok(Value.Number(From(text, at)[..n]), n)
  }

  lemma ValueUnfold(text: seq<byte>, at: nat, depth: nat)
    ensures ValueOf(From(text, at), depth) == ValueAt(text, at, depth)
  {
  }

  lemma WordLen(s: seq<byte>, word: string, v: Value)
    ensures Word(s, word, v).Ok? ==> Word(s, word, v).value == v && Word(s, word, v).len == |word|
  {
  }

  lemma SameStretch(text: seq<byte>, b: seq<byte>, s: nat, e: nat)
    requires s <= e <= |text| == |b| && b[s..] == text[s..]
    ensures From(text, s)[..e - s] == b[s..e]
  {
    assert text[s..][..e - s] == text[s..e];
    assert b[s..][..e - s] == b[s..e];
  }

  lemma KeepsBefore(a: seq<byte>, b: seq<byte>, c: seq<byte>, first: nat, p: nat)
    requires first <= p <= |a| == |b| == |c| && a[..first] == b[..first] && b[..p] == c[..p]
    ensures a[..first] == c[..first]
  {
    assert b[..first] == b[..p][..first];
    assert c[..first] == c[..p][..first];
  }

  // Lists --------------------------------------------------------------------

  lemma PrependNothing<T>(r: Result<seq<T>>)
    ensures Prepended([], 0, r) == r
  {
    if r.Ok? {
      assert [] + r.value == r.value;
    }
  }

  lemma PrependTwice<T>(vs: seq<T>, v: T, j: nat, k: nat, r: Result<seq<T>>)
    ensures Prepended(vs, j, Prepended([v], k, r)) == Prepended(vs + [v], j + k, r)
  {
    if r.Ok? {
      assert vs + ([v] + r.value) == vs + [v] + r.value;
    }
  }

  ghost function ListFrom(text: seq<byte>, at: nat, depth: nat): Result<Value> {
    if depth > MAX_DEPTH then Bad
    else
      var q := at + 1 + Spaces(From(text, at + 1));
      if Is(Peek(From(text, q), 0), ']') then Ok(Value.List([]), q + 1 - at)
      else
        match Items(From(text, q), depth)
        case Ok(vs, n) => Ok(Value.List(vs), q - at + n)
        case Bad => Bad
  }

  lemma ListUnfold(text: seq<byte>, at: nat, depth: nat)
    requires at < |text| && Is(text[at], '[')
    ensures ListOf(From(text, at), depth) == ListFrom(text, at, depth)
  {
    hide Items, Spaces, MemberOf, ValueOf, Members, ObjectOf, StringOf;
    Skipped(text, at, 1);
    var k := Spaces(From(text, at + 1));
    assert text[at..][1 + k..] == text[at + 1 + k..];
  }

  ghost function ItemsFrom(text: seq<byte>, p: nat, depth: nat): Result<seq<Value>> {
    match ValueOf(From(text, p), depth + 1)
    case Bad => Bad
    case Ok(v, n) =>
      var q := p + n + Spaces(From(text, p + n));
      var c := Peek(From(text, q), 0);
      if Is(c, ']') then Ok([v], q + 1 - p)
      else if Is(c, ',') then
        var j := q + 1 + Spaces(From(text, q + 1));
        Prepended([v], j - p, Items(From(text, j), depth))
      else Bad
  }

  lemma ItemsUnfold(text: seq<byte>, p: nat, depth: nat)
    requires p <= |text|
    ensures Items(From(text, p), depth) == ItemsFrom(text, p, depth)
  {
    hide ValueOf, Spaces, From, Items;
    var s := From(text, p);
    ItemsOnce(s, depth);
    match ValueOf(s, depth + 1)
    case Bad =>
    case Ok(v, n) =>
      Skipped(text, p, n);
      var k := Spaces(From(text, p + n));
      if Is(Peek(s, n + k), ',') {
        Skipped(text, p, n + k + 1);
        var m := Spaces(From(text, p + n + k + 1));
        Skipped(text, p, n + k + 1 + m);
      }
  }

  // One turn of the loop over the items.
  lemma ItemsTurn(text: seq<byte>, first: nat, p: nat, depth: nat, vs: seq<Value>)
    requires first <= p <= |text|
    requires Items(From(text, first), depth) == Prepended(vs, p - first, Items(From(text, p), depth))
    ensures match ValueOf(From(text, p), depth + 1)
            case Bad => Items(From(text, first), depth) == Bad
            case Ok(v, n) =>
              var q := p + n + Spaces(From(text, p + n));
              var c := Peek(From(text, q), 0);
              var j := q + 1 + Spaces(From(text, q + 1));
              Items(From(text, first), depth) ==
              if Is(c, ']') then Ok(vs + [v], q + 1 - first)
              else if Is(c, ',') then Prepended(vs + [v], j - first, Items(From(text, j), depth))
              else Bad
  {
    hide From, Spaces, Items, ValueOf;
    ItemsUnfold(text, p, depth);
    match ValueOf(From(text, p), depth + 1)
    case Bad =>
    case Ok(v, n) =>
      var q := p + n + Spaces(From(text, p + n));
      var j := q + 1 + Spaces(From(text, q + 1));
      PrependTwice(vs, v, p - first, j - p, Items(From(text, j), depth));
  }

  lemma EmptyItems(b: seq<byte>, lo: nat, hi: nat)
    requires lo <= hi <= |b|
    ensures ItemsAt(b, RValue.List([]), Value.List([]), [lo], lo, hi)
  {
  }

  lemma EmptyList(b: seq<byte>, lo: nat, hi: nat)
    requires lo <= hi <= |b|
    ensures Denotes(b, RValue.List([]), Value.List([]), lo, hi)
  {
    EmptyItems(b, lo, hi);
  }

  lemma ItemsDone(b: seq<byte>, items: seq<RValue>, vs: seq<Value>, cuts: seq<nat>, lo: nat, hi: nat)
    requires ItemsAt(b, RValue.List(items), Value.List(vs), cuts, lo, hi) && lo <= hi <= |b|
    ensures Denotes(b, RValue.List(items), Value.List(vs), lo, hi)
  {
    hide ItemsAt;
  }

  lemma ItemsWiden(b: seq<byte>, items: seq<RValue>, vs: seq<Value>, cuts: seq<nat>, lo: nat, hi: nat, hi': nat)
    requires ItemsAt(b, RValue.List(items), Value.List(vs), cuts, lo, hi) && hi <= hi'
    ensures ItemsAt(b, RValue.List(items), Value.List(vs), cuts, lo, hi')
  {
    hide Denotes;
  }

  // One more item, parsed behind the others.
  lemma ItemAdded(b: seq<byte>, c: seq<byte>, items: seq<RValue>, vs: seq<Value>, cuts: seq<nat>, lo: nat, p: nat,
                  rv: RValue, v: Value, hi: nat)
    requires ItemsAt(b, RValue.List(items), Value.List(vs), cuts, lo, p)
    requires p <= |b| == |c| && b[..p] == c[..p] && Denotes(c, rv, v, p, hi)
    ensures ItemsAt(c, RValue.List(items + [rv]), Value.List(vs + [v]), cuts + [hi], lo, hi)
  {
    hide Denotes;
    var n := |vs|;
    assert lo <= p by { CutOrder(cuts, n, lo, p, lo, p); }
    SameSlice(b, c, 0, p, lo, p);
    ItemsFrame(b, c, RValue.List(items), Value.List(vs), cuts, lo, p, lo, p);
    DenotesBounds(c, rv, v, p, hi);
    DenotesFrame(c, c, rv, v, p, hi, cuts[n], hi);
    var next := cuts + [hi];
    assert forall i :: 0 <= i <= n ==> next[i] == cuts[i];
    forall i | 0 <= i < n + 1
      ensures Denotes(c, (items + [rv])[i], (vs + [v])[i], next[i], next[i + 1])
    {
      if i < n {
        assert Denotes(c, RValue.List(items).items[i], Value.List(vs).items[i], cuts[i], cuts[i + 1]);
      }
    }
  }

  lemma DenotesBounds(b: seq<byte>, rv: RValue, v: Value, lo: nat, hi: nat)
    requires Denotes(b, rv, v, lo, hi)
    ensures lo <= hi <= |b|
  {
  }

  // Objects ------------------------------------------------------------------

  ghost predicate MemberAt(b: seq<byte>, m: RMember, kv: Member, lo: nat, hi: nat) {
    KeyAt(b, m, kv.key, lo, hi) && Denotes(b, m.value, kv.value, m.end + 1, hi)
  }

  lemma IsString(b: seq<byte>, t: RValue, key: seq<byte>, lo: nat, hi: nat)
    requires Denotes(b, t, Value.Str(key), lo, hi)
    ensures t.Str? && lo < t.start && t.end < hi <= |b| && StringAt(b, t.start, t.end) && Content(b, t.start, t.end) == key
  {
  }

  // After unescaping a key behind the cursor.
  lemma KeyStored(text: seq<byte>, was: seq<byte>, b: seq<byte>, c: seq<byte>, s: nat, e: nat, end: nat, key: seq<byte>,
                  lo: nat, p: nat, data: nat)
    requires lo < s <= end <= e < p <= data < |text| && |was| == |b| == |c| == |text|
    requires b[..lo] == was[..lo] && c[..s - 1] == b[..s - 1] && c[e + 1..] == b[e + 1..] && b[data..] == text[data..]
    requires c[s - 1] == 0 && c[end] == 0 && c[s..end] == key
    ensures c[..lo] == was[..lo] && c[data..] == text[data..]
    ensures KeyAt(c, RMember(s, end, Error), key, lo, data)
  {
    assert c[..s - 1][..lo] == c[..lo];
    assert b[..s - 1][..lo] == b[..lo];
    assert c[e + 1..][data - e - 1..] == c[data..];
    assert b[e + 1..][data - e - 1..] == b[data..];
  }

  lemma MemberStored(b: seq<byte>, c: seq<byte>, m: RMember, key: seq<byte>, v: Value, lo: nat, p: nat, j: nat, hi: nat)
    requires KeyAt(b, RMember(m.start, m.end, Error), key, lo, p) && p <= j <= hi <= |b| == |c|
    requires b[..j] == c[..j] && Denotes(c, m.value, v, j, hi)
    ensures MemberAt(c, m, Member(key, v), lo, hi)
  {
    hide Denotes;
    SameSlice(b, c, 0, j, m.start, m.end);
    SameByte(b, c, 0, j, m.start - 1);
    SameByte(b, c, 0, j, m.end);
    DenotesFrame(c, c, m.value, v, j, hi, m.end + 1, hi);
  }

  ghost function ObjectFrom(text: seq<byte>, at: nat, depth: nat): Result<Value> {
    if depth > MAX_DEPTH then Bad
    else
      var q := at + 1 + Spaces(From(text, at + 1));
      if Is(Peek(From(text, q), 0), '}') then Ok(Value.Object([]), q + 1 - at)
      else
        match Members(From(text, q), depth)
        case Ok(ms, n) => Ok(Value.Object(ms), q - at + n)
        case Bad => Bad
  }

  lemma ObjectUnfold(text: seq<byte>, at: nat, depth: nat)
    requires at < |text| && Is(text[at], '{')
    ensures ObjectOf(From(text, at), depth) == ObjectFrom(text, at, depth)
  {
    hide Members, Spaces, MemberOf, ValueOf, Items, ListOf, StringOf;
    Skipped(text, at, 1);
    var k := Spaces(From(text, at + 1));
    assert text[at..][1 + k..] == text[at + 1 + k..];
  }

  ghost function KeyFrom(text: seq<byte>, p: nat): Result<seq<byte>> {
    match StringOf(From(text, p))
    case Bad => Bad
    case Ok(key, n) =>
      var q := p + n + Spaces(From(text, p + n));
      if Is(Peek(From(text, q), 0), ':') then Ok(key, q + 1 - p) else Bad
  }

  ghost function MemberFrom(text: seq<byte>, p: nat, depth: nat): Result<Member> {
    match KeyFrom(text, p)
    case Bad => Bad
    case Ok(key, n) =>
      var j := p + n + Spaces(From(text, p + n));
      match ValueOf(From(text, j), depth + 1)
      case Bad => Bad
      case Ok(v, m) => Ok(Member(key, v), j - p + m)
  }

  lemma MemberUnfold(text: seq<byte>, p: nat, depth: nat)
    requires p <= |text|
    ensures MemberOf(From(text, p), depth) == MemberFrom(text, p, depth)
  {
    hide ValueOf, StringOf, Spaces, From;
    var s := From(text, p);
    match StringOf(s)
    case Bad =>
    case Ok(key, n) =>
      StringOfLen(s);
      Skipped(text, p, n);
      var k := Spaces(From(text, p + n));
      if Is(Peek(s, n + k), ':') {
        Skipped(text, p, n + k + 1);
        var m := Spaces(From(text, p + n + k + 1));
        Skipped(text, p, n + k + 1 + m);
      }
  }

  lemma StringOfLen(s: seq<byte>)
    ensures StringOf(s).Ok? ==> 0 < StringOf(s).len <= |s|
  {
  }

  ghost function MembersFrom(text: seq<byte>, p: nat, depth: nat): Result<seq<Member>> {
    match MemberOf(From(text, p), depth)
    case Bad => Bad
    case Ok(kv, n) =>
      var q := p + n + Spaces(From(text, p + n));
      var c := Peek(From(text, q), 0);
      if Is(c, '}') then Ok([kv], q + 1 - p)
      else if Is(c, ',') then
        var j := q + 1 + Spaces(From(text, q + 1));
        Prepended([kv], j - p, Members(From(text, j), depth))
      else Bad
  }

  lemma MembersUnfold(text: seq<byte>, p: nat, depth: nat)
    requires p <= |text|
    ensures Members(From(text, p), depth) == MembersFrom(text, p, depth)
  {
    hide MemberOf, Spaces, From, Members;
    var s := From(text, p);
    MembersOnce(s, depth);
    match MemberOf(s, depth)
    case Bad =>
    case Ok(kv, n) =>
      Skipped(text, p, n);
      var k := Spaces(From(text, p + n));
      if Is(Peek(s, n + k), ',') {
        Skipped(text, p, n + k + 1);
        var m := Spaces(From(text, p + n + k + 1));
        Skipped(text, p, n + k + 1 + m);
      }
  }

  // One turn of the loop over the members.
  lemma MembersTurn(text: seq<byte>, first: nat, p: nat, depth: nat, vs: seq<Member>)
    requires first <= p <= |text|
    requires Members(From(text, first), depth) == Prepended(vs, p - first, Members(From(text, p), depth))
    ensures match MemberOf(From(text, p), depth)
            case Bad => Members(From(text, first), depth) == Bad
            case Ok(kv, n) =>
              var q := p + n + Spaces(From(text, p + n));
              var c := Peek(From(text, q), 0);
              var j := q + 1 + Spaces(From(text, q + 1));
              Members(From(text, first), depth) ==
              if Is(c, '}') then Ok(vs + [kv], q + 1 - first)
              else if Is(c, ',') then Prepended(vs + [kv], j - first, Members(From(text, j), depth))
              else Bad
  {
    hide From, Spaces, Members, MemberOf;
    MembersUnfold(text, p, depth);
    match MemberOf(From(text, p), depth)
    case Bad =>
    case Ok(kv, n) =>
      var q := p + n + Spaces(From(text, p + n));
      var j := q + 1 + Spaces(From(text, q + 1));
      PrependTwice(vs, kv, p - first, j - p, Members(From(text, j), depth));
  }

  lemma EmptyMembers(b: seq<byte>, lo: nat, hi: nat)
    requires lo <= hi <= |b|
    ensures MembersAt(b, RValue.Object([]), Value.Object([]), [lo], lo, hi)
  {
  }

  lemma EmptyObject(b: seq<byte>, lo: nat, hi: nat)
    requires lo <= hi <= |b|
    ensures Denotes(b, RValue.Object([]), Value.Object([]), lo, hi)
  {
    EmptyMembers(b, lo, hi);
  }

  lemma MembersDone(b: seq<byte>, members: seq<RMember>, ms: seq<Member>, cuts: seq<nat>, lo: nat, hi: nat)
    requires MembersAt(b, RValue.Object(members), Value.Object(ms), cuts, lo, hi) && lo <= hi <= |b|
    ensures Denotes(b, RValue.Object(members), Value.Object(ms), lo, hi)
  {
    hide MembersAt;
  }

  lemma MembersWiden(b: seq<byte>, members: seq<RMember>, ms: seq<Member>, cuts: seq<nat>, lo: nat, hi: nat, hi': nat)
    requires MembersAt(b, RValue.Object(members), Value.Object(ms), cuts, lo, hi) && hi <= hi'
    ensures MembersAt(b, RValue.Object(members), Value.Object(ms), cuts, lo, hi')
  {
    hide Denotes, KeyAt;
  }

  // One more member, parsed behind the others.
  lemma MemberAdded(b: seq<byte>, c: seq<byte>, members: seq<RMember>, ms: seq<Member>, cuts: seq<nat>, lo: nat, p: nat,
                    m: RMember, kv: Member, hi: nat)
    requires MembersAt(b, RValue.Object(members), Value.Object(ms), cuts, lo, p)
    requires p <= |b| == |c| && b[..p] == c[..p] && MemberAt(c, m, kv, p, hi)
    ensures MembersAt(c, RValue.Object(members + [m]), Value.Object(ms + [kv]), cuts + [hi], lo, hi)
  {
    hide Denotes, KeyAt, MembersAt;
    assert lo <= p by { MembersOrder(b, members, ms, cuts, lo, p); }
    SameSlice(b, c, 0, p, lo, p);
    MembersFrame(b, c, RValue.Object(members), Value.Object(ms), cuts, lo, p, lo, p);
    MemberBehind(c, members, ms, cuts, lo, p, m, kv, hi);
  }

  lemma MembersOrder(b: seq<byte>, members: seq<RMember>, ms: seq<Member>, cuts: seq<nat>, lo: nat, p: nat)
    requires MembersAt(b, RValue.Object(members), Value.Object(ms), cuts, lo, p)
    ensures lo <= p
  {
    hide Denotes, KeyAt;
    CutOrder(cuts, |ms|, lo, p, lo, p);
  }

  lemma MemberBehind(c: seq<byte>, members: seq<RMember>, ms: seq<Member>, cuts: seq<nat>, lo: nat, p: nat,
                     m: RMember, kv: Member, hi: nat)
    requires p <= |c| && MembersAt(c, RValue.Object(members), Value.Object(ms), cuts, lo, p) && MemberAt(c, m, kv, p, hi)
    ensures MembersAt(c, RValue.Object(members + [m]), Value.Object(ms + [kv]), cuts + [hi], lo, hi)
  {
    hide Denotes, KeyAt;
    var n := |ms|;
    var rv, v := RValue.Object(members), Value.Object(ms);
    KeyFurther(c, m, kv.key, p, hi, p);
    var next := cuts + [hi];
    assert forall i :: 0 <= i <= n ==> next[i] == cuts[i];
    forall i | 0 <= i < n + 1
      ensures KeyAt(c, (members + [m])[i], (ms + [kv])[i].key, next[i], next[i + 1])
      ensures Denotes(c, (members + [m])[i].value, (ms + [kv])[i].value, (members + [m])[i].end + 1, next[i + 1])
    {
      if i < n {
        assert KeyAt(c, rv.members[i], v.members[i].key, cuts[i], cuts[i + 1]);
      } else {
        KeyFurther(c, m, kv.key, p, hi, next[n]);
      }
    }
  }

  lemma KeyFurther(b: seq<byte>, m: RMember, key: seq<byte>, lo: nat, hi: nat, lo': nat)
    requires KeyAt(b, m, key, lo, hi) && lo' <= lo
    ensures KeyAt(b, m, key, lo', hi) && lo < hi <= |b|
  {
  }

  // States in which a digit changes nothing.
  ghost predicate Stuck(st: NumState) {
    st == Digits || st == DigitsAfterPoints || st == DigitsAfterE || st == Invalid
  }

  lemma SkipIsStuck(st: NumState, c: byte)
    requires IsDigit(c) && c != '0' as int
    ensures Stuck(NumStep(st, c))
  {
  }

  lemma NumberNext(text: seq<byte>, at: nat, st: NumState)
    requires at < |text|
    ensures NumberLen(From(text, at), st) ==
            if !IsNumberByte(text[at]) then (if IsFinal(st) then Some(0) else None)
            else if NumStep(st, text[at]) == Invalid then None
            else Further(1, NumberLen(From(text, at + 1), NumStep(st, text[at])))
    ensures Stuck(st) && IsDigit(text[at]) ==> NumStep(st, text[at]) == st
  {
    assert text[at..][1..] == text[at + 1..];
  }

  lemma WordMeans(text: seq<byte>, at: nat, word: string, v: Value, k: nat)
    requires k <= |word| && at + k < |text| && forall i :: 0 <= i < k ==> text[at + i] == word[i] as int
    requires k < |word| ==> text[at + k] != word[k] as int
    ensures Word(From(text, at), word, v) == if k == |word| then Ok(v, k) else Bad
  {
    assert k < |word| && k < |text[at..]| ==> text[at..][k] == text[at + k];
    assert forall i :: 0 <= i < k ==> text[at..][i] == text[at + i];
  }

  lemma StringStored(b: seq<byte>, was: seq<byte>, text: seq<byte>, start: nat, end: nat, flag: byte)
    requires 0 < start <= end && end + 1 < |text| == |was| && was[start..] == text[start..]
    requires b == was[end := 0][start - 1 := flag]
    requires WellEscaped(text[start..end]) && (flag == 0 ==> Unescaped(text[start..end]) == text[start..end])
    ensures b[..start - 1] == was[..start - 1] && b[end + 1..] == text[end + 1..]
    ensures StringAt(b, start, end) && Content(b, start, end) == Unescaped(text[start..end])
  {
    assert was[start..end] == was[start..][..end - start];
    assert text[start..end] == text[start..][..end - start];
    assert b[start..end] == text[start..end];
    assert b[end + 1..] == was[start..][end + 1 - start..];
    assert text[end + 1..] == text[start..][end + 1 - start..];
  }

  function Further(k: nat, r: Option<nat>): Option<nat> {
    match r case None => None case Some(n) => Some(k + n)
  }

  lemma SpacesNext(text: seq<byte>, at: nat)
    requires at < |text|
    ensures Spaces(From(text, at)) == if IsSpace(text[at]) then 1 + Spaces(From(text, at + 1)) else 0
  {
    assert text[at..][1..] == text[at + 1..];
  }

  lemma StringPiece(text: seq<byte>, start: nat, at: nat, k: nat)
    requires start <= at && at + k < |text| && 0 < k == PieceLen(From(text, at))
    ensures StringLen(From(text, at)) == Further(k, StringLen(From(text, at + k)))
    ensures BACKSLASH in text[start..at + k] <==> BACKSLASH in text[start..at] || text[at] == BACKSLASH
  {
    PieceBytes(text[at..]);
    assert text[at..][k..] == text[at + k..];
    assert text[at..][..k] == text[at..at + k];
    assert text[start..at + k] == text[start..at] + text[at..at + k];
  }

  lemma StringStops(s: seq<byte>)
    requires PieceLen(s) == 0
    ensures StringLen(s) == if Peek(s, 0) == QUOTE then Some(0) else None
  {
  }

  lemma LengthFits(s: seq<byte>)
    ensures StringLen(s).Some? ==> StringLen(s).value < |s|
  {
  }

  lemma StringOpens(text: seq<byte>, at: nat)
    requires at < |text|
    ensures StringOf(From(text, at)) ==
            if text[at] != QUOTE then Bad
            else match StringLen(From(text, at + 1))
                 case None => Bad
                 case Some(n) => Ok(Unescaped(text[at + 1..at + 1 + n]), n + 2)
  {
    hide Unescaped, PieceLen, StringLen;
    LengthFits(text[at + 1..]);
    assert text[at..][1..] == text[at + 1..];
    if text[at] == QUOTE && StringLen(text[at + 1..]).Some? {
      var n := StringLen(text[at + 1..]).value;
      assert text[at..][1..1 + n] == text[at + 1..at + 1 + n];
    }
  }

  lemma StringFound(text: seq<byte>, start: nat, end: nat)
    requires start <= end < |text| && StringLen(From(text, start)) == Some(end - start)
    ensures WellEscaped(text[start..end])
    ensures Unescaped(text[start..end]) == Unescaped(From(text, start))
    ensures BACKSLASH !in text[start..end] ==> Unescaped(text[start..end]) == text[start..end]
  {
    StringLenMeans(text[start..]);
    assert text[start..][..end - start] == text[start..end];
    if BACKSLASH !in text[start..end] {
      PlainString(text[start..end]);
    }
  }

  // Only the first byte of a character can be a backslash that starts an escape.
  lemma PieceBytes(s: seq<byte>)
    requires PieceLen(s) > 0
    ensures s != [] && (BACKSLASH in s[..PieceLen(s)] <==> s[0] == BACKSLASH)
  {
    assert s[0] in s[..PieceLen(s)];
  }
}
