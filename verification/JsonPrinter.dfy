/** The JSON printer, and what parsing its output gives back. */
module JsonPrinter {
  import opened Common
  import opened JsonText

  datatype JMember = JMember(key: seq<byte>, value: Json)

  // A value tree whose numbers are integers.
  datatype Json =
    | Null | False | True
    | Signed(n: int)
    | Unsigned(u: nat)
    | Str(bytes: seq<byte>)
    | List(items: seq<Json>)
    | Object(members: seq<JMember>)

  // Printed text --------------------------------------------------------------

  function Decimal(n: nat): (r: seq<byte>)
    ensures r != []
  {
    if n < 10 then ['0' as int + n] else Decimal(n / 10) + ['0' as int + n % 10]
  }

  // std::to_string
  function IntText(n: int): seq<byte> {
    if n < 0 then ['-' as int] + Decimal(-n) else Decimal(n)
  }

  function StringText(s: seq<byte>): seq<byte> {
    [QUOTE] + Escaped(s) + [QUOTE]
  }

  function Ascii(s: string): (r: seq<byte>)
    requires forall i :: 0 <= i < |s| ==> s[i] as int < 256
    ensures |r| == |s| && forall i :: 0 <= i < |s| ==> r[i] == s[i] as int
  {
    seq(|s|, i requires 0 <= i < |s| => s[i] as int)
  }

  function Text(v: Json): seq<byte>
    decreases v, 2
  {
    match v
    case Null => Ascii("null")
    case False => Ascii("false")
    case True => Ascii("true")
    case Signed(n) => IntText(n)
    case Unsigned(n) => IntText(n)
    case Str(s) => StringText(s)
    case List(_) => ['[' as int] + ItemsText(v, 0) + [']' as int]
    case Object(_) => ['{' as int] + MembersText(v, 0) + ['}' as int]
  }

  function Comma(i: nat): seq<byte> {
    if i == 0 then [] else [',' as int]
  }

  // The items from the i-th on, each but the first with a comma before it.
  function ItemsText(v: Json, i: nat): seq<byte>
    requires v.List?
    decreases v, 1, |v.items| - i
  {
    if i >= |v.items| then [] else Comma(i) + Text(v.items[i]) + ItemsText(v, i + 1)
  }

  function MemberText(m: JMember): seq<byte>
    decreases m, 1
  {
    StringText(m.key) + [':' as int] + Text(m.value)
  }

  function MembersText(v: Json, i: nat): seq<byte>
    requires v.Object?
    decreases v, 1, |v.members| - i
  {
    if i >= |v.members| then [] else Comma(i) + MemberText(v.members[i]) + MembersText(v, i + 1)
  }

  // Printing ------------------------------------------------------------------

  method Escape(s: seq<byte>, out: seq<byte>) returns (r: seq<byte>)
    ensures r == out + Escaped(s)
  {
    r := out;
    for i := 0 to |s|
      invariant r + Escaped(s[i..]) == out + Escaped(s)
    {
      hide EscapeByte;
      assert s[i..][0] == s[i] && s[i..][1..] == s[i + 1..];
      assert r + (EscapeByte(s[i]) + Escaped(s[i + 1..])) == r + EscapeByte(s[i]) + Escaped(s[i + 1..]);
      var e := EscapeByte(s[i]);
      r := r + e;
    }
    assert s[|s|..] == [];
  }

  method DumpString(s: seq<byte>, out: seq<byte>) returns (r: seq<byte>)
    ensures r == out + StringText(s)
  {
    r := out + [QUOTE];
    r := Escape(s, r);
    r := r + [QUOTE];
    assert out + [QUOTE] + Escaped(s) + [QUOTE] == out + StringText(s);
  }

  method Dump(v: Json, out: seq<byte>) returns (r: seq<byte>)
    ensures r == out + Text(v)
    decreases v, 2
  {
    match v
    case Null => r := out + Ascii("null");
    case False => r := out + Ascii("false");
    case True => r := out + Ascii("true");
    case Signed(n) => r := out + IntText(n);
    case Unsigned(n) => r := out + IntText(n);
    case Str(s) => r := DumpString(s, out);
    case List(_) => r := DumpList(v, out);
    case Object(_) => r := DumpObject(v, out);
  }

  lemma CommaIs(i: nat)
    ensures Comma(i) == if i == 0 then [] else [',' as int]
  {
  }

  lemma ItemsTextStep(v: Json, i: nat)
    requires v.List?
    ensures i < |v.items| ==> ItemsText(v, i) == Comma(i) + Text(v.items[i]) + ItemsText(v, i + 1)
    ensures i >= |v.items| ==> ItemsText(v, i) == []
    ensures Text(v) == ['[' as int] + ItemsText(v, 0) + [']' as int]
  {
  }

  method DumpList(v: Json, out: seq<byte>) returns (r: seq<byte>)
    requires v.List?
    ensures r == out + Text(v)
    decreases v, 1
  {
    hide ItemsText, Text, Comma;
    r := out + ['[' as int];
    var first := true;
    for i := 0 to |v.items|
      invariant first <==> i == 0
      invariant r + ItemsText(v, i) == out + ['[' as int] + ItemsText(v, 0)
    {
      ghost var before := r;
      if !first {
        r := r + [',' as int];
      }
      first := false;
      CommaIs(i);
      ItemsTextStep(v, i);
      assert r == before + Comma(i);
      ghost var x := Text(v.items[i]);
      assert before + (Comma(i) + x + ItemsText(v, i + 1)) == before + Comma(i) + x + ItemsText(v, i + 1);
      r := Dump(v.items[i], r);
    }
    ItemsTextStep(v, |v.items|);
    assert r + [] == r;
    r := r + [']' as int];
    assert out + ['[' as int] + ItemsText(v, 0) + [']' as int] == out + Text(v);
  }

  lemma MembersTextStep(v: Json, i: nat)
    requires v.Object?
    ensures i < |v.members| ==> MembersText(v, i) == Comma(i) + MemberText(v.members[i]) + MembersText(v, i + 1)
    ensures i >= |v.members| ==> MembersText(v, i) == []
    ensures Text(v) == ['{' as int] + MembersText(v, 0) + ['}' as int]
  {
  }

  method DumpObject(v: Json, out: seq<byte>) returns (r: seq<byte>)
    requires v.Object?
    ensures r == out + Text(v)
    decreases v, 1
  {
    hide MembersText, Text, StringText, Comma;
    r := out + ['{' as int];
    var first := true;
    for i := 0 to |v.members|
      invariant first <==> i == 0
      invariant r + MembersText(v, i) == out + ['{' as int] + MembersText(v, 0)
    {
      ghost var before := r;
      if !first {
        r := r + [',' as int];
      }
      first := false;
      CommaIs(i);
      MembersTextStep(v, i);
      assert r == before + Comma(i);
      var m := v.members[i];
      assert before + (Comma(i) + MemberText(m) + MembersText(v, i + 1)) == before + Comma(i) + MemberText(m) + MembersText(v, i + 1);
      ghost var start := r;
      r := DumpString(m.key, r);
      r := r + [':' as int];
      r := Dump(m.value, r);
      assert r == start + MemberText(m);
    }
    MembersTextStep(v, |v.members|);
    assert r + [] == r;
    r := r + ['}' as int];
    assert out + ['{' as int] + MembersText(v, 0) + ['}' as int] == out + Text(v);
  }

  // What comes back -------------------------------------------------------------

  function Tree(v: Json): Value
    decreases v, 2
  {
    match v
    case Null => Value.Null
    case False => Value.False
    case True => Value.True
    case Signed(n) => Value.Number(IntText(n))
    case Unsigned(n) => Value.Number(IntText(n))
    case Str(s) => Value.Str(s)
    case List(_) => Value.List(Trees(v, 0))
    case Object(_) => Value.Object(MemberTrees(v, 0))
  }

  function Trees(v: Json, i: nat): seq<Value>
    requires v.List?
    decreases v, 1, |v.items| - i
  {
    if i >= |v.items| then [] else [Tree(v.items[i])] + Trees(v, i + 1)
  }

  function MemberTrees(v: Json, i: nat): seq<Member>
    requires v.Object?
    decreases v, 1, |v.members| - i
  {
    if i >= |v.members| then [] else [Member(v.members[i].key, Tree(v.members[i].value))] + MemberTrees(v, i + 1)
  }

  // The depth limit, item by item.
  predicate Fits(v: Json, depth: nat)
    decreases v, 2
  {
    match v
    case List(_) => depth + 1 <= MAX_DEPTH && ItemsFit(v, 0, depth + 2)
    case Object(_) => depth + 1 <= MAX_DEPTH && MembersFit(v, 0, depth + 2)
    case _ => true
  }

  predicate ItemsFit(v: Json, i: nat, depth: nat)
    requires v.List?
    decreases v, 1, |v.items| - i
  {
    i >= |v.items| || (Fits(v.items[i], depth) && ItemsFit(v, i + 1, depth))
  }

  predicate MembersFit(v: Json, i: nat, depth: nat)
    requires v.Object?
    decreases v, 1, |v.members| - i
  {
    i >= |v.members| || (Fits(v.members[i].value, depth) && MembersFit(v, i + 1, depth))
  }

  // A byte that can follow a value.
  predicate Delimited(rest: seq<byte>) {
    !IsNumberByte(Peek(rest, 0))
  }

  // Numbers ---------------------------------------------------------------------

  predicate AllDigits(ds: seq<byte>) {
    forall i :: 0 <= i < |ds| ==> IsDigit(ds[i])
  }

  lemma {:induction false} DecimalDigits(n: nat)
    ensures AllDigits(Decimal(n)) && (n > 0 ==> Decimal(n)[0] != '0' as int) && (n == 0 ==> Decimal(n) == ['0' as int])
    decreases n
  {
    if n >= 10 {
      DecimalDigits(n / 10);
    }
  }

  lemma {:induction false} DigitsAreRead(ds: seq<byte>, rest: seq<byte>)
    requires AllDigits(ds) && Delimited(rest)
    ensures NumberLen(ds + rest, Digits) == Some(|ds|)
    decreases |ds|
  {
    if ds == [] {
      assert ds + rest == rest;
    } else {
      DigitsAreRead(ds[1..], rest);
      assert (ds + rest)[1..] == ds[1..] + rest;
    }
  }

  lemma DecimalIsRead(n: nat, rest: seq<byte>, st: NumState)
    requires Delimited(rest) && (st == Minus || st == AfterMinus)
    ensures NumberLen(Decimal(n) + rest, st) == Some(|Decimal(n)|)
  {
    DecimalDigits(n);
    var ds := Decimal(n);
    var s := ds + rest;
    assert s[1..] == ds[1..] + rest;
    if n == 0 {
      assert s[1..] == rest;
    } else {
      DigitsAreRead(ds[1..], rest);
    }
  }

  lemma IntIsRead(n: int, rest: seq<byte>)
    requires Delimited(rest)
    ensures NumberLen(IntText(n) + rest, Minus) == Some(|IntText(n)|)
    ensures IntText(n) != [] && (IsDigit(IntText(n)[0]) || IntText(n)[0] == '-' as int)
  {
    hide Decimal;
    if n < 0 {
      var s := IntText(n) + rest;
      assert s[0] == '-' as int && s[1..] == Decimal(-n) + rest;
      DecimalIsRead(-n, rest, AfterMinus);
    } else {
      DecimalDigits(n);
      DecimalIsRead(n, rest, Minus);
    }
  }

  // The number that digits denote, and how a number text is read: with a minus as a
  // signed 64-bit integer (i), without one as an unsigned one (u); not if it is too large.
  function Nat(ds: seq<byte>): nat
    requires AllDigits(ds)
  {
    if ds == [] then 0
    else
      var d := ds[|ds| - 1];
      Nat(ds[..|ds| - 1]) * 10 + (d - '0' as int)
  }

  predicate InRange(v: Json) {
    (v.Signed? ==> -0x8000_0000_0000_0000 <= v.n < 0x8000_0000_0000_0000) && (v.Unsigned? ==> v.u < 0x1_0000_0000_0000_0000)
  }

  function IntValue(text: seq<byte>): Option<Json> {
    if text == [] then None
    else if Is(text[0], '-') && AllDigits(text[1..]) && |text| > 1 && InRange(Signed(-(Nat(text[1..]) as int))) then
      Some(Signed(-(Nat(text[1..]) as int)))
    else if AllDigits(text) && InRange(Unsigned(Nat(text))) then Some(Unsigned(Nat(text)))
    else None
  }

  lemma {:induction false} NatOfDecimal(n: nat)
    ensures AllDigits(Decimal(n)) && Nat(Decimal(n)) == n
    decreases n
  {
    DecimalDigits(n);
    if n < 10 {
      assert Decimal(n)[..0] == [];
    } else {
      NatOfDecimal(n / 10);
      assert Decimal(n)[..|Decimal(n)| - 1] == Decimal(n / 10);
    }
  }

  // Integers come back with their value; those that are not negative as unsigned.
  lemma IntComesBack(v: Json)
    requires (v.Signed? || v.Unsigned?) && InRange(v)
    ensures IntValue(Text(v)) == Some(if v.Signed? && v.n >= 0 then Unsigned(v.n) else v)
  {
    if v.Signed? && v.n < 0 {
      NatOfDecimal(-v.n);
      assert Text(v)[1..] == Decimal(-v.n);
    } else {
      var n := if v.Signed? then v.n else v.u;
      NatOfDecimal(n);
      assert IsDigit(Decimal(n)[0]);
    }
  }

  // Values ------------------------------------------------------------------------

  // No value begins with white space or a closing bracket.
  lemma TextStarts(v: Json)
    ensures Text(v) != [] && !IsSpace(Text(v)[0]) && !Is(Text(v)[0], ']')
  {
    match v
    case Signed(n) => IntIsRead(n, []);
    case Unsigned(n) => IntIsRead(n, []);
    case _ =>
  }

  lemma WordIsRead(word: string, v: Value, rest: seq<byte>)
    requires word != "" && forall i :: 0 <= i < |word| ==> word[i] as int < 256
    ensures Word(Ascii(word) + rest, word, v) == Ok(v, |word|)
    ensures Peek(Ascii(word) + rest, 0) == word[0] as int
  {
  }

  lemma StringIsRead(s: seq<byte>, rest: seq<byte>)
    ensures StringOf(StringText(s) + rest) == Ok(s, |StringText(s)|)
    ensures Peek(StringText(s) + rest, 0) == QUOTE
  {
    hide Unescaped, Escaped, StringLen;
    var t := StringText(s) + rest;
    var e := Escaped(s);
    EscapeRoundTrip(s);
    StringLenFinds(e, rest);
    assert t[1..] == e + [QUOTE] + rest;
    assert t[1..1 + |e|] == e;
  }

  // After an item: no white space, and then the next byte.
  lemma NoSpaces(s: seq<byte>)
    requires !IsSpace(Peek(s, 0))
    ensures Spaces(s) == 0
  {
  }

  lemma {:induction false} ValueRoundTrip(v: Json, depth: nat, rest: seq<byte>)
    requires Delimited(rest)
    ensures ValueOf(Text(v) + rest, depth) == if Fits(v, depth) then Ok(Tree(v), |Text(v)|) else Bad
    decreases v, 3
  {
    hide ListOf, ObjectOf, StringOf, Word, StringText;
    var s := Text(v) + rest;
    match v
    case Null => WordIsRead("null", Value.Null, rest);
    case False => WordIsRead("false", Value.False, rest);
    case True => WordIsRead("true", Value.True, rest);
    case Signed(n) =>
      IntIsRead(n, rest);
      assert s[..|IntText(n)|] == IntText(n);
    case Unsigned(n) =>
      IntIsRead(n, rest);
      assert s[..|IntText(n)|] == IntText(n);
    case Str(bytes) => StringIsRead(bytes, rest);
    case List(_) => ListRoundTrip(v, depth + 1, rest);
    case Object(_) => ObjectRoundTrip(v, depth + 1, rest);
  }

  lemma {:induction false} ListRoundTrip(v: Json, depth: nat, rest: seq<byte>)
    requires v.List?
    ensures ListOf(Text(v) + rest, depth) ==
            if depth <= MAX_DEPTH && ItemsFit(v, 0, depth + 1) then Ok(Tree(v), |Text(v)|) else Bad
    decreases v, 2
  {
    hide Items;
    var s := Text(v) + rest;
    var close := [']' as int] + rest;
    assert s[1..] == ItemsText(v, 0) + close;
    if v.items == [] {
      assert s[1..] == close;
      NoSpaces(s[1..]);
    } else {
      TextStarts(v.items[0]);
      assert ItemsText(v, 0) == ItemsAfterComma(v, 0);
      assert s[1] == Text(v.items[0])[0];
      NoSpaces(s[1..]);
      ItemsRoundTrip(v, 0, depth, rest);
    }
  }

  // The text from the i-th item on, without the comma before it.
  ghost function ItemsAfterComma(v: Json, i: nat): seq<byte>
    requires v.List? && i < |v.items|
  {
    Text(v.items[i]) + ItemsText(v, i + 1)
  }

  // What each of the functions over the items says about the i-th.
  lemma ItemsSteps(v: Json, i: nat, depth: nat, rest: seq<byte>)
    requires v.List? && i < |v.items|
    ensures Trees(v, i) == [Tree(v.items[i])] + Trees(v, i + 1)
    ensures ItemsFit(v, i, depth + 1) <==> Fits(v.items[i], depth + 1) && ItemsFit(v, i + 1, depth + 1)
    ensures i + 1 == |v.items| ==> Trees(v, i) == [Tree(v.items[i])] && ItemsAfterComma(v, i) == Text(v.items[i]) && (ItemsFit(v, i, depth + 1) <==> Fits(v.items[i], depth + 1))
    ensures ItemsAfterComma(v, i) == Text(v.items[i]) + ItemsText(v, i + 1)
    ensures var more := ItemsText(v, i + 1) + ([']' as int] + rest);
            && more != []
            && if i + 1 < |v.items|
               then more == [',' as int] + (ItemsAfterComma(v, i + 1) + ([']' as int] + rest))
               else more[0] == ']' as int
  {
    hide Text, MemberText, Tree, Fits;
  }

  // One item, and then a comma or the closing bracket.
  lemma {:induction false} ItemThenMore(v: Json, i: nat, depth: nat, rest: seq<byte>)
    requires v.List? && i < |v.items|
    ensures var s := ItemsAfterComma(v, i) + ([']' as int] + rest);
            var x := v.items[i];
            var n := |Text(x)|;
            && ValueOf(s, depth + 1) == (if Fits(x, depth + 1) then Ok(Tree(x), n) else Bad)
            && n < |s| && s[n..] == ItemsText(v, i + 1) + ([']' as int] + rest) && Spaces(s[n..]) == 0
    decreases v, 0
  {
    hide ValueOf, Text, MemberText, Fits, Tree, Trees, ItemsFit, ItemsAfterComma, ItemsText;
    var x := v.items[i];
    var more := ItemsText(v, i + 1) + ([']' as int] + rest);
    ItemsSteps(v, i, depth, rest);
    assert ItemsAfterComma(v, i) + ([']' as int] + rest) == Text(x) + more;
    ValueRoundTrip(x, depth + 1, more);
    NoSpaces(more);
  }

  lemma {:induction false} ItemsRoundTrip(v: Json, i: nat, depth: nat, rest: seq<byte>)
    requires v.List? && i < |v.items|
    ensures var s := ItemsAfterComma(v, i) + ([']' as int] + rest);
            Items(s, depth) ==
            if ItemsFit(v, i, depth + 1) then Ok(Trees(v, i), |ItemsAfterComma(v, i)| + 1) else Bad
    decreases v, 1, |v.items| - i
  {
    hide Items, ValueOf, Text, MemberText, Fits, Tree, Trees, ItemsFit, ItemsAfterComma, ItemsText;
    var close := [']' as int] + rest;
    var s := ItemsAfterComma(v, i) + close;
    ItemsSteps(v, i, depth, rest);
    ItemThenMore(v, i, depth, rest);
    ItemsOnce(s, depth);
    if i + 1 < |v.items| {
      TextStarts(v.items[i + 1]);
      var next := ItemsAfterComma(v, i + 1) + close;
      ItemsStart(v, i + 1);
      assert s[|Text(v.items[i])| + 1..] == next;
      NoSpaces(next);
      ItemsRoundTrip(v, i + 1, depth, rest);
    }
  }

  lemma ItemsStart(v: Json, i: nat)
    requires v.List? && i < |v.items| && Text(v.items[i]) != [] && !IsSpace(Text(v.items[i])[0])
    ensures ItemsAfterComma(v, i) != [] && !IsSpace(ItemsAfterComma(v, i)[0])
  {
    hide Text, MemberText;
  }

  lemma {:induction false} ObjectRoundTrip(v: Json, depth: nat, rest: seq<byte>)
    requires v.Object?
    ensures ObjectOf(Text(v) + rest, depth) ==
            if depth <= MAX_DEPTH && MembersFit(v, 0, depth + 1) then Ok(Tree(v), |Text(v)|) else Bad
    decreases v, 2
  {
    hide Members;
    var s := Text(v) + rest;
    var close := ['}' as int] + rest;
    assert s[1..] == MembersText(v, 0) + close;
    if v.members == [] {
      assert s[1..] == close;
      NoSpaces(s[1..]);
    } else {
      assert MembersText(v, 0) == MembersAfterComma(v, 0);
      assert s[1] == QUOTE;
      NoSpaces(s[1..]);
      MembersRoundTrip(v, 0, depth, rest);
    }
  }

  ghost function MembersAfterComma(v: Json, i: nat): seq<byte>
    requires v.Object? && i < |v.members|
  {
    MemberText(v.members[i]) + MembersText(v, i + 1)
  }

  lemma {:induction false} MemberRoundTrip(m: JMember, depth: nat, rest: seq<byte>)
    requires Delimited(rest)
    ensures MemberOf(MemberText(m) + rest, depth) ==
            if Fits(m.value, depth + 1) then Ok(Member(m.key, Tree(m.value)), |MemberText(m)|) else Bad
    decreases m, 4
  {
    hide ValueOf, Text, Fits, Tree, StringOf, StringText;
    var s := MemberText(m) + rest;
    var colon := [':' as int] + (Text(m.value) + rest);
    assert s == StringText(m.key) + colon;
    StringIsRead(m.key, colon);
    var n := |StringText(m.key)|;
    assert s[n..] == colon;
    NoSpaces(colon);
    assert Peek(s, n) == ':' as int;
    assert s[n + 1..] == Text(m.value) + rest;
    TextStarts(m.value);
    NoSpaces(s[n + 1..]);
    ValueRoundTrip(m.value, depth + 1, rest);
  }

  // What each of the functions over the members says about the i-th.
  lemma MembersSteps(v: Json, i: nat, depth: nat, rest: seq<byte>)
    requires v.Object? && i < |v.members|
    ensures MemberTrees(v, i) == [Member(v.members[i].key, Tree(v.members[i].value))] + MemberTrees(v, i + 1)
    ensures MembersFit(v, i, depth + 1) <==> Fits(v.members[i].value, depth + 1) && MembersFit(v, i + 1, depth + 1)
    ensures i + 1 == |v.members| ==> MemberTrees(v, i) == [Member(v.members[i].key, Tree(v.members[i].value))] && MembersAfterComma(v, i) == MemberText(v.members[i]) && (MembersFit(v, i, depth + 1) <==> Fits(v.members[i].value, depth + 1))
    ensures MembersAfterComma(v, i) == MemberText(v.members[i]) + MembersText(v, i + 1)
    ensures var more := MembersText(v, i + 1) + (['}' as int] + rest);
            && more != []
            && if i + 1 < |v.members|
               then more == [',' as int] + (MembersAfterComma(v, i + 1) + (['}' as int] + rest))
               else more[0] == '}' as int
  {
    hide Text, MemberText, Tree, Fits;
  }

  // One member, and then a comma or the closing brace.
  lemma {:induction false} MemberThenMore(v: Json, i: nat, depth: nat, rest: seq<byte>)
    requires v.Object? && i < |v.members|
    ensures var s := MembersAfterComma(v, i) + (['}' as int] + rest);
            var x := v.members[i];
            var n := |MemberText(x)|;
            && MemberOf(s, depth) == (if Fits(x.value, depth + 1) then Ok(Member(x.key, Tree(x.value)), n) else Bad)
            && n < |s| && s[n..] == MembersText(v, i + 1) + (['}' as int] + rest) && Spaces(s[n..]) == 0
    decreases v, 0
  {
    hide MemberOf, Text, MemberText, Fits, Tree, MemberTrees, MembersFit, MembersAfterComma, MembersText;
    var x := v.members[i];
    var more := MembersText(v, i + 1) + (['}' as int] + rest);
    MembersSteps(v, i, depth, rest);
    assert MembersAfterComma(v, i) + (['}' as int] + rest) == MemberText(x) + more;
    MemberRoundTrip(x, depth, more);
    NoSpaces(more);
  }

  lemma {:induction false} MembersRoundTrip(v: Json, i: nat, depth: nat, rest: seq<byte>)
    requires v.Object? && i < |v.members|
    ensures var s := MembersAfterComma(v, i) + (['}' as int] + rest);
            Members(s, depth) ==
            if MembersFit(v, i, depth + 1) then Ok(MemberTrees(v, i), |MembersAfterComma(v, i)| + 1) else Bad
    decreases v, 1, |v.members| - i
  {
    hide Members, MemberOf, Text, MemberText, Fits, Tree, MemberTrees, MembersFit, MembersAfterComma, MembersText;
    var close := ['}' as int] + rest;
    var s := MembersAfterComma(v, i) + close;
    MembersSteps(v, i, depth, rest);
    MemberThenMore(v, i, depth, rest);
    MembersOnce(s, depth);
    if i + 1 < |v.members| {
      MemberStarts(v.members[i + 1]);
      var next := MembersAfterComma(v, i + 1) + close;
      MembersStart(v, i + 1);
      assert s[|MemberText(v.members[i])| + 1..] == next;
      NoSpaces(next);
      MembersRoundTrip(v, i + 1, depth, rest);
    }
  }

  lemma MembersStart(v: Json, i: nat)
    requires v.Object? && i < |v.members| && MemberText(v.members[i]) != [] && !IsSpace(MemberText(v.members[i])[0])
    ensures MembersAfterComma(v, i) != [] && !IsSpace(MembersAfterComma(v, i)[0])
  {
    hide Text, MemberText;
  }

  lemma MemberStarts(m: JMember)
    ensures MemberText(m) != [] && MemberText(m)[0] == QUOTE
  {
  }

  // The depth limit is on nesting -----------------------------------------------------

  // How deep containers are nested.
  function Levels(v: Json): nat
    decreases v, 2
  {
    match v
    case List(_) => 1 + ItemsLevels(v, 0)
    case Object(_) => 1 + MembersLevels(v, 0)
    case _ => 0
  }

  function Max(a: nat, b: nat): nat { if a < b then b else a }

  function ItemsLevels(v: Json, i: nat): nat
    requires v.List?
    decreases v, 1, |v.items| - i
  {
    if i >= |v.items| then 0 else Max(Levels(v.items[i]), ItemsLevels(v, i + 1))
  }

  function MembersLevels(v: Json, i: nat): nat
    requires v.Object?
    decreases v, 1, |v.members| - i
  {
    if i >= |v.members| then 0 else Max(Levels(v.members[i].value), MembersLevels(v, i + 1))
  }

  ghost predicate Shallow(levels: nat, depth: nat) {
    levels == 0 || depth + 2 * levels - 1 <= MAX_DEPTH
  }

  lemma {:induction false} FitsIsShallow(v: Json, depth: nat)
    ensures Fits(v, depth) <==> Shallow(Levels(v), depth)
    decreases v, 1
  {
    match v
    case List(_) => ItemsFitShallow(v, 0, depth + 2);
    case Object(_) => MembersFitShallow(v, 0, depth + 2);
    case _ =>
  }

  lemma {:induction false} ItemsFitShallow(v: Json, i: nat, depth: nat)
    requires v.List?
    ensures ItemsFit(v, i, depth) <==> Shallow(ItemsLevels(v, i), depth)
    decreases v, 0, |v.items| - i
  {
    hide Fits, Levels;
    if i < |v.items| {
      FitsIsShallow(v.items[i], depth);
      ItemsFitShallow(v, i + 1, depth);
    }
  }

  lemma {:induction false} MembersFitShallow(v: Json, i: nat, depth: nat)
    requires v.Object?
    ensures MembersFit(v, i, depth) <==> Shallow(MembersLevels(v, i), depth)
    decreases v, 0, |v.members| - i
  {
    hide Fits, Levels;
    if i < |v.members| {
      FitsIsShallow(v.members[i].value, depth);
      MembersFitShallow(v, i + 1, depth);
    }
  }

  // The tree that is read back --------------------------------------------------------

  // A parsed tree reads as a printed one: numbers by their value, all else literally.
  predicate ReadsAs(t: Value, v: Json)
    decreases t
  {
    match v
    case Null => t == Value.Null
    case False => t == Value.False
    case True => t == Value.True
    case Signed(n) => t.Number? && IntValue(t.text) == Some(if n < 0 then v else Unsigned(n))
    case Unsigned(_) => t.Number? && IntValue(t.text) == Some(v)
    case Str(s) => t == Value.Str(s)
    case List(items) => t.List? && |t.items| == |items| && forall i :: 0 <= i < |items| ==> ReadsAs(t.items[i], items[i])
    case Object(members) =>
      t.Object? && |t.members| == |members|
      && forall i :: 0 <= i < |members| ==> t.members[i].key == members[i].key && ReadsAs(t.members[i].value, members[i].value)
  }

  // All numbers are 64-bit integers.
  predicate AllInRange(v: Json)
    decreases v
  {
    match v
    case List(items) => forall i :: 0 <= i < |items| ==> AllInRange(items[i])
    case Object(members) => forall i :: 0 <= i < |members| ==> AllInRange(members[i].value)
    case _ => InRange(v)
  }

  lemma {:induction false} TreesAt(v: Json, i: nat)
    requires v.List? && i <= |v.items|
    ensures |Trees(v, i)| == |v.items| - i
    ensures forall k :: 0 <= k < |v.items| - i ==> Trees(v, i)[k] == Tree(v.items[i + k])
    decreases |v.items| - i
  {
    hide Tree;
    if i < |v.items| {
      TreesAt(v, i + 1);
      forall k | 0 <= k < |v.items| - i
        ensures Trees(v, i)[k] == Tree(v.items[i + k])
      {
        assert k > 0 ==> Trees(v, i)[k] == Trees(v, i + 1)[k - 1] == Tree(v.items[i + 1 + (k - 1)]);
      }
    }
  }

  lemma {:induction false} MemberTreesAt(v: Json, i: nat)
    requires v.Object? && i <= |v.members|
    ensures |MemberTrees(v, i)| == |v.members| - i
    ensures forall k :: 0 <= k < |v.members| - i ==>
              MemberTrees(v, i)[k] == Member(v.members[i + k].key, Tree(v.members[i + k].value))
    decreases |v.members| - i
  {
    hide Tree;
    if i < |v.members| {
      MemberTreesAt(v, i + 1);
      forall k | 0 <= k < |v.members| - i
        ensures MemberTrees(v, i)[k] == Member(v.members[i + k].key, Tree(v.members[i + k].value))
      {
        assert k > 0 ==> MemberTrees(v, i)[k] == MemberTrees(v, i + 1)[k - 1];
        assert k > 0 ==> i + 1 + (k - 1) == i + k;
      }
    }
  }

  lemma {:induction false} TreeReads(v: Json)
    requires AllInRange(v)
    ensures ReadsAs(Tree(v), v)
    decreases v
  {
    match v
    case Signed(n) => IntComesBack(v);
    case Unsigned(n) => IntComesBack(v);
    case List(items) =>
      TreesAt(v, 0);
      forall i | 0 <= i < |items|
        ensures ReadsAs(Tree(v).items[i], items[i])
      {
        assert Trees(v, 0)[i] == Tree(v.items[0 + i]);
        TreeReads(items[i]);
      }
    case Object(members) =>
      MemberTreesAt(v, 0);
      forall i | 0 <= i < |members|
        ensures Tree(v).members[i].key == members[i].key && ReadsAs(Tree(v).members[i].value, members[i].value)
      {
        assert MemberTrees(v, 0)[i] == Member(v.members[0 + i].key, Tree(v.members[0 + i].value));
        TreeReads(members[i].value);
      }
    case _ =>
  }

  // Print, then parse: the same tree comes back, exactly if containers are nested at most
  // 5000 deep; deeper trees are refused.
  lemma RoundTrip(v: Json)
    requires AllInRange(v)
    ensures match Parsed(Text(v) + [0])
            case Some(t) => Levels(v) <= 5000 && ReadsAs(t, v)
            case None => Levels(v) > 5000
  {
    hide ValueOf, Text, Fits, Tree, Levels, ReadsAs;
    var s := Text(v) + [0];
    TextStarts(v);
    NoSpaces(s);
    assert s[0..] == s;
    ValueRoundTrip(v, 0, [0]);
    FitsIsShallow(v, 0);
    TreeReads(v);
    assert s[|Text(v)|..] == [0];
  }
}
