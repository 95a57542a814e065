/** The addresses of section 2.2 of RFC 4291, and which of them the constructor reads. */
module Rfc4291 {
  import opened Common
  import opened IpText
  import opened IpAddress

  // Groups of hexadecimal digits, "::" for the groups left out, and a dotted tail of four
  // decimal numbers or none. A "*" may stand for a group or a number.
  datatype Address = Address(left: seq<string>, gap: bool, right: seq<string>, tail: seq<string>)

  ghost predicate IsGroup(g: string) {
    g == "*" || (1 <= |g| <= 4 && AllDigits(g, 16))
  }

  ghost predicate IsOctet(o: string) {
    o == "*" || (1 <= |o| <= 3 && AllDigits(o, 10) && Value(o, 10) <= 255)
  }

  function Units(a: Address): nat {
    |a.left| + |a.right| + if a.tail == [] then 0 else 2
  }

  ghost predicate Valid(a: Address) {
    && (forall g :: g in a.left ==> IsGroup(g)) && (forall g :: g in a.right ==> IsGroup(g))
    && (a.tail != [] ==> |a.tail| == 4) && (forall o :: o in a.tail ==> IsOctet(o))
    && if a.gap then Units(a) <= 7 else Units(a) == 8 && a.right == []
  }

  function RightTokens(a: Address): seq<string> {
    if a.tail == [] then a.right else a.right + [Join(a.tail, '.')]
  }

  function TokensOf(a: Address): seq<string> {
    var right := RightTokens(a);
    if !a.gap then a.left + right
    else (if a.left == [] then [""] else a.left) + [""] + if right == [] then [""] else right
  }

  function Text(a: Address): string {
    Join(TokensOf(a), ':')
  }

  function GroupBytes(g: string): (s: seq<nat>)
    ensures |s| == 2
  {
    if g == "*" then [0, 0] else [Value(g, 16) / 256, Value(g, 16) % 256]
  }

  function GroupMask(g: string): (s: seq<bool>)
    ensures |s| == 2
  {
    [g != "*", g != "*"]
  }

  function Bytes(gs: seq<string>): (s: seq<nat>)
    ensures |s| == 2 * |gs|
  {
    if gs == [] then [] else GroupBytes(gs[0]) + Bytes(gs[1..])
  }

  function Mask(gs: seq<string>): (s: seq<bool>)
    ensures |s| == 2 * |gs|
  {
    if gs == [] then [] else GroupMask(gs[0]) + Mask(gs[1..])
  }

  function TailBytes(tail: seq<string>): (s: seq<nat>)
    ensures |s| == |tail|
  {
    seq(|tail|, i requires 0 <= i < |tail| => if tail[i] == "*" then 0 else Value(tail[i], 10))
  }

  function TailMask(tail: seq<string>): (s: seq<bool>)
    ensures |s| == |tail|
  {
    seq(|tail|, i requires 0 <= i < |tail| => tail[i] != "*")
  }

  function Missing(a: Address): nat {
    if a.gap && Units(a) <= 8 then 8 - Units(a) else 0
  }

  // The sixteen bytes that the text denotes, and those it fixes.
  function Denoted(a: Address): seq<nat> {
    Bytes(a.left) + Zeros(2 * Missing(a)) + Bytes(a.right) + TailBytes(a.tail)
  }

  function Fixed(a: Address): seq<bool> {
    Mask(a.left) + Trues(2 * Missing(a)) + Mask(a.right) + TailMask(a.tail)
  }

  // Which addresses are read: not "::" and seven groups; and before a dotted tail "::" only
  // at the front, and zeros, with zeros or 255 in bytes 10 and 11.
  ghost predicate Accepted(a: Address) {
    && (a.gap && a.left == [] && a.tail == [] ==> |a.right| < 7)
    && (a.tail != [] ==> (a.gap ==> a.left == []) && MayNest(Denoted(a)))
  }

  // Values --------------------------------------------------------------------

  lemma ValueLast(s: string, base: nat)
    requires s != "" && IsDigit(s[|s| - 1], base)
    ensures Value(s, base) == Value(s[..|s| - 1], base) * base + DigitValue(s[|s| - 1])
  {
  }

  lemma {:induction false} LeadingZeros(zeros: string, s: string)
    requires (forall i :: 0 <= i < |zeros| ==> zeros[i] == '0') && AllDigits(s, 16)
    ensures Value(zeros + s, 16) == Value(s, 16)
    decreases |s|, |zeros|
  {
    if s != "" {
      var t := zeros + s;
      assert t[..|t| - 1] == zeros + s[..|s| - 1];
      assert IsDigit(s[|s| - 1], 16);
      LeadingZeros(zeros, s[..|s| - 1]);
    } else if zeros != "" {
      assert zeros + s == zeros && zeros[..|zeros| - 1] + s == zeros[..|zeros| - 1];
      LeadingZeros(zeros[..|zeros| - 1], s);
    }
  }

  lemma TwoDigits(s: string)
    requires |s| == 2 && AllDigits(s, 16)
    ensures Value(s, 16) == DigitValue(s[0]) * 16 + DigitValue(s[1]) < 256
  {
    assert IsDigit(s[0], 16) && IsDigit(s[1], 16);
    ValueLast(s, 16);
    ValueLast(s[..1], 16);
    EmptyValue(16);
    assert s[..1][..0] == "";
  }

  lemma FourDigits(s: string)
    requires |s| == 4 && AllDigits(s, 16)
    ensures Value(s, 16) == Value(s[..2], 16) * 256 + Value(s[2..], 16)
    ensures Value(s[..2], 16) < 256 && Value(s[2..], 16) < 256
  {
    hide Value;
    assert IsDigit(s[2], 16) && IsDigit(s[3], 16);
    TwoDigits(s[..2]);
    TwoDigits(s[2..]);
    ValueLast(s, 16);
    ValueLast(s[..3], 16);
    assert s[..3][..2] == s[..2];
  }

  lemma GroupValue(g: string)
    requires IsGroup(g) && g != "*"
    ensures var p := Padded(g);
            && |p| == 4 && [U16(Strtol(p[..2], 16)), U16(Strtol(p[2..], 16))] == GroupBytes(g)
  {
    hide Value, Strtol;
    var p := Padded(g);
    var zeros := seq(4 - |g|, _ => '0');
    assert p == zeros + g;
    assert AllDigits(p, 16);
    LeadingZeros(zeros, g);
    FourDigits(p);
    StrtolIs(p[..2], 16);
    StrtolIs(p[2..], 16);
  }

  // Reading groups --------------------------------------------------------------

  // The state after bytes have been read from the left.
  ghost function Sofar(b: seq<nat>, m: seq<bool>): Scan
    requires |b| == |m| <= 16
  {
    At(|b|, b + Zeros(16 - |b|), m + Trues(16 - |m|))
  }

  lemma GroupIsRead(b: seq<nat>, m: seq<bool>, g: string, last: bool, omitted: nat)
    requires |b| == |m| <= 14 && IsGroup(g)
    ensures PartStep(Sofar(b, m), g, last, omitted) == Sofar(b + GroupBytes(g), m + GroupMask(g))
  {
    hide Strtol, Value, Padded;
    var z := Zeros(16 - |b|);
    var t := Trues(16 - |m|);
    if g == "*" {
      assert b + z == (b + [0, 0]) + Zeros(14 - |b|);
      assert Put(Put(m + t, |m|, false), |m| + 1, false) == (m + [false, false]) + Trues(14 - |m|);
    } else {
      GroupValue(g);
      var hi, lo := GroupBytes(g)[0], GroupBytes(g)[1];
      assert Put(Put(b + z, |b|, hi), |b| + 1, lo) == (b + [hi, lo]) + Zeros(14 - |b|);
      assert m + t == (m + [true, true]) + Trues(14 - |m|);
    }
  }

  lemma GapIsRead(b: seq<nat>, m: seq<bool>, last: bool, omitted: nat)
    requires |b| == |m| && |b| + 2 * omitted <= 16
    ensures PartStep(Sofar(b, m), "", last, omitted) == Sofar(b + Zeros(2 * omitted), m + Trues(2 * omitted))
  {
    hide Strtol, Padded;
    assert Zeroed(b + Zeros(16 - |b|), |b|, 2 * omitted) == (b + Zeros(2 * omitted)) + Zeros(16 - |b| - 2 * omitted);
    assert m + Trues(16 - |m|) == (m + Trues(2 * omitted)) + Trues(16 - |m| - 2 * omitted);
  }

  lemma {:induction false} GroupsAreRead(b: seq<nat>, m: seq<bool>, gs: seq<string>, rest: seq<string>, omitted: nat)
    requires |b| == |m| && |b| + 2 * |gs| <= 16 && forall g :: g in gs ==> IsGroup(g)
    ensures Parts(Sofar(b, m), gs + rest, omitted) == Parts(Sofar(b + Bytes(gs), m + Mask(gs)), rest, omitted)
    decreases |gs|
  {
    hide PartStep, GroupBytes, GroupMask, IsGroup, Sofar;
    if gs == [] {
      assert gs + rest == rest && b + Bytes(gs) == b && m + Mask(gs) == m;
    } else {
      var g := gs[0];
      GroupIsRead(b, m, g, |gs + rest| == 1, omitted);
      assert (gs + rest)[1..] == gs[1..] + rest;
      GroupsAreRead(b + GroupBytes(g), m + GroupMask(g), gs[1..], rest, omitted);
      assert b + GroupBytes(g) + Bytes(gs[1..]) == b + Bytes(gs);
      assert m + GroupMask(g) + Mask(gs[1..]) == m + Mask(gs);
      SofarIsAt(b, m);
    }
  }

  lemma SofarIsAt(b: seq<nat>, m: seq<bool>)
    requires |b| == |m| <= 16
    ensures Sofar(b, m).At?
  {
  }

  // The dotted tail ---------------------------------------------------------------

  lemma OctetIs(o: string)
    requires IsOctet(o) && o != "*"
    ensures U16(Strtol(o, 10)) == Value(o, 10) <= 255
  {
    hide Strtol, Value;
    StrtolIs(o, 10);
  }

  lemma {:induction false} OctetsAreRead(b: seq<nat>, m: seq<bool>, tail: seq<string>, i: nat)
    requires |b| == |m| == 12 && |tail| == 4 && i <= 4 && forall o :: o in tail ==> IsOctet(o)
    ensures Octets(At(12, b + TailBytes(tail)[..i] + Zeros(4 - i), m + TailMask(tail)[..i] + Trues(4 - i)), tail, i)
            == At(12, b + TailBytes(tail), m + TailMask(tail))
    decreases 4 - i
  {
    hide Strtol, Value, IsOctet;
    var tb, tm := TailBytes(tail), TailMask(tail);
    var p := b + tb[..i] + Zeros(4 - i);
    var q := m + tm[..i] + Trues(4 - i);
    if i < 4 {
      assert tail[i] in tail;
      if tail[i] != "*" {
        OctetIs(tail[i]);
      }
      assert Put(p, 12 + i, tb[i]) == b + tb[..i + 1] + Zeros(3 - i);
      assert Put(q, 12 + i, tm[i]) == m + tm[..i + 1] + Trues(3 - i);
      assert tail[i] == "*" ==> p == Put(p, 12 + i, tb[i]);
      assert tail[i] != "*" ==> q == Put(q, 12 + i, tm[i]);
      OctetsAreRead(b, m, tail, i + 1);
    } else {
      assert p == b + tb && q == m + tm;
    }
  }

  lemma OctetChars(o: string)
    requires IsOctet(o)
    ensures o != "" && '.' !in o && ':' !in o
  {
    hide Value;
    if o != "*" {
      forall i | 0 <= i < |o|
        ensures o[i] != '.' && o[i] != ':'
      {
        assert IsDigit(o[i], 10);
      }
    }
  }

  lemma JoinFour(tail: seq<string>)
    requires |tail| == 4
    ensures Join(tail, '.') == tail[0] + ['.'] + (tail[1] + ['.'] + (tail[2] + ['.'] + tail[3]))
  {
    assert tail[2..][1..] == [tail[3]] && Join([tail[3]], '.') == tail[3];
    assert Join(tail[2..], '.') == tail[2] + ['.'] + tail[3];
    assert tail[1..][1..] == tail[2..];
    assert Join(tail[1..], '.') == tail[1] + ['.'] + Join(tail[2..], '.');
  }

  lemma OctetsSplit(tail: seq<string>)
    requires |tail| == 4 && forall o :: o in tail ==> IsOctet(o)
    ensures Split(Join(tail, '.'), '.', true) == tail
    ensures forall o :: o in tail ==> o != "" && ':' !in o
  {
    hide IsOctet, Tokens, Join;
    forall o | o in tail
      ensures o != "" && '.' !in o && ':' !in o
    {
      OctetChars(o);
    }
    SplitJoin(tail, '.');
    NonEmptyAll(tail);
  }

  lemma TailText(tail: seq<string>)
    requires |tail| == 4 && forall o :: o in tail ==> IsOctet(o)
    ensures var t := Join(tail, '.'); |t| >= 7 && '.' in t && ':' !in t && Split(t, '.', true) == tail
  {
    hide IsOctet, Split, Join;
    OctetsSplit(tail);
    JoinFour(tail);
    assert tail[0] in tail && tail[1] in tail && tail[2] in tail && tail[3] in tail;
  }

  lemma TailIsRead(b: seq<nat>, m: seq<bool>, tail: seq<string>, omitted: nat)
    requires |b| == |m| <= 16 && |tail| == 4 && forall o :: o in tail ==> IsOctet(o)
    ensures PartStep(Sofar(b, m), Join(tail, '.'), true, omitted) ==
            if |b| == 12 && MayNest(b + TailBytes(tail)) then At(12, b + TailBytes(tail), m + TailMask(tail)) else Bad
  {
    hide Join, Split, Octets, Strtol, IsOctet;
    TailText(tail);
    var t := Join(tail, '.');
    if |b| == 12 {
      OctetsAreRead(b, m, tail, 0);
      assert b + TailBytes(tail)[..0] + Zeros(4) == b + Zeros(4);
      assert m + TailMask(tail)[..0] + Trues(4) == m + Trues(4);
      SameNest(b, TailBytes(tail));
    }
  }

  lemma SameNest(b: seq<nat>, t: seq<nat>)
    requires |b| == 12 && |t| == 4
    ensures MayNest(b + Zeros(4)) <==> MayNest(b + t)
  {
    assert forall k :: 0 <= k < 12 ==> (b + Zeros(4))[k] == (b + t)[k];
  }

  // Whole addresses ------------------------------------------------------------------

  lemma GroupChars(g: string)
    requires IsGroup(g)
    ensures g != "" && '.' !in g && ':' !in g
  {
    hide Value;
    if g != "*" {
      forall i | 0 <= i < |g|
        ensures g[i] != '.' && g[i] != ':'
      {
        assert IsDigit(g[i], 16);
      }
    }
  }

  lemma {:induction false} NoEmpties(gs: seq<string>, rest: seq<string>)
    requires "" !in gs
    ensures Empties(gs + rest) == Empties(rest)
  {
    if gs == [] {
      assert gs + rest == rest;
    } else {
      assert (gs + rest)[1..] == gs[1..] + rest;
      NoEmpties(gs[1..], rest);
    }
  }

  // No token holds a colon; the groups and the tail are not empty, and only the tail has a dot.
  lemma TokensArePlain(a: Address)
    requires Valid(a)
    ensures Plain(TokensOf(a), ':') && "" !in a.left && "" !in RightTokens(a)
    ensures RightTokens(a) != [] ==> ('.' in RightTokens(a)[|RightTokens(a)| - 1] <==> a.tail != [])
    ensures a.left != [] ==> '.' !in a.left[|a.left| - 1]
  {
    hide IsGroup, IsOctet, Join;
    forall g | g in a.left
      ensures g != "" && '.' !in g && ':' !in g
    {
      GroupChars(g);
    }
    forall g | g in a.right
      ensures g != "" && '.' !in g && ':' !in g
    {
      GroupChars(g);
    }
    if a.tail != [] {
      TailText(a.tail);
    }
    assert a.left != [] ==> a.left[|a.left| - 1] in a.left;
    assert a.right != [] ==> a.right[|a.right| - 1] in a.right;
  }

  // The parts that are read, and the number of groups that the empty one stands for.
  ghost function PartsOf(a: Address): seq<string> {
    a.left + (if a.gap then [""] else []) + RightTokens(a)
  }

  ghost function OmittedOf(a: Address): nat {
    if !a.gap then 9 - (if |PartsOf(a)| <= 9 then |PartsOf(a)| else 9)
    else if a.left != [] && a.tail != [] then Missing(a) + 1
    else Missing(a)
  }

  lemma SplitText(a: Address)
    requires Valid(a)
    ensures ':' in Text(a)
    ensures Split(Text(a), ':', false) ==
            if !a.gap then PartsOf(a)
            else if a.left == [] then ["", ""] + RightTokens(a)
            else PartsOf(a)
  {
    hide IsGroup, IsOctet, Tokens;
    TokensArePlain(a);
    var ts := TokensOf(a);
    SplitJoin(ts, ':');
    assert Join(ts, ':') == ts[0] + [':'] + Join(ts[1..], ':');
    var right := RightTokens(a);
    if a.gap {
      if right == [] {
        assert ts[..|ts| - 1] == if a.left == [] then ["", ""] else a.left + [""];
        assert ["", ""] + right == ["", ""] && PartsOf(a) == a.left + [""];
      } else {
        assert ts[|ts| - 1] == right[|right| - 1];
        assert right[|right| - 1] in right;
        assert ts == if a.left == [] then ["", ""] + right else a.left + [""] + right;
      }
    } else {
      assert ts == PartsOf(a);
      assert ts[|ts| - 1] in a.left || ts[|ts| - 1] in right;
    }
  }

  lemma PreparedPlain(ps: seq<string>)
    requires 0 < |ps| <= 8 && Empties(ps) <= 1
    ensures Prepared(ps) == Some((ps, 9 - |ps|))
  {
  }

  lemma PreparedFront(right: seq<string>)
    requires "" !in right
    ensures Prepared(["", ""] + right) ==
            if |right| >= 7 then None
            else Some(([""] + right, 8 - |right| - if right != [] && '.' in right[|right| - 1] then 1 else 0))
  {
    var ps := ["", ""] + right;
    NoEmpties(right, []);
    assert right + [] == right;
    assert ps[1..] == [""] + right;
    assert ps[1..][1..] == right;
    assert Empties(ps) == 2;
    assert right != [] ==> ps[|ps| - 1] == right[|right| - 1];
  }

  lemma PreparedBehind(left: seq<string>, gap: seq<string>, right: seq<string>)
    requires "" !in left && "" !in right && (gap == [] || gap == [""]) && 0 < |left + gap + right| <= 8
    ensures Prepared(left + gap + right) == Some((left + gap + right, 9 - |left + gap + right|))
  {
    hide Prepared;
    assert left + gap + right == left + (gap + right);
    NoEmpties(left, gap + right);
    NoEmpties(right, []);
    assert right + [] == right;
    assert gap == [] ==> gap + right == right;
    assert gap == [""] ==> (gap + right)[1..] == right;
    PreparedPlain(left + gap + right);
  }

  lemma PartsCount(a: Address)
    requires Valid(a)
    ensures |RightTokens(a)| == |a.right| + if a.tail == [] then 0 else 1
    ensures (a.gap ==> a.left != []) ==> 0 < |PartsOf(a)| <= 8 && OmittedOf(a) == 9 - |PartsOf(a)|
    ensures a.gap && a.left == [] ==> OmittedOf(a) == 8 - |a.right| - if a.tail == [] then 0 else 2
  {
    hide IsGroup, IsOctet, Join;
  }

  lemma PreparedParts(a: Address)
    requires Valid(a)
    ensures Prepared(Split(Text(a), ':', false)) ==
            if a.gap && a.left == [] && a.tail == [] && |a.right| == 7 then None
            else Some((PartsOf(a), OmittedOf(a)))
  {
    hide Split, Text, Prepared, Valid, OmittedOf, RightTokens;
    SplitText(a);
    TokensArePlain(a);
    PartsCount(a);
    var right := RightTokens(a);
    if a.gap && a.left == [] {
      assert PartsOf(a) == [""] + right;
      ValidCount(a);
      PreparedFront(right);
    } else {
      PreparedBehind(a.left, if a.gap then [""] else [], right);
    }
  }

  lemma ValidCount(a: Address)
    requires Valid(a) && a.gap
    ensures |a.left| + |a.right| + (if a.tail == [] then 0 else 2) <= 7
  {
    hide IsGroup, IsOctet;
  }

  lemma TailStep(b: seq<nat>, m: seq<bool>, a: Address, omitted: nat)
    requires |b| == |m| <= 16 && Valid(a) && a.tail != []
    ensures Parts(Sofar(b, m), [Join(a.tail, '.')], omitted) ==
            if |b| == 12 && MayNest(b + TailBytes(a.tail)) then At(12, b + TailBytes(a.tail), m + TailMask(a.tail)) else Bad
  {
    hide PartStep, Join, Sofar, IsOctet, IsGroup, MayNest;
    TailIsRead(b, m, a.tail, omitted);
    SofarIsAt(b, m);
    assert [Join(a.tail, '.')][1..] == [];
  }

  lemma PartsNothing(b: seq<nat>, m: seq<bool>, omitted: nat)
    requires |b| == |m| <= 16
    ensures Parts(Sofar(b, m), [], omitted) == Sofar(b, m)
  {
  }

  // The groups before and after "::".
  lemma HeadIsRead(a: Address, rest: seq<string>)
    requires Valid(a) && (a.gap ==> OmittedOf(a) <= 8 - |a.left| - |a.right|)
    ensures var om := OmittedOf(a);
            var z := if a.gap then 2 * om else 0;
            var b := Bytes(a.left) + Zeros(z) + Bytes(a.right);
            var m := Mask(a.left) + Trues(z) + Mask(a.right);
            && |b| == |m| <= 16
            && Parts(START, a.left + (if a.gap then [""] else []) + (a.right + rest), om) == Parts(Sofar(b, m), rest, om)
  {
    hide PartStep, Sofar, IsGroup, IsOctet, Parts, Missing, Bytes, Mask;
    var om := OmittedOf(a);
    var z := if a.gap then 2 * om else 0;
    StartIsSofar();
    var more := a.right + rest;
    var b, m := Bytes(a.left), Mask(a.left);
    assert [] + b == b && [] + m == m;
    if a.gap {
      assert a.left + [""] + more == a.left + ([""] + more);
      GroupsAreRead([], [], a.left, [""] + more, om);
      GapPart(b, m, more, om);
    } else {
      assert a.left + [] + more == a.left + more;
      GroupsAreRead([], [], a.left, more, om);
      assert b + Zeros(0) == b && m + Trues(0) == m;
    }
    GroupsAreRead(b + Zeros(z), m + Trues(z), a.right, rest, om);
  }

  lemma StartIsSofar()
    ensures START == Sofar([], [])
  {
    assert [] + Zeros(16) == Zeros(16);
    assert [] + Trues(16) == Trues(16);
  }

  lemma GapPart(b: seq<nat>, m: seq<bool>, rest: seq<string>, omitted: nat)
    requires |b| == |m| && |b| + 2 * omitted <= 16
    ensures Parts(Sofar(b, m), [""] + rest, omitted) ==
            Parts(Sofar(b + Zeros(2 * omitted), m + Trues(2 * omitted)), rest, omitted)
  {
    hide PartStep, Sofar;
    GapIsRead(b, m, |[""] + rest| == 1, omitted);
    SofarIsAt(b, m);
    assert ([""] + rest)[1..] == rest;
  }

  // Reading the text of a valid address gives exactly the bytes that it denotes, and clears
  // exactly the bits of its wildcards, if the address is one that is accepted; all others are
  // refused.
  lemma AddressIsRead(a: Address)
    requires Valid(a)
    ensures Parsed(Text(a)) == if Accepted(a) then Ok(Ip(true, Denoted(a), Fixed(a))) else Throws
  {
    hide IsGroup, IsOctet, Parts, Prepared, Text, Join, Split, MayNest, Bytes, Mask, TailBytes, TailMask, Sofar;
    SplitText(a);
    PreparedParts(a);
    if !(a.gap && a.left == [] && a.tail == [] && |a.right| == 7) {
      var om := OmittedOf(a);
      var z := if a.gap then 2 * om else 0;
      var b := Bytes(a.left) + Zeros(z) + Bytes(a.right);
      var m := Mask(a.left) + Trues(z) + Mask(a.right);
      var rest := if a.tail == [] then [] else [Join(a.tail, '.')];
      assert a.right + rest == RightTokens(a);
      HeadIsRead(a, rest);
      if a.tail == [] {
        PartsNothing(b, m, om);
        NoTail(a, b, m);
      } else {
        TailStep(b, m, a, om);
        assert z == 2 * Missing(a) || |b| != 12;
      }
    }
  }

  lemma NoTail(a: Address, b: seq<nat>, m: seq<bool>)
    requires a.tail == [] && |b| == |m| == 16
    ensures Sofar(b, m) == At(16, b + TailBytes(a.tail), m + TailMask(a.tail))
  {
    assert b + Zeros(0) == b && m + Trues(0) == m;
    assert b + TailBytes(a.tail) == b && m + TailMask(a.tail) == m;
  }

  // An IPv4 address fills the last four bytes.
  lemma DottedIsRead(octets: seq<string>)
    requires |octets| == 4 && forall o :: o in octets ==> IsOctet(o)
    ensures Parsed(Join(octets, '.')) == Ok(Ip(false, Zeros(12) + TailBytes(octets), Trues(12) + TailMask(octets)))
  {
    hide IsOctet, Split, Octets, Join, TailBytes, TailMask;
    TailText(octets);
    OctetsAreRead(Zeros(12), Trues(12), octets, 0);
    assert Zeros(12) + TailBytes(octets)[..0] + Zeros(4) == Zeros(16);
    assert Trues(12) + TailMask(octets)[..0] + Trues(4) == Trues(16);
  }
}
