/** Typed dispatch: base-6 parameter tags, the argument list they decode to, and the captures a handler gets. */
module Dispatch {
  import opened Common
  import opened RoutePatterns

  datatype ArgType = I64 | U64 | F64 | STR

  function Digit(t: ParamType): nat {
    match t
    case INT => 1
    case UINT => 2
    case DOUBLE => 3
    case STRING => 4
    case PATH => 5
    case MAX => 0
  }

  function TypeOf(t: ParamType): ArgType
    requires t != MAX
  {
    match t
    case INT => I64
    case UINT => U64
    case DOUBLE => F64
    case STRING => STR
    case PATH => STR
  }

  function FindClosingTag(s: string, p: nat): (r: Option<nat>)
    requires p <= |s|
    ensures r.Some? ==> p <= r.value < |s| && s[r.value] == '>'
    decreases |s| - p
  {
    if p == |s| then None else if s[p] == '>' then Some(p) else FindClosingTag(s, p + 1)
  }

  // Which parameter type's name stands at p; MAX for none.
  function TypeAt(s: string, p: nat): ParamType {
    if StartsAt(s, p, "<int>") then INT
    else if StartsAt(s, p, "<uint>") then UINT
    else if StartsAt(s, p, "<float>") || StartsAt(s, p, "<double>") then DOUBLE
    else if StartsAt(s, p, "<str>") || StartsAt(s, p, "<string>") then STRING
    else if StartsAt(s, p, "<path>") then PATH
    else MAX
  }

  // The tag of the rule from p on, in 64-bit arithmetic; None where the source throws.
  function GetParameterTag(s: string, p: nat): Option<nat>
    requires p <= |s|
    decreases |s| - p
  {
    if p == |s| then Some(0)
    else if s[p] == '<' then
      if TypeAt(s, p) == MAX then None
      else
        match FindClosingTag(s, p)
        case None => None
        case Some(q) =>
          match GetParameterTag(s, q)
          case None => None
          case Some(sub) => Some((sub * 6 + Digit(TypeAt(s, p))) % TWO64)
    else GetParameterTag(s, p + 1)
  }

  function SingleTagToType(d: nat): ArgType
    requires 1 <= d <= 5
  {
    if d == 1 then I64 else if d == 2 then U64 else if d == 3 then F64 else STR
  }

  // The handler's argument types; None where the template has no definition.
  function Arguments(tag: nat): Option<seq<ArgType>> {
    if tag == 0 then Some([])
    else if tag % 6 == 0 then None
    else
      match Arguments(tag / 6)
      case None => None
      case Some(rest) => Some([SingleTagToType(tag % 6)] + rest)
  }

  // The rule's own parameters, in order.
  function Params(p: Pattern): (ts: seq<ParamType>)
    requires IsRulePattern(p)
    ensures MAX !in ts
  {
    if p == [] then []
    else
      assert p[0] in p && forall x :: x in p[1..] ==> x in p;
      (if p[0].Param? then [p[0].t] else []) + Params(p[1..])
  }

  function Types(ts: seq<ParamType>): (r: seq<ArgType>)
    requires MAX !in ts
    ensures |r| == |ts|
  {
    seq(|ts|, i requires 0 <= i < |ts| => TypeOf(ts[i]))
  }

  // The tag without 64-bit truncation.
  function ExactTag(ts: seq<ParamType>): nat {
    if ts == [] then 0 else ExactTag(ts[1..]) * 6 + Digit(ts[0])
  }

  lemma {:induction false} ClosingTagIs(s: string, p: nat, q: nat)
    requires p <= q < |s| && s[q] == '>' && forall k :: p <= k < q ==> s[k] != '>'
    ensures FindClosingTag(s, p) == Some(q)
    decreases q - p
  {
    if p < q {
      ClosingTagIs(s, p + 1, q);
    }
  }

  lemma NameCloses(s: string, p: nat, name: string)
    requires StartsAt(s, p, name) && name != ""
    requires name[|name| - 1] == '>' && forall k :: 0 <= k < |name| - 1 ==> name[k] != '>'
    ensures FindClosingTag(s, p) == Some(p + |name| - 1)
  {
    forall k | 0 <= k < |name|
      ensures s[p + k] == name[k]
    {
      assert s[p..p + |name|][k] == name[k];
    }
    forall k | p <= k < p + |name| - 1
      ensures s[k] != '>'
    {
      assert s[p + (k - p)] == name[k - p];
    }
    ClosingTagIs(s, p, p + |name| - 1);
  }

  // The traits are tried in order.
  lemma TraitsInOrder(s: string, p: nat, k: nat)
    requires k < |TRAITS|
    ensures TraitAt(s, p, k) == if StartsAt(s, p, TRAITS[k].name) then Some(TRAITS[k]) else TraitAt(s, p, k + 1)
  {
  }

  lemma {:induction false} TraitIsListed(s: string, p: nat, k: nat)
    requires k <= |TRAITS|
    ensures TraitAt(s, p, k).Some? ==> TraitAt(s, p, k).value in TRAITS
    decreases |TRAITS| - k
  {
    if k < |TRAITS| {
      assert TRAITS[k] in TRAITS;
      TraitIsListed(s, p, k + 1);
    }
  }

  lemma TraitNamesClose(x: Trait)
    requires x in TRAITS
    ensures x.name != "" && x.name[|x.name| - 1] == '>'
    ensures forall k :: 0 <= k < |x.name| - 1 ==> x.name[k] != '>'
  {
  }

  // The tag reader and the trie see the same parameter at the same place.
  lemma TagAgrees(s: string, p: nat)
    requires WellFormed(s, p) && p < |s| && s[p] == '<'
    ensures NextToken(s, p).token == Param(TypeAt(s, p)) && TypeAt(s, p) != MAX
    ensures FindClosingTag(s, p) == Some(p + NextToken(s, p).width - 1)
  {
    hide TraitAt, StartsAt, Tokens, FindClosingTag;
    TraitsInOrder(s, p, 0);
    TraitsInOrder(s, p, 1);
    TraitsInOrder(s, p, 2);
    TraitsInOrder(s, p, 3);
    TraitsInOrder(s, p, 4);
    TraitsInOrder(s, p, 5);
    TraitsInOrder(s, p, 6);
    TraitIsListed(s, p, 0);
    TraitNamesClose(TraitAt(s, p, 0).value);
    NameCloses(s, p, TraitAt(s, p, 0).value.name);
  }

  lemma ModStep(a: nat, b: nat, d: nat)
    requires a == b % TWO64
    ensures (a * 6 + d) % TWO64 == (b * 6 + d) % TWO64
  {
    var q := b / TWO64;
    assert b * 6 + d == (a * 6 + d) + TWO64 * (q * 6);
    ModOfSum(a * 6 + d, q * 6);
  }

  lemma ModOfSum(x: nat, k: nat)
    ensures (x + TWO64 * k) % TWO64 == x % TWO64
  {
    var q, r := x / TWO64, x % TWO64;
    assert x + TWO64 * k == TWO64 * (q + k) + r;
  }

  // One token of the rule is one step of the tag reader.
  lemma TagStep(s: string, p: nat)
    requires WellFormed(s, p) && p < |s|
    ensures var n := NextToken(s, p);
            && Tokens(s, p) == [n.token] + Tokens(s, p + n.width)
            && GetParameterTag(s, p) ==
               match GetParameterTag(s, p + n.width)
               case None => None
               case Some(sub) => if n.token.Param? then Some((sub * 6 + Digit(n.token.t)) % TWO64) else Some(sub)
  {
    hide TraitAt, StartsAt, TypeAt, FindClosingTag;
    if s[p] == '<' {
      TagAgrees(s, p);
      var q := p + NextToken(s, p).width - 1;
      assert GetParameterTag(s, q) == GetParameterTag(s, q + 1);
    }
  }

  // The tag of a rule encodes its parameters in base 6, modulo 2^64.
  lemma {:induction false} TagOfRule(s: string, p: nat)
    requires WellFormed(s, p)
    ensures GetParameterTag(s, p) == Some(ExactTag(Params(Tokens(s, p))) % TWO64)
    decreases |s| - p, 1
  {
    if p == |s| {
      assert Tokens(s, p) == [];
    } else {
      TagBeforeEnd(s, p);
    }
  }

  lemma {:induction false} TagBeforeEnd(s: string, p: nat)
    requires WellFormed(s, p) && p < |s|
    ensures GetParameterTag(s, p) == Some(ExactTag(Params(Tokens(s, p))) % TWO64)
    decreases |s| - p, 0
  {
    hide WellFormed, GetParameterTag, Tokens, NextToken;
    var n := NextToken(s, p);
    TagStep(s, p);
    TagOfRule(s, p + n.width);
    var rest := Params(Tokens(s, p + n.width));
    assert Tokens(s, p)[1..] == Tokens(s, p + n.width);
    if n.token.Param? {
      assert Params(Tokens(s, p)) == [n.token.t] + rest;
      ModStep(ExactTag(rest) % TWO64, ExactTag(rest), Digit(n.token.t));
    } else {
      assert Params(Tokens(s, p)) == rest;
    }
  }

  // The exact tag decodes to the types, whatever its size.
  lemma {:induction false} ExactTagDecodes(ts: seq<ParamType>)
    requires MAX !in ts
    ensures Arguments(ExactTag(ts)) == Some(Types(ts))
    ensures ts != [] ==> ExactTag(ts) > 0
  {
    if ts != [] {
      assert forall x :: x in ts[1..] ==> x in ts;
      ExactTagDecodes(ts[1..]);
      var tag := ExactTag(ts);
      assert ts[0] in ts;
      assert tag / 6 == ExactTag(ts[1..]) && tag % 6 == Digit(ts[0]);
      assert Types(ts) == [TypeOf(ts[0])] + Types(ts[1..]);
    }
  }

  ghost function Weight(n: nat): nat {
    if n == 0 then 1 else 6 * Weight(n - 1)
  }

  lemma {:induction false} TagFits(ts: seq<ParamType>)
    requires MAX !in ts
    ensures ExactTag(ts) < Weight(|ts|)
  {
    if ts != [] {
      assert forall x :: x in ts[1..] ==> x in ts;
      TagFits(ts[1..]);
    }
  }

  lemma {:induction false} WeightGrows(m: nat, n: nat)
    requires m <= n
    ensures Weight(m) <= Weight(n)
    decreases n
  {
    if m < n {
      WeightGrows(m, n - 1);
    }
  }

  lemma WeightOf24()
    ensures Weight(24) < TWO64
  {
    assert Weight(6) == 46656;
    assert Weight(12) == 2176782336;
    assert Weight(18) == 101559956668416;
    assert Weight(24) == 4738381338321616896;
  }

  // The largest digits that the same types can have exceed the smallest by one each.
  lemma {:induction false} DigitsNear(tag: nat, ts: seq<ParamType>)
    requires MAX !in ts && Arguments(tag) == Some(Types(ts))
    ensures 5 * (ExactTag(ts) - tag) <= Weight(|ts|) - 1
  {
    if ts != [] {
      assert forall x :: x in ts[1..] ==> x in ts;
      var types := Types(ts);
      assert ts[0] in ts && tag != 0;
      assert types[1..] == Types(ts[1..]);
      assert Arguments(tag / 6).value == types[1..];
      assert Arguments(tag).value[0] == types[0];
      DigitsNear(tag / 6, ts[1..]);
      assert SingleTagToType(tag % 6) == TypeOf(ts[0]);
      assert Digit(ts[0]) - tag % 6 <= 1;
    }
  }

  // The handler's argument types are the rule's parameter types in order exactly if the
  // tag fits 64 bits: always with at most 24 parameters, never with more than 25.
  lemma RuleTagDecodes(s: string)
    requires WellFormed(s, 0)
    ensures GetParameterTag(s, 0).Some?
    ensures var ts := Params(Tokens(s, 0));
            && (Arguments(GetParameterTag(s, 0).value) == Some(Types(ts)) <==> ExactTag(ts) < TWO64)
            && (ExactTag(ts) < TWO64 ==> GetParameterTag(s, 0).value == ExactTag(ts))
            && (|ts| <= 24 ==> ExactTag(ts) < TWO64) && (|ts| > 25 ==> ExactTag(ts) >= TWO64)
  {
    hide *;
    var ts := Params(Tokens(s, 0));
    TagOfRule(s, 0);
    TagDecodes(ts);
    TagFits(ts);
    WeightOf24();
    if |ts| <= 24 {
      WeightGrows(|ts|, 24);
    } else if |ts| > 25 {
      TagIsLarge(ts);
      WeightOf25();
      WeightGrows(25, |ts| - 1);
    }
  }

  lemma TagDecodes(ts: seq<ParamType>)
    requires MAX !in ts
    ensures Arguments(ExactTag(ts) % TWO64) == Some(Types(ts)) <==> ExactTag(ts) < TWO64
  {
    hide Arguments, ExactTag, Weight;
    ExactTagDecodes(ts);
    var tag := ExactTag(ts) % TWO64;
    if ExactTag(ts) >= TWO64 && Arguments(tag) == Some(Types(ts)) {
      DigitsNear(tag, ts);
      WeightOf25();
      DecodesAtMost25(tag, 25);
      WeightGrows(|ts|, 25);
    }
  }

  // A tag below 6^n has at most n digits.
  lemma {:induction false} DecodesAtMost25(tag: nat, n: nat)
    requires tag < Weight(n)
    ensures Arguments(tag).Some? ==> |Arguments(tag).value| <= n
    decreases n
  {
    if tag != 0 {
      DecodesAtMost25(tag / 6, n - 1);
    }
  }

  lemma WeightOf25()
    ensures TWO64 < Weight(25) < 5 * TWO64
  {
    assert Weight(6) == 46656;
    assert Weight(12) == 2176782336;
    assert Weight(18) == 101559956668416;
    assert Weight(24) == 4738381338321616896;
    assert Weight(25) == 6 * Weight(24);
  }

  // No digit is zero.
  lemma {:induction false} TagIsLarge(ts: seq<ParamType>)
    requires ts != [] && MAX !in ts
    ensures ExactTag(ts) >= Weight(|ts| - 1)
  {
    assert ts[0] in ts;
    if |ts| > 1 {
      assert forall x :: x in ts[1..] ==> x in ts;
      TagIsLarge(ts[1..]);
    }
  }

  // A rule that fails ------------------------------------------------------

  // n path parameters, one behind the other.
  function Paths(n: nat): (s: string)
    ensures |s| == 6 * n
  {
    if n == 0 then "" else "<path>" + Paths(n - 1)
  }

  lemma {:induction false} PathsAt(n: nat, k: nat)
    requires k <= n
    ensures Paths(n)[6 * k..] == Paths(n - k)
    decreases k
  {
    if k > 0 {
      PathsAt(n - 1, k - 1);
      assert Paths(n)[6 * k..] == Paths(n - 1)[6 * (k - 1)..];
    }
  }

  lemma PathHere(n: nat, k: nat)
    requires k < n
    ensures TraitAt(Paths(n), 6 * k, 0) == Some(TRAITS[6]) && Paths(n)[6 * k] == '<'
  {
    var s, i := Paths(n), 6 * k;
    PathsAt(n, k);
    assert s[i..] == "<path>" + Paths(n - k - 1);
    assert forall j :: 0 <= j < 6 ==> s[i + j] == s[i..][j];
    assert s[i..i + 6] == "<path>";
    hide TraitAt;
    OtherTag(s, i, "<int>"); OtherTag(s, i, "<uint>"); OtherTag(s, i, "<float>");
    OtherTag(s, i, "<double>"); OtherTag(s, i, "<str>"); OtherTag(s, i, "<string>");
    TraitsInOrder(s, i, 0); TraitsInOrder(s, i, 1); TraitsInOrder(s, i, 2); TraitsInOrder(s, i, 3);
    TraitsInOrder(s, i, 4); TraitsInOrder(s, i, 5); TraitsInOrder(s, i, 6);
  }

  lemma OtherTag(s: string, i: nat, name: string)
    requires i + 1 < |s| && |name| > 1 && s[i + 1] != name[1]
    ensures !StartsAt(s, i, name)
  {
    assert i + |name| <= |s| ==> s[i..i + |name|][1] == s[i + 1];
  }

  lemma PathsStep(n: nat, k: nat)
    requires k < n && WellFormed(Paths(n), 6 * (k + 1))
    ensures WellFormed(Paths(n), 6 * k)
    ensures Tokens(Paths(n), 6 * k) == [Param(PATH)] + Tokens(Paths(n), 6 * (k + 1))
  {
    hide TraitAt, StartsAt, Paths;
    PathHere(n, k);
    assert 6 * k + |TRAITS[6].name| == 6 * (k + 1);
  }

  lemma {:induction false} PathsParams(n: nat, k: nat)
    requires k <= n
    ensures WellFormed(Paths(n), 6 * k)
    ensures var ts := Params(Tokens(Paths(n), 6 * k)); ExactTag(ts) == Weight(n - k) - 1 && |ts| == n - k
    decreases n - k
  {
    if k < n {
      hide WellFormed, Tokens, Paths;
      PathsParams(n, k + 1);
      PathsStep(n, k);
      var p := Tokens(Paths(n), 6 * k);
      assert p[1..] == Tokens(Paths(n), 6 * (k + 1));
      assert Params(p) == [PATH] + Params(p[1..]);
      assert Params(p)[1..] == Params(p[1..]);
    }
  }

  // A rule of path parameters only: with 25 of them or more the handler's arguments are
  // not those of the rule.
  lemma PathsDecode(n: nat)
    ensures WellFormed(Paths(n), 0) && |Params(Tokens(Paths(n), 0))| == n && GetParameterTag(Paths(n), 0).Some?
    ensures Arguments(GetParameterTag(Paths(n), 0).value) == Some(Types(Params(Tokens(Paths(n), 0)))) <==> n <= 24
  {
    hide *;
    PathsParams(n, 0);
    RuleTagDecodes(Paths(n));
    if n >= 25 {
      WeightOf25();
      WeightGrows(25, n);
    }
  }

  // Handler calls --------------------------------------------------------

  function KindOf(c: Capture): ArgType {
    match c
    case CInt(_) => I64
    case CUint(_) => U64
    case CDouble(_) => F64
    case CString(_) => STR
  }

  // An argument: its type and its index in that type's capture vector.
  datatype CallPair = CallPair(t: ArgType, pos: nat)

  function CallPairs(ts: seq<ArgType>, nInt: nat, nUint: nat, nDouble: nat, nString: nat): (r: seq<CallPair>)
    ensures |r| == |ts|
  {
    if ts == [] then []
    else
      match ts[0]
      case I64 => [CallPair(I64, nInt)] + CallPairs(ts[1..], nInt + 1, nUint, nDouble, nString)
      case U64 => [CallPair(U64, nUint)] + CallPairs(ts[1..], nInt, nUint + 1, nDouble, nString)
      case F64 => [CallPair(F64, nDouble)] + CallPairs(ts[1..], nInt, nUint, nDouble + 1, nString)
      case STR => [CallPair(STR, nString)] + CallPairs(ts[1..], nInt, nUint, nDouble, nString + 1)
  }

  // params.get<T>(pos), None when pos is out of range.
  function Get(caps: Captures, p: CallPair): Option<Capture> {
    match p.t
    case I64 => if p.pos < |caps.ints| then Some(CInt(caps.ints[p.pos])) else None
    case U64 => if p.pos < |caps.uints| then Some(CUint(caps.uints[p.pos])) else None
    case F64 => if p.pos < |caps.doubles| then Some(CDouble(caps.doubles[p.pos])) else None
    case STR => if p.pos < |caps.strings| then Some(CString(caps.strings[p.pos])) else None
  }

  // What the pattern's parameters take from the URL, in the order of the rule.
  function Taken(sc: Scanners, p: Pattern, url: string, pos: nat): Option<seq<Capture>>
    requires sc.Valid() && pos <= |url|
    decreases |p|
  {
    if p == [] then if pos == |url| then Some([]) else None
    else if pos == |url| then None
    else
      match p[0]
      case Lit(c) => if url[pos] == c then Taken(sc, p[1..], url, pos + 1) else None
      case Param(t) =>
        match Take(sc, t, url, pos)
        case None => None
        case Some(piece) =>
          match Taken(sc, p[1..], url, piece.end)
          case None => None
          case Some(cs) => Some([piece.capture] + cs)
  }

  function PushAll(caps: Captures, cs: seq<Capture>): Captures
    decreases |cs|
  {
    if cs == [] then caps else PushAll(caps.Push(cs[0]), cs[1..])
  }

  lemma {:induction false} MatchPushesTaken(sc: Scanners, p: Pattern, url: string, pos: nat, caps: Captures)
    requires sc.Valid() && pos <= |url|
    ensures Match(sc, p, url, pos, caps) ==
            match Taken(sc, p, url, pos) case None => None case Some(cs) => Some(PushAll(caps, cs))
    decreases |p|
  {
    if p != [] && pos < |url| {
      match p[0]
      case Lit(c) => if url[pos] == c { MatchPushesTaken(sc, p[1..], url, pos + 1, caps); }
      case Param(t) =>
        match Take(sc, t, url, pos)
        case None =>
        case Some(piece) =>
          MatchPushesTaken(sc, p[1..], url, piece.end, caps.Push(piece.capture));
          if Taken(sc, p[1..], url, piece.end).Some? {
            var cs := Taken(sc, p[1..], url, piece.end).value;
            assert ([piece.capture] + cs)[1..] == cs;
          }
    }
  }

  ghost function Kinds(cs: seq<Capture>): (r: seq<ArgType>)
    ensures |r| == |cs|
  {
    seq(|cs|, i requires 0 <= i < |cs| => KindOf(cs[i]))
  }

  // Each parameter takes a value of its own type.
  lemma {:induction false} TakenHasTypes(sc: Scanners, p: Pattern, url: string, pos: nat)
    requires sc.Valid() && pos <= |url| && IsRulePattern(p)
    ensures Taken(sc, p, url, pos).Some? ==> Kinds(Taken(sc, p, url, pos).value) == Types(Params(p))
    decreases |p|
  {
    if p != [] && pos < |url| {
      assert p[0] in p && forall x :: x in p[1..] ==> x in p;
      match p[0]
      case Lit(c) => if url[pos] == c { TakenHasTypes(sc, p[1..], url, pos + 1); }
      case Param(t) =>
        match Take(sc, t, url, pos)
        case None =>
        case Some(piece) =>
          TakenHasTypes(sc, p[1..], url, piece.end);
          assert KindOf(piece.capture) == TypeOf(t);
          assert Types(Params(p)) == [TypeOf(t)] + Types(Params(p[1..]));
          if Taken(sc, p[1..], url, piece.end).Some? {
            var cs := Taken(sc, p[1..], url, piece.end).value;
            assert Kinds([piece.capture] + cs) == [KindOf(piece.capture)] + Kinds(cs);
          }
    }
  }

  ghost predicate Extends(a: Captures, b: Captures) {
    a.ints <= b.ints && a.uints <= b.uints && a.doubles <= b.doubles && a.strings <= b.strings
  }

  lemma {:induction false} PushAllExtends(caps: Captures, cs: seq<Capture>)
    ensures Extends(caps, PushAll(caps, cs))
    decreases |cs|
  {
    if cs != [] {
      var next := caps.Push(cs[0]);
      PushAllExtends(next, cs[1..]);
      assert Extends(caps, next);
    }
  }

  function Count(ts: seq<ArgType>, t: ArgType): nat {
    if ts == [] then 0 else (if ts[0] == t then 1 else 0) + Count(ts[1..], t)
  }

  // The pairs that the call template counts out when it starts from captures caps.
  function PairsFrom(caps: Captures, ts: seq<ArgType>): (r: seq<CallPair>)
    ensures |r| == |ts|
  {
    CallPairs(ts, |caps.ints|, |caps.uints|, |caps.doubles|, |caps.strings|)
  }

  lemma PairsStep(caps: Captures, c: Capture, ts: seq<ArgType>)
    requires ts != [] && ts[0] == KindOf(c)
    ensures PairsFrom(caps, ts)[1..] == PairsFrom(caps.Push(c), ts[1..])
    ensures Get(caps.Push(c), PairsFrom(caps, ts)[0]) == Some(c)
  {
    var rest := PairsFrom(caps.Push(c), ts[1..]);
    assert PairsFrom(caps, ts) == [PairsFrom(caps, ts)[0]] + rest;
  }

  lemma GetFromExtended(a: Captures, b: Captures, p: CallPair)
    requires Extends(a, b) && Get(a, p).Some?
    ensures Get(b, p) == Get(a, p)
  {
  }

  // The indices that the call template counts out pick the captures back in
  // order, and leave none over.
  lemma {:induction false} CallPicksAll(caps: Captures, cs: seq<Capture>)
    ensures forall i :: 0 <= i < |cs| ==> Get(PushAll(caps, cs), PairsFrom(caps, Kinds(cs))[i]) == Some(cs[i])
    decreases |cs|
  {
    if cs != [] {
      hide Get, CallPairs, PairsFrom, Extends;
      var next, ts := caps.Push(cs[0]), Kinds(cs);
      assert ts[1..] == Kinds(cs[1..]);
      PairsStep(caps, cs[0], ts);
      PushAllExtends(next, cs[1..]);
      GetFromExtended(next, PushAll(caps, cs), PairsFrom(caps, ts)[0]);
      CallPicksAll(next, cs[1..]);
      forall i | 0 <= i < |cs|
        ensures Get(PushAll(caps, cs), PairsFrom(caps, ts)[i]) == Some(cs[i])
      {
        if i > 0 {
          assert PairsFrom(caps, ts)[i] == PairsFrom(caps, ts)[1..][i - 1];
        }
      }
    }
  }

  lemma {:induction false} CallLeavesNone(caps: Captures, cs: seq<Capture>)
    ensures var r := PushAll(caps, cs);
            && |r.ints| == |caps.ints| + Count(Kinds(cs), I64) && |r.uints| == |caps.uints| + Count(Kinds(cs), U64)
            && |r.doubles| == |caps.doubles| + Count(Kinds(cs), F64) && |r.strings| == |caps.strings| + Count(Kinds(cs), STR)
    decreases |cs|
  {
    if cs != [] {
      assert Kinds(cs)[1..] == Kinds(cs[1..]);
      CallLeavesNone(caps.Push(cs[0]), cs[1..]);
    }
  }

  // Typed dispatch: whenever a rule matches, its tag decodes to the types of the captures
  // exactly if it fits 64 bits; then every capture that is indexed exists, and the handler
  // gets the captured values in the order of the rule.
  lemma DispatchIsTyped(sc: Scanners, s: string, url: string, caps: Captures)
    requires sc.Valid() && WellFormed(s, 0)
    requires Match(sc, Tokens(s, 0), url, 0, NOTHING) == Some(caps)
    ensures Taken(sc, Tokens(s, 0), url, 0).Some? && GetParameterTag(s, 0).Some?
    ensures var cs := Taken(sc, Tokens(s, 0), url, 0).value;
            var args := Arguments(GetParameterTag(s, 0).value);
            && (args == Some(Kinds(cs)) <==> ExactTag(Params(Tokens(s, 0))) < TWO64)
            && (args == Some(Kinds(cs)) ==>
                  && (forall i :: 0 <= i < |cs| ==> Get(caps, CallPairs(args.value, 0, 0, 0, 0)[i]) == Some(cs[i]))
                  && |caps.ints| == Count(args.value, I64) && |caps.uints| == Count(args.value, U64)
                  && |caps.doubles| == Count(args.value, F64) && |caps.strings| == Count(args.value, STR))
  {
    hide WellFormed, GetParameterTag, Tokens, Match, Taken, Params, Types, Kinds, Arguments, ExactTag;
    RuleTagDecodes(s);
    MatchPushesTaken(sc, Tokens(s, 0), url, 0, NOTHING);
    TakenHasTypes(sc, Tokens(s, 0), url, 0);
    CallPicksAll(NOTHING, Taken(sc, Tokens(s, 0), url, 0).value);
    CallLeavesNone(NOTHING, Taken(sc, Tokens(s, 0), url, 0).value);
  }
}
