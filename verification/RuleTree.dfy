/** The router's tree as a value: search, path compression and insertion, and what each means for the rules. */
module RuleTree {
  import opened Common
  import opened RoutePatterns

  const INVALID_BP_ID := 0xFFFF

  datatype Tree = Tree(ruleIndex: nat, blueprintIndex: nat, key: string, param: ParamType, kids: seq<Tree>) {
    ghost function Label(): Pattern {
      if param != MAX then [Param(param)] else Lits(key)
    }

    predicate IsSimple() {
      && ruleIndex == 0 && blueprintIndex == INVALID_BP_ID && |kids| < 2 && param == MAX
      && forall k | k in kids :: k.param == MAX
    }

    ghost predicate NonEmptyKeys() {
      forall k | k in kids :: k.Label() != [] && k.NonEmptyKeys()
    }
  }

  ghost function Prefixed(l: Pattern, es: seq<Entry>): (r: seq<Entry>)
    ensures |r| == |es|
    ensures forall i :: 0 <= i < |es| ==> r[i] == Entry(l + es[i].pattern, es[i].index)
  {
    seq(|es|, i requires 0 <= i < |es| => Entry(l + es[i].pattern, es[i].index))
  }

  // The rules in the subtree of t, in search order.
  ghost function Entries(t: Tree): seq<Entry>
    decreases t, 1
  {
    (if t.ruleIndex != 0 then [Entry([], t.ruleIndex)] else []) + EntriesOf(t.kids)
  }

  ghost function EntriesOf(ks: seq<Tree>): seq<Entry>
    decreases ks, 0
  {
    if ks == [] then [] else Prefixed(ks[0].Label(), Entries(ks[0])) + EntriesOf(ks[1..])
  }

  // Search ---------------------------------------------------------------

  datatype Position = Position(pos: nat, caps: Captures)

  // Where the search stands after passing the edge into t, if it can be passed.
  function Enter(sc: Scanners, t: Tree, url: string, pos: nat, caps: Captures): (r: Option<Position>)
    requires sc.Valid() && pos < |url|
    ensures r.Some? ==> pos <= r.value.pos <= |url|
  {
    if t.param != MAX then
      match Take(sc, t.param, url, pos)
      case None => None
      case Some(piece) => Some(Position(piece.end, caps.Push(piece.capture)))
    else if StartsAt(url, pos, t.key) then Some(Position(pos + |t.key|, caps))
    else None
  }

  function Find(sc: Scanners, t: Tree, url: string, pos: nat, caps: Captures): Found
    requires sc.Valid() && pos <= |url|
    decreases t, 1
  {
    if pos == |url| then Found(t.ruleIndex, caps) else FindIn(sc, t.kids, url, pos, caps)
  }

  function FindIn(sc: Scanners, ks: seq<Tree>, url: string, pos: nat, caps: Captures): Found
    requires sc.Valid() && pos < |url|
    decreases ks, 0
  {
    if ks == [] then Found(0, NOTHING)
    else
      var last := |ks| - 1;
      var best := FindIn(sc, ks[..last], url, pos, caps);
      match Enter(sc, ks[last], url, pos, caps)
      case None => best
      case Some(at) => Better(best, Find(sc, ks[last], url, at.pos, at.caps))
  }

  lemma {:induction false} LeastConcat(sc: Scanners, a: seq<Entry>, b: seq<Entry>, url: string, pos: nat, caps: Captures)
    requires sc.Valid() && pos <= |url|
    ensures Least(sc, a + b, url, pos, caps) == Better(Least(sc, a, url, pos, caps), Least(sc, b, url, pos, caps))
    decreases |b|
  {
    if b == [] {
      assert a + b == a;
    } else {
      var last := |b| - 1;
      assert (a + b)[..|a + b| - 1] == a + b[..last];
      LeastConcat(sc, a, b[..last], url, pos, caps);
    }
  }

  // Entries behind an edge match exactly when the edge can be passed.
  lemma {:induction false} LeastPrefixed(sc: Scanners, t: Tree, es: seq<Entry>, url: string, pos: nat, caps: Captures)
    requires sc.Valid() && pos < |url| && t.Label() != []
    ensures Least(sc, Prefixed(t.Label(), es), url, pos, caps) ==
            match Enter(sc, t, url, pos, caps)
            case None => Found(0, NOTHING)
            case Some(at) => Least(sc, es, url, at.pos, at.caps)
    decreases |es|
  {
    var ps := Prefixed(t.Label(), es);
    if es != [] {
      var last := |es| - 1;
      assert ps[..last] == Prefixed(t.Label(), es[..last]);
      LeastPrefixed(sc, t, es[..last], url, pos, caps);
      var rest := es[last].pattern;
      if t.param != MAX {
        assert ps[last].pattern[1..] == rest;
      } else {
        MatchLits(sc, t.key, rest, url, pos, caps);
      }
    }
  }

  lemma {:induction false} NothingAtTheEnd(sc: Scanners, es: seq<Entry>, url: string, caps: Captures)
    requires sc.Valid()
    requires forall e :: e in es ==> e.pattern != []
    ensures Least(sc, es, url, |url|, caps) == Found(0, NOTHING)
    decreases |es|
  {
    if es != [] {
      NothingAtTheEnd(sc, es[..|es| - 1], url, caps);
    }
  }

  lemma {:induction false} KidsNeedInput(ks: seq<Tree>)
    requires forall k :: k in ks ==> k.Label() != []
    ensures forall e :: e in EntriesOf(ks) ==> e.pattern != []
    decreases |ks|
  {
    if ks != [] {
      KidsNeedInput(ks[1..]);
    }
  }

  // The backtracking search is the plain scan over the subtree's rules.
  lemma {:induction false} FindIsLeast(sc: Scanners, t: Tree, url: string, pos: nat, caps: Captures)
    requires sc.Valid() && pos <= |url| && t.NonEmptyKeys()
    ensures Better(Found(0, NOTHING), Find(sc, t, url, pos, caps)) == Least(sc, Entries(t), url, pos, caps)
    ensures pos < |url| ==> Find(sc, t, url, pos, caps) == Least(sc, Entries(t), url, pos, caps)
    decreases t, 1
  {
    var own := if t.ruleIndex != 0 then [Entry([], t.ruleIndex)] else [];
    LeastConcat(sc, own, EntriesOf(t.kids), url, pos, caps);
    assert Least(sc, own, url, pos, caps) ==
           if t.ruleIndex != 0 && pos == |url| then Found(t.ruleIndex, caps) else Found(0, NOTHING) by {
      assert t.ruleIndex != 0 ==> own[..0] == [];
    }
    assert Entries(t) == own + EntriesOf(t.kids);
    if pos == |url| {
      KidsNeedInput(t.kids);
      NothingAtTheEnd(sc, EntriesOf(t.kids), url, caps);
    } else {
      FindInIsLeast(sc, t.kids, url, pos, caps);
    }
  }

  lemma {:induction false} EntriesOfLast(ks: seq<Tree>)
    requires ks != []
    ensures EntriesOf(ks) == EntriesOf(ks[..|ks| - 1]) + Prefixed(ks[|ks| - 1].Label(), Entries(ks[|ks| - 1]))
    decreases |ks|
  {
    if |ks| > 1 {
      EntriesOfLast(ks[1..]);
      assert ks[1..][..|ks| - 2] == ks[..|ks| - 1][1..];
    }
  }

  lemma {:induction false} FindInIsLeast(sc: Scanners, ks: seq<Tree>, url: string, pos: nat, caps: Captures)
    requires sc.Valid() && pos < |url|
    requires forall k :: k in ks ==> k.Label() != [] && k.NonEmptyKeys()
    ensures FindIn(sc, ks, url, pos, caps) == Least(sc, EntriesOf(ks), url, pos, caps)
    decreases ks, 0
  {
    if ks != [] {
      var last := ks[|ks| - 1];
      FindInIsLeast(sc, ks[..|ks| - 1], url, pos, caps);
      EntriesOfLast(ks);
      LeastConcat(sc, EntriesOf(ks[..|ks| - 1]), Prefixed(last.Label(), Entries(last)), url, pos, caps);
      LeastPrefixed(sc, last, Entries(last), url, pos, caps);
      match Enter(sc, last, url, pos, caps)
      case None =>
      case Some(at) => FindIsLeast(sc, last, url, at.pos, at.caps);
    }
  }

  // Path compression -----------------------------------------------------

  ghost function Size(t: Tree): nat
    decreases t, 1
  {
    1 + SizeOf(t.kids)
  }

  ghost function SizeOf(ks: seq<Tree>): nat
    decreases ks, 0
  {
    if ks == [] then 0 else SizeOf(ks[..|ks| - 1]) + Size(ks[|ks| - 1])
  }

  lemma {:induction false} MemberIsSmaller(ks: seq<Tree>, i: nat)
    requires i < |ks|
    ensures Size(ks[i]) <= SizeOf(ks)
    decreases |ks|
  {
    if i < |ks| - 1 {
      MemberIsSmaller(ks[..|ks| - 1], i);
    }
  }

  lemma KidIsSmaller(t: Tree, i: nat)
    requires i < |t.kids|
    ensures Size(t.kids[i]) < Size(t)
  {
    MemberIsSmaller(t.kids, i);
  }

  // A simple node takes over its only child's rule and children.
  function Merged(t: Tree): Tree
    requires |t.kids| == 1
  {
    var k := t.kids[0];
    t.(key := t.key + k.key, ruleIndex := k.ruleIndex, blueprintIndex := k.blueprintIndex, kids := k.kids)
  }

  function Optimized(t: Tree): Tree
    decreases Size(t), 1, 0
  {
    if t.kids == [] then t
    else if t.IsSimple() then
      assert t.kids[..0] == [] && SizeOf(t.kids) == Size(t.kids[0]);
      Optimized(Merged(t))
    else OptimizedHead(t)
  }

  function OptimizedAll(ks: seq<Tree>): (r: seq<Tree>)
    ensures |r| == |ks|
    decreases SizeOf(ks), 2, |ks|
  {
    if ks == [] then [] else OptimizedAll(ks[..|ks| - 1]) + [Optimized(ks[|ks| - 1])]
  }

  // Compressing one more child, left to right.
  ghost function OptimizedUpTo(ks: seq<Tree>, i: nat): (r: seq<Tree>)
    requires i <= |ks|
    ensures |r| == |ks|
  {
    OptimizedAll(ks[..i]) + ks[i..]
  }

  lemma OptimizedFromEndToEnd(t: Tree)
    ensures t.(kids := OptimizedUpTo(t.kids, 0)) == t
    ensures t.(kids := OptimizedUpTo(t.kids, |t.kids|)) == OptimizedHead(t)
  {
    assert t.kids[..0] == [] && t.kids[..|t.kids|] == t.kids;
  }

  lemma OptimizedOneMore(ks: seq<Tree>, i: nat)
    requires i < |ks|
    ensures OptimizedUpTo(ks, i)[i] == ks[i]
    ensures OptimizedUpTo(ks, i + 1) == OptimizedUpTo(ks, i)[i := Optimized(ks[i])]
  {
    assert ks[..i + 1][..i] == ks[..i];
    assert OptimizedAll(ks[..i + 1]) == OptimizedAll(ks[..i]) + [Optimized(ks[i])];
    assert OptimizedUpTo(ks, i + 1) == OptimizedUpTo(ks, i)[i := Optimized(ks[i])];
  }

  // The whole-tree step: every child of the head is compressed.
  function OptimizedHead(t: Tree): Tree
    decreases Size(t), 0, 0
  {
    t.(kids := OptimizedAll(t.kids))
  }

  lemma PrefixedTwice(a: Pattern, b: Pattern, es: seq<Entry>)
    ensures Prefixed(a, Prefixed(b, es)) == Prefixed(a + b, es)
  {
    forall i | 0 <= i < |es|
      ensures Prefixed(a, Prefixed(b, es))[i] == Prefixed(a + b, es)[i]
    {
      assert a + (b + es[i].pattern) == (a + b) + es[i].pattern;
    }
  }

  lemma MergedIsSmaller(t: Tree)
    requires t.IsSimple() && |t.kids| == 1
    ensures Size(Merged(t)) < Size(t)
    ensures t.NonEmptyKeys() ==> Merged(t).NonEmptyKeys()
    ensures t.Label() != [] ==> Merged(t).Label() != []
  {
    var k := t.kids[0];
    assert k in t.kids;
    assert t.kids[..0] == [] && SizeOf(t.kids) == Size(k);
    assert Size(Merged(t)) == Size(k);
    assert t.NonEmptyKeys() ==> k.NonEmptyKeys();
    assert Merged(t).NonEmptyKeys() <==> k.NonEmptyKeys();
    assert t.Label() != [] ==> Merged(t).Label()[0] == t.Label()[0];
  }

  lemma MergedKeepsEntries(t: Tree)
    requires t.IsSimple() && |t.kids| == 1
    ensures Prefixed(t.Label(), Entries(t)) == Prefixed(Merged(t).Label(), Entries(Merged(t)))
  {
    var k := t.kids[0];
    assert k in t.kids && k.param == MAX;
    assert Entries(t) == Prefixed(k.Label(), Entries(k)) by {
      assert t.kids[1..] == [];
      assert EntriesOf(t.kids) == Prefixed(k.Label(), Entries(k)) + [];
    }
    assert t.Label() + k.Label() == Merged(t).Label() by {
      assert Lits(t.key) + Lits(k.key) == Lits(t.key + k.key);
    }
    PrefixedTwice(t.Label(), k.Label(), Entries(k));
    assert Entries(Merged(t)) == Entries(k);
    assert Prefixed(t.Label(), Entries(t)) == Prefixed(Merged(t).Label(), Entries(Merged(t)));
  }

  // Compression changes no pattern and no index, nor their order.
  lemma {:induction false} OptimizedKeepsEntries(t: Tree)
    ensures Prefixed(Optimized(t).Label(), Entries(Optimized(t))) == Prefixed(t.Label(), Entries(t))
    ensures t.NonEmptyKeys() ==> Optimized(t).NonEmptyKeys()
    ensures t.Label() != [] ==> Optimized(t).Label() != []
    ensures Optimized(t).param == t.param
    decreases Size(t), 1, 0
  {
    if t.kids == [] {
    } else if t.IsSimple() {
      MergedIsSmaller(t);
      MergedKeepsEntries(t);
      OptimizedKeepsEntries(Merged(t));
    } else {
      OptimizedAllKeepsEntries(t.kids);
    }
  }

  lemma {:induction false} OptimizedAllKeepsEntries(ks: seq<Tree>)
    ensures EntriesOf(OptimizedAll(ks)) == EntriesOf(ks)
    ensures (forall k | k in ks :: k.Label() != [] && k.NonEmptyKeys()) ==>
            forall k | k in OptimizedAll(ks) :: k.Label() != [] && k.NonEmptyKeys()
    decreases SizeOf(ks), 2, |ks|
  {
    if ks != [] {
      OptimizedAllKeepsEntries(ks[..|ks| - 1]);
      OptimizedKeepsEntries(ks[|ks| - 1]);
      EntriesOfLast(ks);
      EntriesOfLast(OptimizedAll(ks));
      assert OptimizedAll(ks)[..|ks| - 1] == OptimizedAll(ks[..|ks| - 1]);
    }
  }

  // Path compression preserves what every search finds, captures included.
  lemma OptimizedFindsTheSame(sc: Scanners, t: Tree, url: string)
    requires sc.Valid() && t.NonEmptyKeys()
    ensures Find(sc, OptimizedHead(t), url, 0, NOTHING) == Find(sc, t, url, 0, NOTHING)
  {
    OptimizedAllKeepsEntries(t.kids);
    FindIsLeast(sc, t, url, 0, NOTHING);
    FindIsLeast(sc, OptimizedHead(t), url, 0, NOTHING);
  }

  // Insertion ------------------------------------------------------------

  // std::string gives NUL for the first character of an empty key.
  function FirstChar(key: string): char {
    if key == "" then '\0' else key[0]
  }

  predicate Fits(t: Tree, token: Token) {
    match token
    case Lit(c) => FirstChar(t.key) == c
    case Param(p) => t.param == p
  }

  function Seek(ks: seq<Tree>, token: Token): (k: nat)
    ensures k <= |ks|
    ensures k < |ks| ==> Fits(ks[k], token)
    ensures forall j :: 0 <= j < k ==> !Fits(ks[j], token)
  {
    if ks == [] || Fits(ks[0], token) then 0 else 1 + Seek(ks[1..], token)
  }

  datatype Blueprint = Blueprint(prefixLength: nat, index: nat)

  function NewTree(token: Token, i: nat, bp: Blueprint): Tree {
    match token
    case Lit(c) =>
      var hasBlueprint := bp.prefixLength != 0 && bp.index != INVALID_BP_ID;
      Tree(0, if hasBlueprint && i == bp.prefixLength then bp.index else INVALID_BP_ID, [c], MAX, [])
    case Param(p) => Tree(0, INVALID_BP_ID, "", p, [])
  }

  // The kids with the one at k put in place, at the end when k is one past it.
  function PutKid(ks: seq<Tree>, k: nat, kid: Tree): (r: seq<Tree>)
    requires k <= |ks|
    ensures |r| == if k < |ks| then |ks| else k + 1
    ensures forall j :: 0 <= j < |r| ==> r[j] == if j == k then kid else ks[j]
  {
    if k < |ks| then ks[k := kid] else ks + [kid]
  }

  lemma PutTwice(ks: seq<Tree>, k: nat, a: Tree, b: Tree)
    requires k <= |ks|
    ensures PutKid(PutKid(ks, k, a), k, b) == PutKid(ks, k, b)
    ensures k < |ks| ==> PutKid(ks, k, ks[k]) == ks
  {
  }

  // Insertion of a pattern below t, where starts says at which character of
  // the rule each token begins; None when the place already carries a rule.
  function Added(t: Tree, p: Pattern, starts: seq<nat>, ruleIndex: nat, bp: Blueprint): Option<Tree>
    requires |p| == |starts|
    decreases |p|
  {
    if p == [] then if t.ruleIndex != 0 then None else Some(t.(ruleIndex := ruleIndex))
    else
      var k := Seek(t.kids, p[0]);
      match Added(Host(t.kids, p[0], starts[0], bp), p[1..], starts[1..], ruleIndex, bp)
      case None => None
      case Some(sub) => Some(t.(kids := PutKid(t.kids, k, sub)))
  }

  // The kid that insertion descends into: the one that fits, or a new one.
  function Host(ks: seq<Tree>, token: Token, i: nat, bp: Blueprint): Tree {
    if Seek(ks, token) < |ks| then ks[Seek(ks, token)] else NewTree(token, i, bp)
  }

  // Insertion into a new kid never fails.
  lemma {:induction false} BareTreeAccepts(t: Tree, p: Pattern, starts: seq<nat>, ruleIndex: nat, bp: Blueprint)
    requires |p| == |starts| && t.ruleIndex == 0 && t.kids == []
    ensures Added(t, p, starts, ruleIndex, bp).Some?
    decreases |p|
  {
    if p != [] {
      BareTreeAccepts(NewTree(p[0], starts[0], bp), p[1..], starts[1..], ruleIndex, bp);
    }
  }

  // Insertion of a rule's text from character i on.
  function AddedText(t: Tree, url: string, i: nat, ruleIndex: nat, bp: Blueprint): Option<Tree>
    requires WellFormed(url, i)
  {
    Added(t, Tokens(url, i), Starts(url, i), ruleIndex, bp)
  }

  // One token of a pattern is one step down; only a step into a present kid can fail.
  lemma AddedFirst(t: Tree, token: Token, i: nat, p: Pattern, starts: seq<nat>, ruleIndex: nat, bp: Blueprint)
    requires |p| == |starts|
    ensures var k := Seek(t.kids, token);
            var sub := Added(Host(t.kids, token, i, bp), p, starts, ruleIndex, bp);
            var all := Added(t, [token] + p, [i] + starts, ruleIndex, bp);
            && (sub.None? ==> k < |t.kids| && Host(t.kids, token, i, bp) == t.kids[k] && all == None)
            && (sub.Some? ==> all == Some(t.(kids := PutKid(t.kids, k, sub.value))))
  {
    assert ([token] + p)[1..] == p && ([i] + starts)[1..] == starts;
    BareTreeAccepts(NewTree(token, i, bp), p, starts, ruleIndex, bp);
  }

  lemma TextStep(url: string, i: nat)
    requires WellFormed(url, i) && i < |url|
    ensures Tokens(url, i) == [NextToken(url, i).token] + Tokens(url, i + NextToken(url, i).width)
    ensures Starts(url, i) == [i] + Starts(url, i + NextToken(url, i).width)
  {
    hide WellFormed, NextToken;
  }

  lemma AddedStep(t: Tree, url: string, i: nat, ruleIndex: nat, bp: Blueprint, next: Next, sub: Option<Tree>)
    requires WellFormed(url, i) && i < |url| && next == NextToken(url, i)
    requires sub == AddedText(Host(t.kids, next.token, i, bp), url, i + next.width, ruleIndex, bp)
    ensures var k := Seek(t.kids, next.token);
            && (sub.None? ==> k < |t.kids| && Host(t.kids, next.token, i, bp) == t.kids[k]
                              && AddedText(t, url, i, ruleIndex, bp) == None)
            && (sub.Some? ==> AddedText(t, url, i, ruleIndex, bp) == Some(t.(kids := PutKid(t.kids, k, sub.value))))
  {
    hide WellFormed, NextToken, Tokens, Starts, Added;
    TextStep(url, i);
    AddedFirst(t, next.token, i, Tokens(url, i + next.width), Starts(url, i + next.width), ruleIndex, bp);
  }

  // Before compression every edge is one token, and siblings differ.
  ghost predicate Plain(ks: seq<Tree>) {
    && (forall k | k in ks :: PlainKid(k) && Plain(k.kids))
    && (forall i, j :: 0 <= i < j < |ks| ==> ks[i].Label() != ks[j].Label())
  }

  ghost predicate HasPattern(es: seq<Entry>, p: Pattern) {
    exists e :: e in es && e.pattern == p
  }

  lemma {:induction false} EntriesOfConcat(a: seq<Tree>, b: seq<Tree>)
    ensures EntriesOf(a + b) == EntriesOf(a) + EntriesOf(b)
    decreases |a|
  {
    if a == [] {
      assert a + b == b;
    } else {
      assert (a + b)[1..] == a[1..] + b;
      EntriesOfConcat(a[1..], b);
    }
  }

  lemma InPrefixed(l: Pattern, es: seq<Entry>, e: Entry)
    ensures e in Prefixed(l, es) <==> l <= e.pattern && Entry(e.pattern[|l|..], e.index) in es
  {
    if e in Prefixed(l, es) {
      var i :| 0 <= i < |es| && e == Prefixed(l, es)[i];
      assert e.pattern[|l|..] == es[i].pattern;
    }
    if l <= e.pattern && Entry(e.pattern[|l|..], e.index) in es {
      var i :| 0 <= i < |es| && Entry(e.pattern[|l|..], e.index) == es[i];
      assert l + es[i].pattern == e.pattern;
      assert Prefixed(l, es)[i] == e;
    }
  }

  lemma {:induction false} InEntriesOf(ks: seq<Tree>, e: Entry)
    ensures e in EntriesOf(ks) <==> exists k :: k in ks && e in Prefixed(k.Label(), Entries(k))
    decreases |ks|
  {
    if ks != [] {
      InEntriesOf(ks[1..], e);
      assert forall k :: k in ks <==> k == ks[0] || k in ks[1..];
    }
  }

  ghost predicate PlainKid(k: Tree) {
    if k.param == MAX then |k.key| == 1 && k.key[0] != '\0' else k.key == ""
  }

  lemma FitsIsLabel(k: Tree, token: Token)
    requires PlainKid(k) && token != Lit('\0') && token != Param(MAX)
    ensures Fits(k, token) <==> k.Label() == [token]
    ensures |k.Label()| == 1
  {
    assert k.Label()[0] == if k.param == MAX then Lit(k.key[0]) else Param(k.param);
  }

  // Only the kid that was sought fits the token.
  lemma OnlyOneFits(ks: seq<Tree>, token: Token, j: nat)
    requires Plain(ks) && j < |ks|
    requires token != Lit('\0') && token != Param(MAX)
    ensures |ks[j].Label()| == 1
    ensures ks[j].Label() == [token] <==> j == Seek(ks, token)
  {
    var k := Seek(ks, token);
    assert ks[j] in ks;
    FitsIsLabel(ks[j], token);
    if k < |ks| {
      assert ks[k] in ks;
      FitsIsLabel(ks[k], token);
    }
  }

  lemma PlainWithKid(ks: seq<Tree>, token: Token, kid: Tree)
    requires Plain(ks) && Plain(kid.kids) && PlainKid(kid) && kid.Label() == [token]
    requires token != Lit('\0') && token != Param(MAX)
    ensures Plain(PutKid(ks, Seek(ks, token), kid))
  {
    var k := Seek(ks, token);
    var rs := PutKid(ks, k, kid);
    forall x | x in rs
      ensures PlainKid(x) && Plain(x.kids)
    {
      var j :| 0 <= j < |rs| && rs[j] == x;
      assert j != k ==> x in ks;
    }
    forall i, j | 0 <= i < j < |rs|
      ensures rs[i].Label() != rs[j].Label()
    {
      if i == k {
        OnlyOneFits(ks, token, j);
      } else if j == k {
        OnlyOneFits(ks, token, i);
      }
    }
  }

  // Entries behind the kid's token are the kid's, all others are as before.
  lemma EntriesWithKid(ks: seq<Tree>, token: Token, kid: Tree, e: Entry)
    requires Plain(ks) && kid.Label() == [token]
    requires token != Lit('\0') && token != Param(MAX)
    ensures e in EntriesOf(PutKid(ks, Seek(ks, token), kid)) <==>
            if [token] <= e.pattern then Entry(e.pattern[1..], e.index) in Entries(kid)
            else e in EntriesOf(ks)
  {
    hide *;
    var k := Seek(ks, token);
    var rs := PutKid(ks, k, kid);
    InEntriesOf(rs, e);
    InEntriesOf(ks, e);
    InPrefixed([token], Entries(kid), e);
    assert rs[k] == kid;
    forall j | 0 <= j < |ks|
      ensures e in Prefixed(ks[j].Label(), Entries(ks[j])) ==> ([token] <= e.pattern <==> j == k)
    {
      OnlyOneFits(ks, token, j);
      InPrefixed(ks[j].Label(), Entries(ks[j]), e);
    }
    if x :| x in rs && e in Prefixed(x.Label(), Entries(x)) && x != kid {
      var j :| 0 <= j < |rs| && rs[j] == x;
      assert x == ks[j] && x in ks;
    }
    if x :| x in ks && e in Prefixed(x.Label(), Entries(x)) && !([token] <= e.pattern) {
      var j :| 0 <= j < |ks| && ks[j] == x;
      assert rs[j] == x;
    }
  }

  lemma FreshTree(token: Token, i: nat, bp: Blueprint)
    requires token != Lit('\0') && token != Param(MAX)
    ensures var n := NewTree(token, i, bp);
            PlainKid(n) && n.kids == [] && n.Label() == [token] && Entries(n) == []
  {
    var n := NewTree(token, i, bp);
    assert n.Label()[0] == token;
  }

  lemma HostFits(ks: seq<Tree>, token: Token, i: nat, bp: Blueprint)
    requires Plain(ks) && token != Lit('\0') && token != Param(MAX)
    ensures var h := Host(ks, token, i, bp); PlainKid(h) && Plain(h.kids) && h.Label() == [token]
  {
    if Seek(ks, token) < |ks| {
      assert Host(ks, token, i, bp) in ks;
      OnlyOneFits(ks, token, Seek(ks, token));
    } else {
      FreshTree(token, i, bp);
    }
  }

  lemma HostEntries(ks: seq<Tree>, token: Token, i: nat, bp: Blueprint, e: Entry)
    requires Plain(ks) && token != Lit('\0') && token != Param(MAX) && [token] <= e.pattern
    ensures e in EntriesOf(ks) <==> Entry(e.pattern[1..], e.index) in Entries(Host(ks, token, i, bp))
  {
    var h := Host(ks, token, i, bp);
    HostFits(ks, token, i, bp);
    EntriesWithKid(ks, token, h, e);
    if Seek(ks, token) < |ks| {
      assert PutKid(ks, Seek(ks, token), h) == ks;
    } else {
      FreshTree(token, i, bp);
      EntriesOfConcat(ks, [h]);
    }
  }

  lemma HostHasPattern(ks: seq<Tree>, token: Token, i: nat, bp: Blueprint, rest: Pattern)
    requires Plain(ks) && token != Lit('\0') && token != Param(MAX)
    ensures HasPattern(EntriesOf(ks), [token] + rest) <==> HasPattern(Entries(Host(ks, token, i, bp)), rest)
  {
    var p := [token] + rest;
    assert p[1..] == rest;
    forall e: Entry | e.pattern == p
      ensures e in EntriesOf(ks) <==> Entry(rest, e.index) in Entries(Host(ks, token, i, bp))
    {
      HostEntries(ks, token, i, bp, e);
    }
    if e :| e in Entries(Host(ks, token, i, bp)) && e.pattern == rest {
      assert Entry(p, e.index) in EntriesOf(ks);
    }
  }

  // es' is es, with one more entry if the index is not 0.
  ghost predicate Gains(es: seq<Entry>, es': seq<Entry>, p: Pattern, index: nat) {
    forall e :: e in es' <==> e in es || (index != 0 && e == Entry(p, index))
  }

  lemma KidGains(ks: seq<Tree>, token: Token, i: nat, bp: Blueprint, sub: Tree, rest: Pattern, index: nat)
    requires Plain(ks) && token != Lit('\0') && token != Param(MAX) && sub.Label() == [token]
    requires Gains(Entries(Host(ks, token, i, bp)), Entries(sub), rest, index)
    ensures Gains(EntriesOf(ks), EntriesOf(PutKid(ks, Seek(ks, token), sub)), [token] + rest, index)
  {
    forall e: Entry
      ensures e in EntriesOf(PutKid(ks, Seek(ks, token), sub)) <==>
              e in EntriesOf(ks) || (index != 0 && e == Entry([token] + rest, index))
    {
      EntriesWithKid(ks, token, sub, e);
      if [token] <= e.pattern {
        HostEntries(ks, token, i, bp, e);
        assert e.pattern == [token] + e.pattern[1..];
        assert ([token] + rest)[1..] == rest;
      }
    }
  }

  // Insertion fails exactly when the rule's pattern is already in the tree,
  // and otherwise adds that one entry (none for index 0).
  lemma {:induction false} AddedEntries(t: Tree, p: Pattern, starts: seq<nat>, ruleIndex: nat, bp: Blueprint)
    requires |p| == |starts| && IsRulePattern(p) && Plain(t.kids)
    ensures Added(t, p, starts, ruleIndex, bp).None? <==> HasPattern(Entries(t), p)
    ensures Added(t, p, starts, ruleIndex, bp).Some? ==>
              var a := Added(t, p, starts, ruleIndex, bp).value;
              && Plain(a.kids) && a.Label() == t.Label() && (PlainKid(t) ==> PlainKid(a))
              && Gains(Entries(t), Entries(a), p, ruleIndex)
    decreases |p|
  {
    if p == [] {
      AddedHere(t, ruleIndex);
    } else {
      var token, rest := p[0], p[1..];
      assert token in p && p == [token] + rest && forall x :: x in rest ==> x in p;
      var h := Host(t.kids, token, starts[0], bp);
      HostFits(t.kids, token, starts[0], bp);
      AddedEntries(h, rest, starts[1..], ruleIndex, bp);
      HostHasPattern(t.kids, token, starts[0], bp, rest);
      AboveOwn(t, p);
      match Added(h, rest, starts[1..], ruleIndex, bp)
      case None =>
      case Some(sub) =>
        PlainWithKid(t.kids, token, sub);
        KidGains(t.kids, token, starts[0], bp, sub, rest, ruleIndex);
        GainsAbove(t, PutKid(t.kids, Seek(t.kids, token), sub), p, ruleIndex);
    }
  }

  lemma GainsAbove(t: Tree, ks: seq<Tree>, p: Pattern, index: nat)
    requires Gains(EntriesOf(t.kids), EntriesOf(ks), p, index)
    ensures Gains(Entries(t), Entries(t.(kids := ks)), p, index)
  {
    var own := if t.ruleIndex != 0 then [Entry([], t.ruleIndex)] else [];
    assert Entries(t) == own + EntriesOf(t.kids);
    assert Entries(t.(kids := ks)) == own + EntriesOf(ks);
  }

  lemma AboveOwn(t: Tree, p: Pattern)
    requires p != []
    ensures HasPattern(Entries(t), p) <==> HasPattern(EntriesOf(t.kids), p)
  {
  }

  lemma AddedHere(t: Tree, ruleIndex: nat)
    requires Plain(t.kids)
    ensures t.ruleIndex != 0 <==> HasPattern(Entries(t), [])
    ensures t.ruleIndex == 0 ==>
              Gains(Entries(t), Entries(t.(ruleIndex := ruleIndex)), [], ruleIndex)
  {
    forall k | k in t.kids
      ensures k.Label() != []
    {
      FitsIsLabel(k, Lit('a'));
    }
    KidsNeedInput(t.kids);
    if t.ruleIndex != 0 {
      assert Entries(t)[0] == Entry([], t.ruleIndex);
    }
  }

  // The tree and the rules it holds --------------------------------------

  datatype Rule = Rule(text: string, index: nat)

  ghost predicate WellFormedRules(rules: seq<Rule>) {
    forall r :: r in rules ==> WellFormed(r.text, 0)
  }

  // The rules as patterns, in the order in which they were added.
  ghost function RuleList(rules: seq<Rule>): (r: seq<Entry>)
    requires WellFormedRules(rules)
    ensures |r| == |rules|
  {
    seq(|rules|, i requires 0 <= i < |rules| => Entry(Tokens(rules[i].text, 0), rules[i].index))
  }

  // The tree's rules are those of the list, apart from the ones with index 0.
  ghost predicate Holds(t: Tree, rules: seq<Rule>) {
    && WellFormedRules(rules) && t.NonEmptyKeys()
    && forall e :: e in Entries(t) <==> e.index != 0 && e in RuleList(rules)
  }

  lemma HoldsNothing(t: Tree)
    requires t.ruleIndex == 0 && t.kids == []
    ensures Holds(t, [])
  {
  }

  lemma {:induction false} PlainKeysAreNonEmpty(ks: seq<Tree>)
    requires Plain(ks)
    ensures forall k :: k in ks ==> k.Label() != [] && k.NonEmptyKeys()
    decreases ks
  {
    forall k | k in ks
      ensures k.Label() != [] && k.NonEmptyKeys()
    {
      FitsIsLabel(k, Lit('a'));
      PlainKeysAreNonEmpty(k.kids);
    }
  }

  lemma AddedHolds(t: Tree, rules: seq<Rule>, r: Rule, bp: Blueprint)
    requires Holds(t, rules) && Plain(t.kids) && WellFormed(r.text, 0)
    ensures AddedText(t, r.text, 0, r.index, bp).None? <==>
              exists e :: e in RuleList(rules) && e.index != 0 && e.pattern == Tokens(r.text, 0)
    ensures AddedText(t, r.text, 0, r.index, bp).Some? ==>
              && Holds(AddedText(t, r.text, 0, r.index, bp).value, rules + [r])
              && Plain(AddedText(t, r.text, 0, r.index, bp).value.kids)
  {
    AddedEntries(t, Tokens(r.text, 0), Starts(r.text, 0), r.index, bp);
    if AddedText(t, r.text, 0, r.index, bp).Some? {
      PlainKeysAreNonEmpty(AddedText(t, r.text, 0, r.index, bp).value.kids);
      assert RuleList(rules + [r]) == RuleList(rules) + [Entry(Tokens(r.text, 0), r.index)];
    }
  }

  lemma OptimizedHolds(t: Tree, rules: seq<Rule>)
    requires Holds(t, rules)
    ensures Holds(OptimizedHead(t), rules)
  {
    OptimizedAllKeepsEntries(t.kids);
  }

  lemma {:induction false} SameRulesSameLeast(sc: Scanners, es: seq<Entry>, rules: seq<Entry>, url: string, f: Found)
    requires sc.Valid() && IsLeast(sc, es, url, f)
    requires forall e :: e in es <==> e.index != 0 && e in rules
    ensures IsLeast(sc, rules, url, f)
  {
    if f.index != 0 {
      var e :| e in es && e.index == f.index && Match(sc, e.pattern, url, 0, NOTHING) == Some(f.caps);
      assert e in rules;
    }
  }

  // What the search finds is the least matching rule of the list.
  lemma FoundIsLeast(sc: Scanners, t: Tree, rules: seq<Rule>, url: string)
    requires sc.Valid() && Holds(t, rules)
    ensures IsLeast(sc, RuleList(rules), url, Find(sc, t, url, 0, NOTHING))
  {
    hide Match, Entries, RuleList;
    FindIsLeast(sc, t, url, 0, NOTHING);
    ScanFindsLeast(sc, Entries(t), url);
    SameRulesSameLeast(sc, Entries(t), RuleList(rules), url, Least(sc, Entries(t), url, 0, NOTHING));
  }
}
