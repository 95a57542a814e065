/** What a route rule means: its tokens, and how it matches a URL from left to right. */
module RoutePatterns {
  import opened Common

  // MAX marks a node or trait without a parameter.
  datatype ParamType = INT | UINT | DOUBLE | STRING | PATH | MAX

  datatype Token = Lit(c: char) | Param(t: ParamType)

  type Pattern = seq<Token>

  // A double is known by its bit pattern only: the model never computes with it.
  datatype Double = Double(bits: bv64)

  datatype Capture = CInt(i: int) | CUint(u: nat) | CDouble(d: Double) | CString(s: string)

  datatype Captures = Captures(ints: seq<int>, uints: seq<nat>, doubles: seq<Double>, strings: seq<string>) {
    function Push(c: Capture): Captures {
      match c
      case CInt(i) => this.(ints := ints + [i])
      case CUint(u) => this.(uints := uints + [u])
      case CDouble(d) => this.(doubles := doubles + [d])
      case CString(s) => this.(strings := strings + [s])
    }
  }

  const NOTHING := Captures([], [], [], [])

  // The answer of strtoll, strtoull or strtod started at a position.
  datatype Scan<V> = Scan(value: V, end: nat, outOfRange: bool)

  // The three C library scanners, as given functions of a string and a start.
  datatype Scanners = Scanners(ll: (string, nat) -> Scan<int>, ull: (string, nat) -> Scan<nat>,
                               dbl: (string, nat) -> Scan<Double>)
  {
    // A scanner never runs backwards or past the terminating NUL.
    ghost predicate Valid() {
      forall url: string, p: nat | p <= |url| ::
        p <= ll(url, p).end <= |url| && p <= ull(url, p).end <= |url| && p <= dbl(url, p).end <= |url|
    }
  }

  predicate IsDigit(c: char) { '0' <= c <= '9' }

  datatype Piece = Piece(end: nat, capture: Capture)

  function NextSlash(url: string, pos: nat): (e: nat)
    requires pos <= |url|
    ensures pos <= e <= |url|
    ensures forall k :: pos <= k < e ==> url[k] != '/'
    ensures e < |url| ==> url[e] == '/'
    decreases |url| - pos
  {
    if pos == |url| || url[pos] == '/' then pos else NextSlash(url, pos + 1)
  }

  function Scanned<V>(s: Scan<V>, pos: nat, wrap: V -> Capture): (r: Option<Piece>)
    ensures r.Some? <==> !s.outOfRange && s.end != pos
    ensures r.Some? ==> r.value == Piece(s.end, wrap(s.value))
  {
    if !s.outOfRange && s.end != pos then Some(Piece(s.end, wrap(s.value))) else None
  }

  // The piece of the URL that a parameter of type t takes at pos, if any.
  function Take(sc: Scanners, t: ParamType, url: string, pos: nat): (r: Option<Piece>)
    requires sc.Valid() && pos < |url|
    ensures r.Some? ==> pos < r.value.end <= |url|
  {
    var c := url[pos];
    match t
    case INT =>
      if IsDigit(c) || c == '+' || c == '-' then Scanned(sc.ll(url, pos), pos, v => CInt(v)) else None
    case UINT =>
      if IsDigit(c) || c == '+' then Scanned(sc.ull(url, pos), pos, v => CUint(v)) else None
    case DOUBLE =>
      if IsDigit(c) || c == '+' || c == '-' || c == '.'
      then Scanned(sc.dbl(url, pos), pos, v => CDouble(v)) else None
    case STRING =>
      var e := NextSlash(url, pos);
      if e != pos then Some(Piece(e, CString(url[pos..e]))) else None
    case PATH => Some(Piece(|url|, CString(url[pos..])))
    case MAX => None
  }

  // Matching the whole rest of the URL against a pattern, left to right; each
  // parameter is greedy, and nothing matches at the end of the URL.
  function Match(sc: Scanners, p: Pattern, url: string, pos: nat, caps: Captures): Option<Captures>
    requires sc.Valid() && pos <= |url|
    decreases |p|
  {
    if p == [] then if pos == |url| then Some(caps) else None
    else if pos == |url| then None
    else
      match p[0]
      case Lit(c) => if url[pos] == c then Match(sc, p[1..], url, pos + 1, caps) else None
      case Param(t) =>
        match Take(sc, t, url, pos)
        case None => None
        case Some(piece) => Match(sc, p[1..], url, piece.end, caps.Push(piece.capture))
  }

  function Lits(key: string): (p: Pattern)
    ensures |p| == |key|
    ensures forall k :: 0 <= k < |key| ==> p[k] == Lit(key[k])
  {
    seq(|key|, i requires 0 <= i < |key| => Lit(key[i]))
  }

  predicate StartsAt(url: string, pos: nat, key: string) {
    pos + |key| <= |url| && url[pos..pos + |key|] == key
  }

  // A compressed literal edge is passed exactly when the URL continues with its key.
  lemma {:induction false} MatchLits(sc: Scanners, key: string, rest: Pattern, url: string, pos: nat, caps: Captures)
    requires sc.Valid() && pos <= |url|
    ensures Match(sc, Lits(key) + rest, url, pos, caps) ==
            (if StartsAt(url, pos, key) then Match(sc, rest, url, pos + |key|, caps) else None)
    decreases |key|
  {
    if key == "" {
      assert Lits(key) + rest == rest;
    } else {
      var p := Lits(key) + rest;
      assert p[0] == Lit(key[0]);
      assert p[1..] == Lits(key[1..]) + rest;
      if pos < |url| && url[pos] == key[0] {
        MatchLits(sc, key[1..], rest, url, pos + 1, caps);
        assert StartsAt(url, pos, key) <==> StartsAt(url, pos + 1, key[1..]) by {
          if StartsAt(url, pos + 1, key[1..]) {
            assert url[pos..pos + |key|] == [url[pos]] + url[pos + 1..pos + |key|];
          }
          if StartsAt(url, pos, key) {
            assert url[pos + 1..pos + |key|] == url[pos..pos + |key|][1..];
          }
        }
      }
    }
  }

  // Rule strings ---------------------------------------------------------

  datatype Trait = Trait(t: ParamType, name: string)

  const TRAITS: seq<Trait> := [
    Trait(INT, "<int>"), Trait(UINT, "<uint>"), Trait(DOUBLE, "<float>"), Trait(DOUBLE, "<double>"),
    Trait(STRING, "<str>"), Trait(STRING, "<string>"), Trait(PATH, "<path>")]

  // The first trait, from k on, whose name stands at i.
  function TraitAt(url: string, i: nat, k: nat): (r: Option<Trait>)
    requires k <= |TRAITS|
    ensures r.Some? ==> StartsAt(url, i, r.value.name) && r.value.t != MAX && 0 < |r.value.name|
    decreases i, |TRAITS| - k
  {
    if k == |TRAITS| then None
    else if StartsAt(url, i, TRAITS[k].name) then Some(TRAITS[k])
    else TraitAt(url, i, k + 1)
  }

  // Every '<' opens a known parameter tag, and there is no NUL (rules are C strings).
  predicate WellFormed(rule: string, i: nat)
    decreases |rule| - i
  {
    i <= |rule| &&
    (i == |rule| ||
     if rule[i] == '<'
     then TraitAt(rule, i, 0).Some? && WellFormed(rule, i + |TraitAt(rule, i, 0).value.name|)
     else rule[i] != '\0' && WellFormed(rule, i + 1))
  }

  // The token that starts at i and its width in characters.
  datatype Next = Next(token: Token, width: nat)

  function NextToken(rule: string, i: nat): (n: Next)
    requires WellFormed(rule, i) && i < |rule|
    ensures 0 < n.width && WellFormed(rule, i + n.width)
    ensures n.token != Lit('\0') && n.token != Param(MAX)
  {
    if rule[i] == '<' then
      var x := TraitAt(rule, i, 0).value;
      Next(Param(x.t), |x.name|)
    else Next(Lit(rule[i]), 1)
  }

  function Tokens(rule: string, i: nat): (p: Pattern)
    requires WellFormed(rule, i)
    ensures IsRulePattern(p)
    decreases |rule| - i
  {
    if i == |rule| then [] else [NextToken(rule, i).token] + Tokens(rule, i + NextToken(rule, i).width)
  }

  predicate IsRulePattern(p: Pattern) {
    forall t :: t in p ==> t != Lit('\0') && t != Param(MAX)
  }

  // The character at which each token starts.
  function Starts(rule: string, i: nat): (r: seq<nat>)
    requires WellFormed(rule, i)
    ensures |r| == |Tokens(rule, i)|
    decreases |rule| - i
  {
    if i == |rule| then [] else [i] + Starts(rule, i + NextToken(rule, i).width)
  }

  // The plain scan over a rule list --------------------------------------

  // A rule as the router knows it: a pattern and an index. Index 0 only
  // prepares the tree (a blueprint's prefix); it never matches.
  datatype Entry = Entry(pattern: Pattern, index: nat)

  datatype Found = Found(index: nat, caps: Captures)

  // update_found: a smaller non-zero index wins, the first one on a tie.
  function Better(a: Found, b: Found): Found {
    if b.index != 0 && (a.index == 0 || b.index < a.index) then b else a
  }

  function Least(sc: Scanners, es: seq<Entry>, url: string, pos: nat, caps: Captures): (f: Found)
    requires sc.Valid() && pos <= |url|
    ensures f.index == 0 ==> f == Found(0, NOTHING)
  {
    if es == [] then Found(0, NOTHING)
    else
      var last := es[|es| - 1];
      var best := Least(sc, es[..|es| - 1], url, pos, caps);
      match Match(sc, last.pattern, url, pos, caps)
      case None => best
      case Some(c) => Better(best, Found(last.index, c))
  }

  // The found index is the least one that matches, with the captures of a rule
  // that carries it; it is 0, without captures, exactly when no rule matches.
  ghost predicate IsLeast(sc: Scanners, es: seq<Entry>, url: string, f: Found)
    requires sc.Valid()
  {
    && (f.index == 0 ==> f.caps == NOTHING)
    && (f.index != 0 ==> exists e :: e in es && e.index == f.index && Match(sc, e.pattern, url, 0, NOTHING) == Some(f.caps))
    && (forall e :: e in es && e.index != 0 && Match(sc, e.pattern, url, 0, NOTHING).Some? ==> 0 < f.index <= e.index)
  }

  lemma {:induction false} ScanFindsLeast(sc: Scanners, es: seq<Entry>, url: string)
    requires sc.Valid()
    ensures IsLeast(sc, es, url, Least(sc, es, url, 0, NOTHING))
  {
    if es != [] {
      var init := es[..|es| - 1];
      assert es == init + [es[|es| - 1]];
      ScanFindsLeast(sc, init, url);
    }
  }

  // The answer is the plain scan's; captures too, unless two rules share the
  // found index (as rules may share index 1, the slash redirect).
  lemma LeastIsUnique(sc: Scanners, es: seq<Entry>, url: string, f: Found)
    requires sc.Valid() && IsLeast(sc, es, url, f)
    ensures f.index == Least(sc, es, url, 0, NOTHING).index
    ensures (forall d, e :: d in es && e in es && d.index == e.index == f.index ==> d == e)
            ==> f == Least(sc, es, url, 0, NOTHING)
  {
    ScanFindsLeast(sc, es, url);
  }
}
