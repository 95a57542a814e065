/** Looking pairs up by name, and the round trip of a query string. */
module QueryLookup {
  import opened Common
  import opened QueryString

  // Comparing names ------------------------------------------------------------

  function Rest(s: seq<byte>, k: nat): seq<byte> {
    if k <= |s| then s[k..] else []
  }

  // The next character as qs_strncmp sees it, and the bytes it takes. What lies behind the
  // end of a string counts as NUL.
  function Unit(s: seq<byte>): (r: (byte, nat)) {
    var c := Peek(s, 0);
    if !IsQs(c) then (0, 1)
    else if c == PLUS then (SPACE, 1)
    else if c == PERCENT then
      (if IsHex(Peek(s, 1)) && IsHex(Peek(s, 2)) then HexValue(Peek(s, 1)) * 16 + HexValue(Peek(s, 2)) else 0, 3)
    else (c, 1)
  }

  // qs_strncmp(s, q, n) == 0
  predicate Matches(s: seq<byte>, q: seq<byte>, n: nat)
    decreases n
  {
    if n == 0 then !IsQs(Peek(q, 0))
    else
      var (u1, k1) := Unit(s);
      var (u2, k2) := Unit(q);
      u1 == u2 && (u1 == 0 || Matches(Rest(s, k1), Rest(q, k2), n - 1))
  }

  method Strncmp(s: seq<byte>, q: seq<byte>, n: nat) returns (equal: bool)
    ensures equal == Matches(s, q, n)
  {
    hide Unit;
    var i: nat, j: nat, left: nat := 0, 0, n;
    while left > 0
      invariant Matches(s, q, n) == Matches(Rest(s, i), Rest(q, j), left)
      decreases left
    {
      var (u1, k1) := Unit(Rest(s, i));
      var (u2, k2) := Unit(Rest(q, j));
      i, j, left := i + k1, j + k2, left - 1;
      if u1 != u2 {
        return false;
      }
      if u1 == 0 {
        return true;
      }
    }
    equal := !IsQs(Peek(Rest(q, j), 0));
  }

  // Lookup ----------------------------------------------------------------------

  // The value of a pair: behind the first "=", or nothing.
  function ValueStart(pair: seq<byte>): (k: nat)
    ensures k <= |pair|
  {
    var skip := Span(pair, [EQUALS]);
    if skip < |pair| then skip + 1 else skip
  }

  // qs_k2v: the nth pair with a name.
  function Lookup(pairs: seq<seq<byte>>, name: seq<byte>, nth: nat): (r: Option<nat>)
    ensures r.Some? ==> r.value < |pairs|
    decreases |pairs|
  {
    if pairs == [] then None
    else if Matches(name, pairs[0], |name|) then
      if nth == 0 then Some(0) else Later(Lookup(pairs[1..], name, nth - 1))
    else Later(Lookup(pairs[1..], name, nth))
  }

  function Later(r: Option<nat>): Option<nat> {
    match r case None => None case Some(k) => Some(k + 1)
  }

  // The strings that the pairs are, as they lie in the buffer.
  ghost function PairsIn(b: seq<byte>, kv: seq<nat>): (r: seq<seq<byte>>)
    requires forall i :: 0 <= i < |kv| ==> kv[i] <= |b|
    ensures |r| == |kv|
  {
    seq(|kv|, i requires 0 <= i < |kv| => CString(b[kv[i]..]))
  }

  // A query string: the buffer, and where its pairs start.
  class Query {
    const buf: array<byte>
    var kv: seq<nat>

    ghost predicate Valid()
      reads this, buf
    {
      forall i :: 0 <= i < |kv| ==> kv[i] < buf.Length
    }

    constructor (url: seq<byte>)
      ensures Valid() && fresh(buf)
      ensures var t := CString(url);
              && kv == (if url == [] then [] else AllStarts(t))
              && forall i :: 0 <= i < |kv| ==> kv[i] <= |t| && PairAt(buf[..], t, kv[i])
    {
      hide Span, AllStarts, PairText, EndOf, CString, PairAt;
      var b := new byte[|url| + 1];
      for i := 0 to |url|
        invariant b[..i] == url[..i]
      {
        b[i] := url[i];
      }
      b[|url|] := 0;
      assert b[..] == url + [0];
      CStringHolds(url);
      var starts: seq<nat> := [];
      if url != [] {
        starts := Parse(b, CString(url));
      }
      StartsInside(b[..], CString(url), starts);
      buf := b;
      kv := starts;
    }

    // qs_k2v
    method K2v(name: seq<byte>, n: nat) returns (p: Option<nat>)
      requires Valid()
      ensures match Lookup(PairsIn(buf[..], kv), name, n)
              case None => p == None
              case Some(i) => p == Some(kv[i] + ValueStart(PairsIn(buf[..], kv)[i]))
    {
      hide Matches, CString, Span, ValueStart;
      var nth: nat := n;
      ghost var pairs := PairsIn(buf[..], kv);
      assert pairs[0..] == pairs;
      for i := 0 to |kv|
        invariant Lookup(pairs, name, n) == Shifted(i, Lookup(pairs[i..], name, nth))
      {
        var pair := CString(buf[..][kv[i]..]);
        assert pairs[i..][0] == pair && pairs[i..][1..] == pairs[i + 1..];
        var equal := Strncmp(name, pair, |name|);
        if equal {
          if nth == 0 {
            return Some(kv[i] + ValueStart(pair));
          }
          nth := nth - 1;
        }
      }
      p := None;
    }

    method Get(name: seq<byte>) returns (p: Option<nat>)
      requires Valid()
      ensures match Lookup(PairsIn(buf[..], kv), name, 0)
              case None => p == None
              case Some(i) => p == Some(kv[i] + ValueStart(PairsIn(buf[..], kv)[i]))
    {
      p := K2v(name, 0);
    }

    // get_list without brackets: one lookup after the other.
    method GetList(name: seq<byte>) returns (ps: seq<nat>)
      requires Valid()
      ensures ps == Found(kv, PairsIn(buf[..], kv), name, 0)
    {
      hide Lookup, PairsIn, ValueStart, Found;
      ps := [];
      var count: nat := 0;
      LookupEnds(PairsIn(buf[..], kv), name, |kv|);
      while true
        invariant count <= |kv| && ps + Found(kv, PairsIn(buf[..], kv), name, count) == Found(kv, PairsIn(buf[..], kv), name, 0)
        decreases |kv| - count
      {
        LookupEnds(PairsIn(buf[..], kv), name, count);
        var p := K2v(name, count);
        FoundNext(kv, PairsIn(buf[..], kv), name, count);
        if p.None? {
          return;
        }
        ps := ps + [p.value];
        count := count + 1;
      }
    }
  }

  function Shifted(i: nat, r: Option<nat>): Option<nat> {
    match r case None => None case Some(k) => Some(i + k)
  }

  // All pointers that lookups give, from the nth on.
  function Found(kv: seq<nat>, pairs: seq<seq<byte>>, name: seq<byte>, nth: nat): seq<nat>
    requires |kv| == |pairs|
    decreases |pairs| + 1 - nth
  {
    if nth > |pairs| then []
    else
      match Lookup(pairs, name, nth)
      case None => []
      case Some(i) => [kv[i] + ValueStart(pairs[i])] + Found(kv, pairs, name, nth + 1)
  }

  lemma FoundNext(kv: seq<nat>, pairs: seq<seq<byte>>, name: seq<byte>, nth: nat)
    requires |kv| == |pairs| && nth <= |pairs|
    ensures Found(kv, pairs, name, nth) ==
            match Lookup(pairs, name, nth)
            case None => []
            case Some(i) => [kv[i] + ValueStart(pairs[i])] + Found(kv, pairs, name, nth + 1)
  {
    hide Lookup, ValueStart;
  }

  // There are no more matches than pairs.
  lemma {:induction false} LookupEnds(pairs: seq<seq<byte>>, name: seq<byte>, nth: nat)
    ensures nth >= |pairs| ==> Lookup(pairs, name, nth) == None
    ensures Lookup(pairs, name, nth).Some? ==> Lookup(pairs, name, nth).value < |pairs|
    decreases |pairs|
  {
    hide Matches;
    if pairs != [] {
      LookupEnds(pairs[1..], name, nth);
      if nth > 0 {
        LookupEnds(pairs[1..], name, nth - 1);
      }
    }
  }

  lemma CStringHolds(url: seq<byte>)
    ensures Holds(url + [0], CString(url))
  {
    var t := CString(url);
    assert (url + [0])[..|t|] == url[..|t|];
  }

  lemma StartsInside(b: seq<byte>, t: seq<byte>, kv: seq<nat>)
    requires |t| < |b| && forall i :: 0 <= i < |kv| ==> kv[i] <= |t|
    ensures forall i :: 0 <= i < |kv| ==> kv[i] < |b|
  {
  }
}
