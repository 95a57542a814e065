/** A query string made of pairs gives them back. */
module QueryRoundTrip {
  import opened Common
  import opened QueryString
  import opened QueryLookup

  // A key and the text of its value.
  datatype Pair = Pair(key: seq<byte>, text: seq<byte>)

  // Section 2.3 of RFC 3986.
  predicate Unreserved(b: byte) {
    '0' as int <= b <= '9' as int || 'A' as int <= b <= 'Z' as int || 'a' as int <= b <= 'z' as int
    || b == '-' as int || b == '.' as int || b == '_' as int || b == '~' as int
  }

  ghost predicate AllUnreserved(s: seq<byte>) {
    forall i :: 0 <= i < |s| ==> Unreserved(s[i])
  }

  // The text of a value: no separators, and two digits after every percent sign.
  predicate WellFormed(s: seq<byte>) {
    s == [] ||
    (IsQs(s[0]) &&
     if s[0] == PERCENT then |s| >= 3 && IsHex(s[1]) && IsHex(s[2]) && WellFormed(s[3..]) else WellFormed(s[1..]))
  }

  ghost predicate PlainPair(p: Pair) {
    p.key != [] && AllUnreserved(p.key) && WellFormed(p.text) && 0 !in Decoded(p.text)
  }

  function SegmentOf(p: Pair): seq<byte> { p.key + [EQUALS] + p.text }

  function StringFor(p: Pair): seq<byte> { p.key + [EQUALS] + Decoded(p.text) }

  function QueryText(ps: seq<Pair>): seq<byte> {
    if ps == [] then []
    else if |ps| == 1 then SegmentOf(ps[0])
    else SegmentOf(ps[0]) + [AMP] + QueryText(ps[1..])
  }

  // Percent-encoding: section 2.1 of RFC 3986 -----------------------------------

  function HexDigit(n: nat): byte
    requires n < 16
  {
    if n < 10 then 48 + n else 55 + n
  }

  function Encoded(v: seq<byte>): seq<byte> {
    if v == [] then []
    else (if Unreserved(v[0]) then [v[0]] else [PERCENT, HexDigit(v[0] / 16), HexDigit(v[0] % 16)]) + Encoded(v[1..])
  }

  lemma HexRoundTrip(b: byte)
    ensures var h, l := HexDigit(b / 16), HexDigit(b % 16);
            IsHex(h) && IsHex(l) && HexValue(h) * 16 + HexValue(l) == b
  {
  }

  lemma UnreservedIsPlain(b: byte)
    requires Unreserved(b)
    ensures IsQs(b) && b != PERCENT && b != PLUS && b != QUESTION && b != 0
  {
  }

  lemma EncodedUnit(s: seq<byte>, b: byte)
    ensures Unreserved(b) ==> WellFormed([b] + s) == WellFormed(s) && Decoded([b] + s) == [b] + Decoded(s)
    ensures var x := [PERCENT, HexDigit(b / 16), HexDigit(b % 16)] + s;
            WellFormed(x) == WellFormed(s) && Decoded(x) == [b] + Decoded(s)
  {
    hide HexDigit, HexValue, IsHex;
    HexRoundTrip(b);
    assert ([b] + s)[1..] == s;
    assert ([PERCENT, HexDigit(b / 16), HexDigit(b % 16)] + s)[3..] == s;
  }

  // Whatever bytes a value has, encoding it and decoding it gives them back.
  lemma {:induction false} EncodingRoundTrip(v: seq<byte>)
    ensures WellFormed(Encoded(v)) && Decoded(Encoded(v)) == v
  {
    hide HexDigit, WellFormed, Decoded, Unreserved;
    Nothing();
    if v != [] {
      EncodingRoundTrip(v[1..]);
      EncodedUnit(Encoded(v[1..]), v[0]);
      assert v == [v[0]] + v[1..];
    }
  }

  lemma Nothing()
    ensures WellFormed([]) && Decoded([]) == []
  {
  }

  // The segments --------------------------------------------------------------------

  lemma {:induction false} TextIsQuiet(s: seq<byte>)
    requires WellFormed(s)
    ensures forall i :: 0 <= i < |s| ==> IsQs(s[i])
    decreases |s|
  {
    hide Decoded;
    if s != [] {
      var k := if s[0] == PERCENT then 3 else 1;
      TextIsQuiet(s[k..]);
      forall i | 0 <= i < |s|
        ensures IsQs(s[i])
      {
        if i >= k {
          assert s[i] == s[k..][i - k];
        }
      }
    }
  }

  // No separator but one "=" in a pair.
  lemma SegmentChars(p: Pair)
    requires PlainPair(p)
    ensures forall i :: 0 <= i < |SegmentOf(p)| ==> SegmentOf(p)[i] != AMP && SegmentOf(p)[i] != 0
    ensures Span(SegmentOf(p), [EQUALS, AMP, HASH]) == |p.key|
    ensures PairText(SegmentOf(p)) == StringFor(p)
  {
    hide Decoded, Span, Unreserved, WellFormed;
    var s := SegmentOf(p);
    TextIsQuiet(p.text);
    forall i | 0 <= i < |p.key|
      ensures IsQs(s[i])
    {
      UnreservedIsPlain(p.key[i]);
    }
    forall i | |p.key| < i < |s|
      ensures IsQs(s[i])
    {
      assert s[i] == p.text[i - |p.key| - 1];
    }
    SpanIs(s, [EQUALS, AMP, HASH], |p.key|);
    assert s[..|p.key| + 1] == p.key + [EQUALS] && s[|p.key| + 1..] == p.text;
  }

  lemma EndsAt(t: seq<byte>, from: nat, p: Pair, more: seq<byte>)
    requires from <= |t| && PlainPair(p) && t[from..] == SegmentOf(p) + more && (more != [] ==> more[0] == AMP)
    ensures EndOf(t, from) == from + |SegmentOf(p)| && Segment(t, from) == SegmentOf(p)
  {
    hide Span, SegmentOf, PlainPair;
    SegmentChars(p);
    SpanIs(t[from..], [AMP], |SegmentOf(p)|);
    var end := from + |SegmentOf(p)|;
    assert t[from..end] == t[from..][..|SegmentOf(p)|];
  }

  ghost predicate AreSegments(t: seq<byte>, r: seq<nat>, ps: seq<Pair>) {
    && |r| == |ps| && (forall i :: 0 <= i < |ps| ==> r[i] <= |t|)
    && forall i :: 0 <= i < |ps| ==> Segment(t, r[i]) == SegmentOf(ps[i])
  }

  lemma OneMore(t: seq<byte>, from: nat, rest: seq<nat>, ps: seq<Pair>)
    requires from <= |t| && ps != [] && Segment(t, from) == SegmentOf(ps[0]) && AreSegments(t, rest, ps[1..])
    ensures AreSegments(t, [from] + rest, ps)
  {
    hide Segment, SegmentOf;
    var r := [from] + rest;
    forall i | 0 <= i < |ps|
      ensures r[i] <= |t| && Segment(t, r[i]) == SegmentOf(ps[i])
    {
      if i > 0 {
        assert r[i] == rest[i - 1] && ps[1..][i - 1] == ps[i];
      }
    }
  }

  lemma {:induction false} StartsAreSegments(t: seq<byte>, from: nat, ps: seq<Pair>, cap: nat)
    requires from <= |t| && t[from..] == QueryText(ps) && 0 < |ps| <= cap && forall p :: p in ps ==> PlainPair(p)
    ensures AreSegments(t, Starts(t, from, cap), ps)
    decreases |ps|
  {
    hide Span, SegmentOf, PlainPair, EndOf, Starts, AreSegments;
    var more := if |ps| == 1 then [] else [AMP] + QueryText(ps[1..]);
    assert t[from..] == SegmentOf(ps[0]) + more;
    EndsAt(t, from, ps[0], more);
    EndIs(t, from);
    StartsNext(t, from, cap, Span(t[from..], [AMP]));
    var end := EndOf(t, from);
    if |ps| > 1 {
      assert t[end + 1..] == t[from..][|SegmentOf(ps[0])| + 1..] == QueryText(ps[1..]);
      assert end < |t|;
      StartsAreSegments(t, end + 1, ps[1..], cap - 1);
      OneMore(t, from, Starts(t, end + 1, cap - 1), ps);
    } else {
      assert |t[from..]| == |t| - from;
      NoSegments(t, ps);
      OneMore(t, from, [], ps);
      assert [from] + [] == [from];
    }
  }

  lemma NoSegments(t: seq<byte>, ps: seq<Pair>)
    requires |ps| == 1
    ensures AreSegments(t, [], ps[1..])
  {
  }

  // Names ----------------------------------------------------------------------------

  lemma UnitOfPlain(s: seq<byte>)
    requires s != [] && Unreserved(s[0])
    ensures Unit(s) == (s[0], 1) && Rest(s, 1) == s[1..] && s[0] != 0
  {
  }

  // A plain name matches exactly the pair whose key it is.
  lemma {:induction false} NameMatches(name: seq<byte>, key: seq<byte>, v: seq<byte>)
    requires AllUnreserved(name) && AllUnreserved(key)
    ensures Matches(name, key + [EQUALS] + v, |name|) <==> name == key
    decreases |name|
  {
    hide Unreserved, Unit, Rest;
    var q := key + [EQUALS] + v;
    if name == [] {
      if key != [] {
        UnreservedIsPlain(key[0]);
        assert q[0] == key[0];
      }
    } else {
      UnitOfPlain(name);
      if key == [] {
        UnitOfEquals(q);
      } else {
        assert q[0] == key[0];
        UnitOfPlain(q);
        assert q[1..] == key[1..] + [EQUALS] + v;
        NameMatches(name[1..], key[1..], v);
        assert name == [name[0]] + name[1..] && key == [key[0]] + key[1..];
      }
    }
  }

  lemma UnitOfEquals(q: seq<byte>)
    requires q != [] && q[0] == EQUALS
    ensures Unit(q) == (0, 1)
  {
  }

  // The values of a name, in order.
  function Values(ps: seq<Pair>, name: seq<byte>): seq<seq<byte>> {
    if ps == [] then []
    else (if ps[0].key == name then [Decoded(ps[0].text)] else []) + Values(ps[1..], name)
  }

  ghost predicate Strings(pairs: seq<seq<byte>>, ps: seq<Pair>) {
    |pairs| == |ps| && forall i :: 0 <= i < |ps| ==> pairs[i] == StringFor(ps[i])
  }

  // The nth lookup finds the nth value.
  lemma {:induction false} LookupFinds(pairs: seq<seq<byte>>, ps: seq<Pair>, name: seq<byte>, nth: nat)
    requires Strings(pairs, ps) && AllUnreserved(name) && forall p :: p in ps ==> PlainPair(p)
    ensures match Lookup(pairs, name, nth)
            case None => nth >= |Values(ps, name)|
            case Some(i) => i < |ps| && ps[i].key == name && nth < |Values(ps, name)| && Values(ps, name)[nth] == Decoded(ps[i].text)
    decreases |ps|
  {
    hide Matches, Decoded, WellFormed, AllUnreserved, Values, PlainPair;
    if ps == [] {
      assert Values(ps, name) == [] by { NoValues(name); }
    } else {
      assert pairs[0] == StringFor(ps[0]);
      KeyIsPlain(ps[0]);
      NameMatches(name, ps[0].key, Decoded(ps[0].text));
      ValuesNext(ps, name);
      var here := ps[0].key == name;
      if !here || nth > 0 {
        LookupFinds(pairs[1..], ps[1..], name, if here then nth - 1 else nth);
      }
    }
  }

  lemma KeyIsPlain(p: Pair)
    requires PlainPair(p)
    ensures AllUnreserved(p.key)
  {
  }

  lemma NoValues(name: seq<byte>)
    ensures Values([], name) == []
  {
  }

  lemma ValuesNext(ps: seq<Pair>, name: seq<byte>)
    requires ps != []
    ensures Values(ps, name) == if ps[0].key == name then [Decoded(ps[0].text)] + Values(ps[1..], name) else Values(ps[1..], name)
  {
    hide Decoded;
    assert [] + Values(ps[1..], name) == Values(ps[1..], name);
  }

  // What lies in the buffer -------------------------------------------------------------

  // The pair and its value, as C strings.
  lemma PairInBuffer(b: seq<byte>, t: seq<byte>, start: nat, p: Pair)
    requires start <= |t| && PairAt(b, t, start) && Segment(t, start) == SegmentOf(p) && PlainPair(p)
    ensures CString(b[start..]) == StringFor(p)
    ensures start + |p.key| + 1 <= |b| && CString(b[start + |p.key| + 1..]) == Decoded(p.text)
    ensures ValueStart(StringFor(p)) == |p.key| + 1
  {
    hide Decoded, WellFormed, Span, EndOf, CString, Unreserved;
    SegmentChars(p);
    var s := StringFor(p);
    var n := |s|;
    assert b[start..][..n] == b[start..start + n] == s;
    assert b[start..][n] == b[start + n];
    var k := start + |p.key| + 1;
    var m := |Decoded(p.text)|;
    assert b[k..][..m] == b[start..start + n][|p.key| + 1..] == Decoded(p.text);
    assert b[k..][m] == b[start + n];
    forall i | 0 <= i < |p.key|
      ensures s[i] !in [EQUALS]
    {
      UnreservedIsPlain(p.key[i]);
    }
    SpanIs(s, [EQUALS], |p.key|);
  }

  // The whole text --------------------------------------------------------------------

  ghost predicate PlainPrefix(prefix: seq<byte>) {
    forall i :: 0 <= i < |prefix| ==> prefix[i] != QUESTION && prefix[i] != HASH && prefix[i] != 0
  }

  lemma {:induction false} QueryHasNoNul(ps: seq<Pair>)
    requires forall p :: p in ps ==> PlainPair(p)
    ensures 0 !in QueryText(ps)
    decreases |ps|
  {
    hide PlainPair, SegmentOf;
    if ps != [] {
      SegmentChars(ps[0]);
      QueryHasNoNul(ps[1..]);
    }
  }

  lemma UrlIsText(prefix: seq<byte>, ps: seq<Pair>)
    requires PlainPrefix(prefix) && forall p :: p in ps ==> PlainPair(p)
    ensures var url := prefix + [QUESTION] + QueryText(ps);
            CString(url) == url && Span(url, [QUESTION, HASH]) == |prefix|
  {
    hide QueryText, CString, PlainPair;
    var url := prefix + [QUESTION] + QueryText(ps);
    QueryHasNoNul(ps);
    forall i | 0 <= i < |url|
      ensures url[i] != 0
    {
      if i > |prefix| {
        assert url[i] == QueryText(ps)[i - |prefix| - 1];
      }
    }
    SpanIs(url, [QUESTION, HASH], |prefix|);
  }

  // What the constructor leaves in the buffer: every pair with its decoded value, as a string
  // of its own.
  lemma PairsAreStored(prefix: seq<byte>, ps: seq<Pair>, b: seq<byte>, kv: seq<nat>)
    requires PlainPrefix(prefix) && 0 < |ps| <= MAX_PAIRS && forall p :: p in ps ==> PlainPair(p)
    requires var t := prefix + [QUESTION] + QueryText(ps);
             kv == AllStarts(t) && forall i :: 0 <= i < |kv| ==> kv[i] <= |t| && PairAt(b, t, kv[i])
    ensures |kv| == |ps| && forall i :: 0 <= i < |kv| ==> kv[i] < |b|
    ensures Strings(PairsIn(b, kv), ps)
    ensures forall i :: 0 <= i < |ps| ==>
              kv[i] + |ps[i].key| + 1 <= |b| && CString(b[kv[i] + |ps[i].key| + 1..]) == Decoded(ps[i].text)
  {
    hide PlainPair, Decoded, Span, EndOf, CString, QueryText, PairText, Starts;
    var t := prefix + [QUESTION] + QueryText(ps);
    UrlIsText(prefix, ps);
    var from := |prefix| + 1;
    assert t[from..] == QueryText(ps);
    StartsAreSegments(t, from, ps, MAX_PAIRS);
    forall i | 0 <= i < |ps|
      ensures CString(b[kv[i]..]) == StringFor(ps[i]) && kv[i] < |b|
      ensures kv[i] + |ps[i].key| + 1 <= |b| && CString(b[kv[i] + |ps[i].key| + 1..]) == Decoded(ps[i].text)
    {
      PairInBuffer(b, t, kv[i], ps[i]);
    }
  }

  ghost predicate Points(b: seq<byte>, at: nat, value: seq<byte>) {
    at <= |b| && CString(b[at..]) == value
  }

  lemma {:induction false} FoundAll(b: seq<byte>, kv: seq<nat>, pairs: seq<seq<byte>>, ps: seq<Pair>, name: seq<byte>, nth: nat)
    requires |kv| == |pairs| && Strings(pairs, ps) && AllUnreserved(name) && nth <= |ps| && forall p :: p in ps ==> PlainPair(p)
    requires forall i :: 0 <= i < |ps| ==>
               Points(b, kv[i] + |ps[i].key| + 1, Decoded(ps[i].text)) && ValueStart(pairs[i]) == |ps[i].key| + 1
    requires nth <= |Values(ps, name)|
    ensures var r := Found(kv, pairs, name, nth);
            |r| == |Values(ps, name)| - nth
            && forall k :: 0 <= k < |r| ==> Points(b, r[k], Values(ps, name)[nth + k])
    decreases |ps| - nth
  {
    hide Lookup, PlainPair, Decoded, Values, ValueStart, Points, StringFor;
    LookupFinds(pairs, ps, name, nth);
    LookupEnds(pairs, name, nth);
    if Lookup(pairs, name, nth).Some? {
      FoundAll(b, kv, pairs, ps, name, nth + 1);
      var more := Found(kv, pairs, name, nth + 1);
      var r := Found(kv, pairs, name, nth);
      assert r[1..] == more;
      forall k | 0 <= k < |r|
        ensures Points(b, r[k], Values(ps, name)[nth + k])
      {
        if k > 0 {
          assert r[k] == more[k - 1];
        }
      }
    }
  }

  // For any pairs, at most 256: get gives the first value of a name, or nothing if there is
  // none; get_list gives all of them, in order.
  lemma RoundTrip(prefix: seq<byte>, ps: seq<Pair>, b: seq<byte>, kv: seq<nat>, name: seq<byte>)
    requires PlainPrefix(prefix) && 0 < |ps| <= MAX_PAIRS && (forall p :: p in ps ==> PlainPair(p)) && AllUnreserved(name)
    requires var t := prefix + [QUESTION] + QueryText(ps);
             kv == AllStarts(t) && forall i :: 0 <= i < |kv| ==> kv[i] <= |t| && PairAt(b, t, kv[i])
    ensures |kv| == |ps| && forall i :: 0 <= i < |kv| ==> kv[i] < |b|
    ensures var pairs := PairsIn(b, kv);
            match Lookup(pairs, name, 0)
            case None => Values(ps, name) == []
            case Some(i) => i < |kv| && Values(ps, name) != []
                            && Points(b, kv[i] + ValueStart(pairs[i]), Values(ps, name)[0])
    ensures var all := Found(kv, PairsIn(b, kv), name, 0);
            |all| == |Values(ps, name)| && forall k :: 0 <= k < |all| ==> Points(b, all[k], Values(ps, name)[k])
  {
    hide Lookup, PlainPair, Decoded, Values, ValueStart, CString, AllStarts, PairAt, QueryText, Found;
    PairsAreStored(prefix, ps, b, kv);
    var pairs := PairsIn(b, kv);
    LookupFinds(pairs, ps, name, 0);
    forall i | 0 <= i < |ps|
      ensures Points(b, kv[i] + |ps[i].key| + 1, Decoded(ps[i].text)) && ValueStart(pairs[i]) == |ps[i].key| + 1
    {
      StartOfValue(ps[i]);
      assert pairs[i] == StringFor(ps[i]);
    }
    FoundAll(b, kv, pairs, ps, name, 0);
  }

  lemma StartOfValue(p: Pair)
    requires PlainPair(p)
    ensures ValueStart(StringFor(p)) == |p.key| + 1
  {
    hide Decoded, WellFormed, Span, Unreserved;
    var s := StringFor(p);
    forall i | 0 <= i < |p.key|
      ensures s[i] !in [EQUALS]
    {
      UnreservedIsPlain(p.key[i]);
    }
    SpanIs(s, [EQUALS], |p.key|);
  }
}
