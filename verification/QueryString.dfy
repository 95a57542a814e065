/** The query string of a URL: pairs found and decoded in place, and looked up by name. */
module QueryString {
  import opened Common

  const AMP: byte := 38
  const EQUALS: byte := 61
  const HASH: byte := 35
  const QUESTION: byte := 63
  const PERCENT: byte := 37
  const PLUS: byte := 43
  const SPACE: byte := 32

  const MAX_PAIRS: nat := 256

  // CROW_QS_ISQSCHR
  predicate IsQs(b: byte) { b != EQUALS && b != HASH && b != AMP && b != 0 }

  function HexValue(b: byte): (n: nat)
    ensures n < 16
  {
    if '0' as int <= b <= '9' as int then b - 48
    else if 'A' as int <= b <= 'F' as int then b - 55
    else if 'a' as int <= b <= 'f' as int then b - 87
    else 0
  }

  // strcspn: how many bytes come before one of the set, or the end.
  function Span(s: seq<byte>, stop: seq<byte>): (k: nat)
    ensures k <= |s| && (k < |s| ==> s[k] in stop) && forall i :: 0 <= i < k ==> s[i] !in stop
  {
    if s == [] || s[0] in stop then 0 else 1 + Span(s[1..], stop)
  }

  // The text before the first NUL.
  function CString(s: seq<byte>): (r: seq<byte>)
    ensures |r| <= |s| && r == s[..|r|] && 0 !in r && (|r| < |s| ==> s[|r|] == 0)
  {
    s[..Span(s, [0])]
  }

  // The meaning ---------------------------------------------------------------

  // What decoding makes of a value.
  function Decoded(s: seq<byte>): (r: seq<byte>)
    ensures |r| <= |s|
  {
    if !IsQs(Peek(s, 0)) then []
    else if s[0] == PLUS then [SPACE] + Decoded(s[1..])
    else if s[0] == PERCENT then
      if IsHex(Peek(s, 1)) && IsHex(Peek(s, 2)) then [HexValue(s[1]) * 16 + HexValue(s[2])] + Decoded(s[3..]) else []
    else [s[0]] + Decoded(s[1..])
  }

  // A pair once its value is decoded: the key, the separator and the value.
  function PairText(segment: seq<byte>): (r: seq<byte>)
    ensures |r| <= |segment|
  {
    var k := Span(segment, [EQUALS, AMP, HASH]);
    if k == |segment| then segment else segment[..k + 1] + Decoded(segment[k + 1..])
  }

  // Where the pairs of a text start, from one start on.
  function Starts(t: seq<byte>, from: nat, cap: nat): (r: seq<nat>)
    requires from <= |t|
    ensures |r| <= cap
    decreases cap
  {
    if cap == 0 then []
    else
      var amp := EndOf(t, from);
      [from] + if amp == |t| then [] else Starts(t, amp + 1, cap - 1)
  }

  // Where the pair that starts here ends.
  function EndOf(t: seq<byte>, from: nat): (end: nat)
    requires from <= |t|
    ensures from <= end <= |t| && (end < |t| ==> t[end] == AMP)
  {
    from + Span(t[from..], [AMP])
  }

  function Segment(t: seq<byte>, from: nat): seq<byte>
    requires from <= |t|
  {
    t[from..EndOf(t, from)]
  }

  function AllStarts(t: seq<byte>): seq<nat> {
    var q := Span(t, [QUESTION, HASH]);
    if q == |t| then [] else Starts(t, q + 1, MAX_PAIRS)
  }

  // Decoding in place -----------------------------------------------------------

  // The pair that started here has been decoded.
  ghost predicate PairAt(b: seq<byte>, t: seq<byte>, start: nat) {
    && start <= |t| < |b|
    && start + |PairText(Segment(t, start))| < |b|
    && b[start..start + |PairText(Segment(t, start))|] == PairText(Segment(t, start))
    && b[start + |PairText(Segment(t, start))|] == 0
  }

  // What the loop of qs_decode keeps.
  ghost predicate Decoding(b: seq<byte>, was: seq<byte>, at: nat, i: nat, j: nat, end: nat) {
    && at <= i <= j <= end < |b| == |was|
    && b[..at] == was[..at] && b[j..] == was[j..]
    && b[at..i] + Decoded(was[j..end]) == Decoded(was[at..end])
  }

  method Decode(buf: array<byte>, at: nat, ghost end: nat) returns (n: nat)
    requires at <= end < buf.Length && (buf[end] == AMP || buf[end] == 0)
    modifies buf
    ensures n == |old(Decoded(buf[at..end]))| <= end - at
    ensures buf[at..at + n] == old(Decoded(buf[at..end])) && buf[at + n] == 0
    ensures buf[..at] == old(buf[..at]) && buf[end + 1..] == old(buf[end + 1..])
  {
    hide Decoded, HexValue;
    ghost var was := buf[..];
    var i: nat, j: nat := at, at;
    assert buf[at..at] == [] && was[at..end] == buf[at..end];
    while IsQs(buf[j])
      invariant Decoding(buf[..], was, at, i, j, end)
      decreases end - j
    {
      ghost var b := buf[..];
      assert j < end;
      assert b[j..] == was[j..];
      var c := buf[j];
      if c == PERCENT {
        DecodedNext(was, j, end);
        if !IsHex(buf[j + 1]) || !IsHex(buf[j + 2]) {
          DecodeStops(b, was, at, i, j, end);
          buf[i] := 0;
          return i - at;
        }
        buf[i] := HexValue(buf[j + 1]) * 16 + HexValue(buf[j + 2]);
        DecodeStep(b, buf[..], was, at, i, j, end, 3, HexValue(was[j + 1]) * 16 + HexValue(was[j + 2]));
        j := j + 3;
      } else {
        DecodedNext(was, j, end);
        buf[i] := if c == PLUS then SPACE else c;
        DecodeStep(b, buf[..], was, at, i, j, end, 1, if c == PLUS then SPACE else c);
        j := j + 1;
      }
      i := i + 1;
    }
    DecodedNext(was, j, end);
    DecodeStops(buf[..], was, at, i, j, end);
    buf[i] := 0;
    n := i - at;
  }

  // One turn of decoding, on the bytes as they were.
  lemma DecodedNext(was: seq<byte>, j: nat, end: nat)
    requires j <= end < |was| && (was[end] == AMP || was[end] == 0)
    ensures var s := was[j..end];
            && (!IsQs(was[j]) ==> Decoded(s) == [])
            && (IsQs(was[j]) ==> j < end)
            && (IsQs(was[j]) && was[j] != PERCENT ==>
                  Decoded(s) == [if was[j] == PLUS then SPACE else was[j]] + Decoded(was[j + 1..end]))
            && (was[j] == PERCENT ==>
                  && j + 1 < |was| && (IsHex(was[j + 1]) ==> j + 2 < |was|)
                  && (if IsHex(was[j + 1]) && IsHex(was[j + 2])
                      then j + 3 <= end && Decoded(s) == [HexValue(was[j + 1]) * 16 + HexValue(was[j + 2])] + Decoded(was[j + 3..end])
                      else Decoded(s) == []))
  {
    hide HexValue;
    var s := was[j..end];
    if j < end {
      assert s[1..] == was[j + 1..end];
      assert j + 3 <= end ==> s[3..] == was[j + 3..end];
    }
  }

  lemma DecodeStep(b: seq<byte>, c: seq<byte>, was: seq<byte>, at: nat, i: nat, j: nat, end: nat, k: nat, x: byte)
    requires Decoding(b, was, at, i, j, end) && 0 < k && j + k <= end && c == b[i := x]
    requires Decoded(was[j..end]) == [x] + Decoded(was[j + k..end])
    ensures Decoding(c, was, at, i + 1, j + k, end)
  {
    hide Decoded;
    assert c[at..i + 1] == b[at..i] + [x];
    assert b[at..i] + ([x] + Decoded(was[j + k..end])) == c[at..i + 1] + Decoded(was[j + k..end]);
    assert c[j + k..] == b[j..][k..];
    assert was[j + k..] == was[j..][k..];
  }

  lemma DecodeStops(b: seq<byte>, was: seq<byte>, at: nat, i: nat, j: nat, end: nat)
    requires Decoding(b, was, at, i, j, end) && Decoded(was[j..end]) == []
    ensures b[at..i] == Decoded(was[at..end]) && b[end + 1..] == was[end + 1..]
    ensures |Decoded(was[at..end])| == i - at
  {
    hide Decoded;
    assert b[at..i] + [] == b[at..i];
    assert b[end + 1..] == b[j..][end + 1 - j..];
    assert was[end + 1..] == was[j..][end + 1 - j..];
  }

  // Finding the pairs -----------------------------------------------------------------

  // strcspn on the buffer, up to the NUL that ends the text.
  method SpanFrom(buf: array<byte>, from: nat, stop: seq<byte>, ghost t: seq<byte>) returns (k: nat)
    requires from <= |t| < buf.Length && buf[from..|t|] == t[from..] && buf[|t|] == 0 && 0 !in t
    ensures k == Span(t[from..], stop) && from + k <= |t|
  {
    k := 0;
    while buf[from + k] != 0 && buf[from + k] !in stop
      invariant from + k <= |t|
      invariant Span(t[from..], stop) == k + Span(t[from + k..], stop)
      decreases |t| - from - k
    {
      assert buf[from + k] == buf[from..|t|][k] == t[from..][k];
      assert t[from + k..][1..] == t[from + k + 1..];
      k := k + 1;
    }
    if from + k < |t| {
      assert buf[from + k] == buf[from..|t|][k] == t[from..][k];
    }
  }

  // The buffer holds a text and the NUL that ends it.
  ghost predicate Holds(b: seq<byte>, t: seq<byte>) {
    |t| < |b| && b[..|t|] == t && b[|t|] == 0 && 0 !in t
  }

  lemma EndIs(t: seq<byte>, from: nat)
    requires from <= |t|
    ensures EndOf(t, from) == from + Span(t[from..], [AMP]) && from <= EndOf(t, from) <= |t|
  {
    hide Span;
  }

  lemma StartsNext(t: seq<byte>, from: nat, cap: nat, j: nat)
    requires from <= |t| && 0 < cap && j == Span(t[from..], [AMP])
    ensures from + j <= |t|
    ensures Starts(t, from, cap) == [from] + if from + j == |t| then [] else Starts(t, from + j + 1, cap - 1)
    ensures Starts(t, from, 0) == []
  {
    hide Span, EndOf;
    EndIs(t, from);
  }

  method FindPairs(buf: array<byte>, cap: nat, ghost t: seq<byte>) returns (kv: seq<nat>)
    requires Holds(buf[..], t)
    ensures kv == (var q := Span(t, [QUESTION, HASH]); if q == |t| then [] else Starts(t, q + 1, cap))
  {
    hide Span, Starts;
    assert buf[0..|t|] == t[0..] && t[0..] == t;
    var q := SpanFrom(buf, 0, [QUESTION, HASH], t);
    kv := [];
    if buf[q] == 0 {
      return;
    }
    assert q < |t|;
    var at: nat := q + 1;
    while |kv| < cap
      invariant |kv| <= cap && at <= |t|
      invariant kv + Starts(t, at, cap - |kv|) == Starts(t, q + 1, cap)
      decreases cap - |kv|
    {
      assert buf[at..|t|] == buf[..|t|][at..] == t[at..];
      var j := SpanFrom(buf, at, [AMP], t);
      StartsNext(t, at, cap - |kv|, j);
      kv := kv + [at];
      if buf[at + j] == 0 {
        assert at + j == |t|;
        return;
      }
      at := at + j + 1;
    }
  }

  lemma Same(b: seq<byte>, t: seq<byte>, start: nat, i: nat, j: nat)
    requires start <= i <= j <= |t| < |b| && b[start..|t|] == t[start..] && b[|t|] == 0
    ensures b[i..j] == t[i..j] && b[j] == if j < |t| then t[j] else 0
  {
    forall k | start <= k < |t|
      ensures b[k] == t[k]
    {
      assert b[k] == b[start..|t|][k - start];
      assert t[k] == t[start..][k - start];
    }
  }

  lemma ValuePair(b: seq<byte>, was: seq<byte>, t: seq<byte>, start: nat, p: nat, end: nat, n: nat)
    requires start <= p < end <= |t| < |b| == |was| && b[..p + 1] == was[..p + 1] && was[start..p + 1] == t[start..p + 1]
    requires n == |Decoded(t[p + 1..end])| && p + 1 + n <= end && b[p + 1..p + 1 + n] == Decoded(t[p + 1..end])
    requires b[p + 1 + n] == 0 && PairText(Segment(t, start)) == t[start..p + 1] + Decoded(t[p + 1..end])
    ensures PairAt(b, t, start) && start + |PairText(Segment(t, start))| <= end && b[..start] == was[..start]
  {
    hide Decoded, PairText, Segment;
    assert b[start..p + 1] == b[..p + 1][start..] == was[..p + 1][start..] == was[start..p + 1];
    assert b[start..p + 1 + n] == b[start..p + 1] + b[p + 1..p + 1 + n];
    assert b[..start] == b[..p + 1][..start];
    assert was[..start] == was[..p + 1][..start];
  }

  lemma BlankPair(b: seq<byte>, was: seq<byte>, t: seq<byte>, start: nat, p: nat)
    requires start <= p <= |t| < |was| && b == was[p := 0] && was[start..p] == t[start..p]
    requires PairText(Segment(t, start)) == t[start..p]
    ensures PairAt(b, t, start) && start + |PairText(Segment(t, start))| == p && b[..start] == was[..start]
    ensures b[p + 1..] == was[p + 1..]
  {
    hide PairText, Segment;
    assert b[start..p] == was[start..p];
  }

  // Decoding one pair: only its own bytes change.
  method DecodePair(buf: array<byte>, start: nat, ghost t: seq<byte>)
    requires start <= |t| < buf.Length && buf[start..|t|] == t[start..] && buf[|t|] == 0 && 0 !in t
    modifies buf
    ensures PairAt(buf[..], t, start) && start + |PairText(Segment(t, start))| <= EndOf(t, start)
    ensures buf[..start] == old(buf[..start])
    ensures EndOf(t, start) < |t| ==> buf[EndOf(t, start) + 1..] == old(buf[EndOf(t, start) + 1..])
  {
    hide Span, Decoded, EndOf, PairText, PairAt, Segment;
    ghost var end := EndOf(t, start);
    ghost var was := buf[..];
    assert was[start..|t|] == t[start..];
    var k := SpanFrom(buf, start, [EQUALS, AMP, HASH], t);
    SeparatorIs(t, start, k);
    var p := start + k;
    Same(was, t, start, start, p);
    if buf[p] == AMP || buf[p] == 0 {
      buf[p] := 0;
      BlankPair(buf[..], was, t, start, p);
    } else {
      Same(was, t, start, p + 1, end);
      Same(was, t, start, start, p + 1);
      var n := Decode(buf, p + 1, end);
      ValuePair(buf[..], was, t, start, p, end, n);
    }
  }

  lemma {:induction false} SpanIs(s: seq<byte>, stop: seq<byte>, k: nat)
    requires k <= |s| && (forall i :: 0 <= i < k ==> s[i] !in stop) && (k < |s| ==> s[k] in stop)
    ensures Span(s, stop) == k
    decreases k
  {
    if k > 0 {
      SpanIs(s[1..], stop, k - 1);
    }
  }

  lemma SpanInside(s: seq<byte>)
    ensures var k, e := Span(s, [EQUALS, AMP, HASH]), Span(s, [AMP]);
            && k <= e <= |s| && Span(s[..e], [EQUALS, AMP, HASH]) == k
            && (k == e <==> k == |s| || s[k] == AMP)
  {
    hide Span;
    var k, e := Span(s, [EQUALS, AMP, HASH]), Span(s, [AMP]);
    assert e < |s| ==> s[e] == AMP;
    assert k <= e;
    if k < e {
      assert s[k] !in [AMP];
    } else {
      assert k < |s| ==> s[k] == AMP;
    }
    SpanIs(s[..e], [EQUALS, AMP, HASH], k);
  }

  // The separator of a pair is within the pair.
  lemma SeparatorIs(t: seq<byte>, start: nat, k: nat)
    requires start <= |t| && k == Span(t[start..], [EQUALS, AMP, HASH]) && 0 !in t
    ensures var end := EndOf(t, start);
            var s := Segment(t, start);
            && start + k <= end <= |t|
            && (start + k == end <==> start + k == |t| || t[start + k] == AMP)
            && PairText(s) == (if start + k == end then t[start..start + k]
                               else t[start..start + k + 1] + Decoded(t[start + k + 1..end]))
            && (end < |t| ==> t[end] == AMP) && (start + k < |t| ==> t[start + k] != 0)
  {
    hide Decoded, Span, EndOf;
    EndIs(t, start);
    var end := EndOf(t, start);
    SpanInside(t[start..]);
    var s := Segment(t, start);
    assert s == t[start..][..end - start];
    if start + k < end {
      assert s[..k + 1] == t[start..start + k + 1] && s[k + 1..] == t[start + k + 1..end];
    }
  }

  // qs_parse ------------------------------------------------------------------------

  ghost predicate Ordered(t: seq<byte>, kv: seq<nat>) {
    && (forall i :: 0 <= i < |kv| ==> kv[i] <= |t|)
    && (forall i, j :: 0 <= i && j == i + 1 && j < |kv| ==> EndOf(t, kv[i]) + 1 == kv[j])
  }

  lemma OrderedFrom(t: seq<byte>, from: nat, cap: nat)
    requires from <= |t| && 0 < cap
    ensures var end := EndOf(t, from);
            end <= |t| && Starts(t, from, cap) == [from] + if end == |t| then [] else Starts(t, end + 1, cap - 1)
  {
    hide Span;
  }

  lemma OrderedMore(t: seq<byte>, from: nat, more: seq<nat>)
    requires from <= |t| && Ordered(t, more) && (more != [] ==> more[0] == EndOf(t, from) + 1)
    ensures Ordered(t, [from] + more)
  {
    hide Span;
    var kv := [from] + more;
    forall i, j | 0 <= i && j == i + 1 && j < |kv|
      ensures kv[i] <= |t| && EndOf(t, kv[i]) + 1 == kv[j]
    {
      if i > 0 {
        assert kv[i] == more[i - 1] && kv[j] == more[j - 1];
      }
    }
  }

  lemma {:induction false} StartsOrdered(t: seq<byte>, from: nat, cap: nat)
    requires from <= |t|
    ensures Ordered(t, Starts(t, from, cap))
    ensures Starts(t, from, cap) != [] ==> Starts(t, from, cap)[0] == from
    decreases cap
  {
    hide Span, Ordered, EndOf, Starts;
    NoneOrdered(t);
    if cap == 0 {
    } else {
      OrderedFrom(t, from, cap);
      var end := EndOf(t, from);
      if end < |t| {
        StartsOrdered(t, end + 1, cap - 1);
        OrderedMore(t, from, Starts(t, end + 1, cap - 1));
      } else {
        OrderedMore(t, from, []);
        assert [from] + [] == [from];
      }
    }
  }

  lemma NoneOrdered(t: seq<byte>)
    ensures Ordered(t, [])
  {
  }

  // A pair ends before a later one starts.
  lemma {:induction false} OrderedFar(t: seq<byte>, kv: seq<nat>, i: nat, j: nat)
    requires Ordered(t, kv) && i < j < |kv|
    ensures EndOf(t, kv[i]) < kv[j]
    decreases j
  {
    hide Span, EndOf;
    if i + 1 < j {
      OrderedFar(t, kv, i, j - 1);
      EndIs(t, kv[j - 1]);
      var k := j - 1;
      assert EndOf(t, kv[k]) + 1 == kv[j];
    }
  }

  lemma AllOrdered(t: seq<byte>)
    ensures Ordered(t, AllStarts(t))
  {
    hide Span, Starts;
    var q := Span(t, [QUESTION, HASH]);
    if q < |t| {
      StartsOrdered(t, q + 1, MAX_PAIRS);
    }
  }

  // A decoded pair stays while later ones are decoded.
  lemma PairStays(b: seq<byte>, c: seq<byte>, t: seq<byte>, start: nat, at: nat)
    requires PairAt(b, t, start) && start + |PairText(Segment(t, start))| < at <= |b| == |c| && b[..at] == c[..at]
    ensures PairAt(c, t, start)
  {
    hide Span, Decoded, PairText, EndOf;
    var n := |PairText(Segment(t, start))|;
    assert b[start..start + n] == b[..at][start..start + n];
    assert c[start..start + n] == c[..at][start..start + n];
    assert b[start + n] == b[..at][start + n] == c[..at][start + n];
  }

  // All pairs are found, and each value is decoded in its place: no pair disturbs another.
  method Parse(buf: array<byte>, ghost t: seq<byte>) returns (kv: seq<nat>)
    requires Holds(buf[..], t)
    modifies buf
    ensures kv == AllStarts(t) && forall i :: 0 <= i < |kv| ==> kv[i] <= |t| && PairAt(buf[..], t, kv[i])
  {
    hide Span, Starts, PairText, EndOf, PairAt, Ordered;
    AllOrdered(t);
    AllFit(t, AllStarts(t));
    kv := FindPairs(buf, MAX_PAIRS, t);
    for j := 0 to |kv|
      invariant forall i :: 0 <= i < j ==>
                  PairAt(buf[..], t, kv[i]) && kv[i] + |PairText(Segment(t, kv[i]))| <= EndOf(t, kv[i])
      invariant j < |kv| ==> |t| < buf.Length && buf[kv[j]..|t|] == t[kv[j]..] && buf[|t|] == 0 && 0 !in t
    {
      ghost var b := buf[..];
      DecodePair(buf, kv[j], t);
      assert buf[..][..kv[j]] == b[..kv[j]];
      forall i | 0 <= i < j
        ensures PairAt(buf[..], t, kv[i])
      {
        OrderedFar(t, kv, i, j);
        PairStays(b, buf[..], t, kv[i], kv[j]);
      }
      if j + 1 < |kv| {
        EndBefore(t, kv, j);
        RestStays(b, buf[..], t, kv[j], kv[j + 1]);
      }
    }
  }

  lemma RestStays(b: seq<byte>, c: seq<byte>, t: seq<byte>, start: nat, at: nat)
    requires start <= at <= |t| < |b| == |c| && b[start..|t|] == t[start..] && b[|t|] == 0 && c[at..] == b[at..]
    ensures c[at..|t|] == t[at..] && c[|t|] == 0
  {
    Same(b, t, start, at, |t|);
    assert c[at..|t|] == c[at..][..|t| - at];
    assert b[at..|t|] == b[at..][..|t| - at];
    assert c[|t|] == c[at..][|t| - at];
    assert b[|t|] == b[at..][|t| - at];
    assert t[at..|t|] == t[at..];
  }

  lemma AllFit(t: seq<byte>, kv: seq<nat>)
    requires Ordered(t, kv)
    ensures forall i :: 0 <= i < |kv| ==> kv[i] <= |t|
  {
    hide EndOf;
  }

  lemma EndBefore(t: seq<byte>, kv: seq<nat>, j: nat)
    requires Ordered(t, kv) && j + 1 < |kv|
    ensures EndOf(t, kv[j]) + 1 == kv[j + 1] <= |t| && kv[j] <= kv[j + 1] && EndOf(t, kv[j]) < |t|
  {
    hide Span, EndOf;
    var k := j + 1;
    assert EndOf(t, kv[j]) + 1 == kv[k];
    EndIs(t, kv[j]);
  }
}
