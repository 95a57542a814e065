/** The numbers that the JSON parser takes, against the grammar in section 6 of RFC 8259. */
module JsonNumbers {
  import opened Common
  import opened JsonText

  // The shape of a number; which parts may be missing is left open.
  datatype Fraction = NoFraction | Fraction(digits: seq<byte>)
  datatype Exponent = NoExponent | Exponent(mark: byte, sign: seq<byte>, digits: seq<byte>)
  datatype Num = Num(minus: bool, whole: seq<byte>, fraction: Fraction, exponent: Exponent)

  const ZERO: seq<byte> := ['0' as int]

  ghost predicate AllDigits(s: seq<byte>) {
    forall i :: 0 <= i < |s| ==> IsDigit(s[i])
  }

  // Zero, or digits of which the first is not zero.
  ghost predicate IsWhole(s: seq<byte>) {
    AllDigits(s) && s != [] && (s[0] == '0' as int ==> |s| == 1)
  }

  predicate IsMark(b: byte) { Is(b, 'e') || Is(b, 'E') }

  predicate IsSign(b: byte) { Is(b, '+') || Is(b, '-') }

  ghost predicate Shaped(n: Num) {
    && IsWhole(n.whole) && (n.fraction.Fraction? ==> AllDigits(n.fraction.digits)) && ExponentShaped(n.exponent)
  }

  ghost predicate ExponentShaped(e: Exponent) {
    e.Exponent? ==> IsMark(e.mark) && (e.sign == [] || (|e.sign| == 1 && IsSign(e.sign[0]))) && AllDigits(e.digits)
  }

  function FractionText(f: Fraction): seq<byte> {
    match f case NoFraction => [] case Fraction(ds) => ['.' as int] + ds
  }

  function ExponentText(e: Exponent): seq<byte> {
    match e case NoExponent => [] case Exponent(mark, sign, ds) => [mark] + (sign + ds)
  }

  function NumText(n: Num): seq<byte> {
    (if n.minus then ['-' as int] else []) + (n.whole + (FractionText(n.fraction) + ExponentText(n.exponent)))
  }

  // The standard: neither a point nor an exponent without digits.
  ghost predicate Standard(n: Num) {
    (n.fraction.Fraction? ==> n.fraction.digits != []) && (n.exponent.Exponent? ==> n.exponent.digits != [])
  }

  ghost predicate IsStandardNumber(w: seq<byte>) {
    exists n :: Shaped(n) && Standard(n) && NumText(n) == w
  }

  // The automaton: digits may be missing behind a point, and behind the sign of an exponent;
  // but an exponent may not follow a zero without a point.
  ghost predicate Taken(n: Num) {
    n.exponent.Exponent? ==>
      && (n.exponent.sign != [] || n.exponent.digits != [])
      && !(n.whole == ZERO && n.fraction.NoFraction?)
  }

  ghost predicate Accepts(w: seq<byte>, st: NumState) {
    NumberLen(w, st) == Some(|w|)
  }

  // What the parser takes off a text is accepted as a whole, and ends where no byte of a
  // number follows.
  lemma {:induction false} TakesWord(s: seq<byte>, st: NumState, k: nat)
    requires k <= |s|
    ensures NumberLen(s, st) == Some(k) <==> Accepts(s[..k], st) && !IsNumberByte(Peek(s, k))
    decreases k
  {
    if k > 0 {
      assert s[..k][1..] == s[1..][..k - 1];
      TakesWord(s[1..], NumStep(st, s[0]), k - 1);
    }
  }

  lemma FirstByte(s: seq<byte>, st: NumState)
    ensures s == [] ==> (Accepts(s, st) <==> IsFinal(st))
    ensures s != [] ==>
              (Accepts(s, st) <==> IsNumberByte(s[0]) && NumStep(st, s[0]) != Invalid && Accepts(s[1..], NumStep(st, s[0])))
  {
    hide NumStep, IsFinal;
  }

  // From the end of a number to its beginning ---------------------------------------------

  lemma {:induction false} AfterSign(s: seq<byte>)
    ensures Accepts(s, DigitsAfterE) <==> AllDigits(s)
  {
    if s != [] {
      AfterSign(s[1..]);
      assert AllDigits(s) <==> IsDigit(s[0]) && AllDigits(s[1..]) by {
        if IsDigit(s[0]) && AllDigits(s[1..]) {
          assert forall i :: 0 < i < |s| ==> s[i] == s[1..][i - 1];
        }
      }
    }
  }

  lemma AfterMark(sign: seq<byte>, ds: seq<byte>)
    requires (sign == [] || (|sign| == 1 && IsSign(sign[0]))) && AllDigits(ds)
    ensures Accepts(sign + ds, E) <==> sign != [] || ds != []
  {
    var s := sign + ds;
    if s != [] {
      AfterSign(s[1..]);
      if sign != [] {
        assert s[1..] == ds;
      } else {
        assert s == ds;
      }
    }
  }

  lemma MarkedTail(s: seq<byte>) returns (sign: seq<byte>, ds: seq<byte>)
    requires Accepts(s, E)
    ensures (sign == [] || (|sign| == 1 && IsSign(sign[0]))) && AllDigits(ds) && sign + ds == s
  {
    AfterSign(s[1..]);
    if IsSign(s[0]) {
      sign, ds := [s[0]], s[1..];
    } else {
      sign, ds := [], s;
      assert forall i :: 0 < i < |s| ==> s[i] == s[1..][i - 1];
    }
  }

  // Digits leave the state as it is.
  lemma {:induction false} DigitsPass(ds: seq<byte>, rest: seq<byte>, st: NumState)
    requires AllDigits(ds) && (st == Digits || st == DigitsAfterPoints)
    ensures Accepts(ds + rest, st) <==> Accepts(rest, st)
  {
    if ds == [] {
      assert ds + rest == rest;
    } else {
      assert (ds + rest)[1..] == ds[1..] + rest;
      assert AllDigits(ds[1..]);
      DigitsPass(ds[1..], rest, st);
    }
  }

  lemma {:induction false} LeadingDigits(s: seq<byte>) returns (ds: seq<byte>, rest: seq<byte>)
    ensures s == ds + rest && AllDigits(ds) && (rest == [] || !IsDigit(rest[0]))
  {
    if s == [] || !IsDigit(s[0]) {
      ds, rest := [], s;
    } else {
      ds, rest := LeadingDigits(s[1..]);
      ds := [s[0]] + ds;
    }
  }

  // What may follow the digits of a fraction, or those before it.
  lemma ExponentFollows(e: Exponent, st: NumState)
    requires ExponentShaped(e) && (st == Digits || st == DigitsAfterPoints)
    ensures Accepts(ExponentText(e), st) <==> e.NoExponent? || e.sign != [] || e.digits != []
  {
    if e.Exponent? {
      assert ExponentText(e)[1..] == e.sign + e.digits;
      AfterMark(e.sign, e.digits);
    }
  }

  lemma ExponentTail(s: seq<byte>, st: NumState) returns (e: Exponent)
    requires Accepts(s, st) && (st == Digits || st == DigitsAfterPoints) && (s == [] || IsMark(s[0]))
    ensures ExponentShaped(e) && ExponentText(e) == s
  {
    if s == [] {
      e := NoExponent;
    } else {
      var sign, ds := MarkedTail(s[1..]);
      e := Exponent(s[0], sign, ds);
    }
  }

  lemma FractionTail(s: seq<byte>) returns (ds: seq<byte>, e: Exponent)
    requires Accepts(s, DigitsAfterPoints)
    ensures AllDigits(ds) && ExponentShaped(e) && ds + ExponentText(e) == s
  {
    var rest;
    ds, rest := LeadingDigits(s);
    DigitsPass(ds, rest, DigitsAfterPoints);
    e := ExponentTail(rest, DigitsAfterPoints);
  }

  lemma PointStep(rest: seq<byte>, st: NumState)
    requires st == Digits || st == ZeroFirst
    ensures Accepts(['.' as int] + rest, st) <==> Accepts(rest, DigitsAfterPoints)
  {
    hide Accepts;
    FirstByte(['.' as int] + rest, st);
    assert (['.' as int] + rest)[1..] == rest;
  }

  lemma MarkStep(mark: byte, rest: seq<byte>, st: NumState)
    requires IsMark(mark)
    ensures Accepts([mark] + rest, st) <==> (st == Digits || st == DigitsAfterPoints) && Accepts(rest, E)
  {
    hide Accepts;
    FirstByte([mark] + rest, st);
    assert ([mark] + rest)[1..] == rest;
  }

  // What follows the whole part.
  lemma TailFollows(f: Fraction, e: Exponent, st: NumState)
    requires ExponentShaped(e) && (f.Fraction? ==> AllDigits(f.digits)) && (st == Digits || st == ZeroFirst)
    ensures Accepts(FractionText(f) + ExponentText(e), st) <==>
            (e.Exponent? ==> (e.sign != [] || e.digits != []) && !(st == ZeroFirst && f.NoFraction?))
  {
    hide Accepts, NumStep, ExponentText, AllDigits;
    var s := FractionText(f) + ExponentText(e);
    if f.Fraction? {
      assert s == ['.' as int] + (f.digits + ExponentText(e));
      PointStep(f.digits + ExponentText(e), st);
      DigitsPass(f.digits, ExponentText(e), DigitsAfterPoints);
      ExponentFollows(e, DigitsAfterPoints);
    } else {
      assert s == ExponentText(e);
      ExponentNext(e, st);
    }
  }

  lemma ExponentNext(e: Exponent, st: NumState)
    requires ExponentShaped(e) && (st == Digits || st == ZeroFirst)
    ensures Accepts(ExponentText(e), st) <==> (e.Exponent? ==> (e.sign != [] || e.digits != []) && st != ZeroFirst)
  {
    hide Accepts, AllDigits;
    if e.Exponent? {
      MarkStep(e.mark, e.sign + e.digits, st);
      AfterMark(e.sign, e.digits);
    } else {
      FirstByte([], st);
    }
  }

  lemma TailByte(s: seq<byte>, st: NumState)
    requires Accepts(s, st) && (st == Digits || st == ZeroFirst) && s != [] && !IsDigit(s[0])
    ensures (Is(s[0], '.') && Accepts(s[1..], DigitsAfterPoints)) || (IsMark(s[0]) && Accepts(s, Digits))
  {
    hide Accepts;
    FirstByte(s, st);
  }

  lemma Tail(s: seq<byte>, st: NumState) returns (f: Fraction, e: Exponent)
    requires Accepts(s, st) && (st == Digits || st == ZeroFirst) && (s == [] || !IsDigit(s[0]))
    ensures (f.Fraction? ==> AllDigits(f.digits)) && ExponentShaped(e) && FractionText(f) + ExponentText(e) == s
  {
    hide Accepts, AllDigits, ExponentShaped, ExponentText;
    f, e := NoFraction, NoExponent;
    if s == [] {
      assert ExponentText(NoExponent) == [] && ExponentShaped(NoExponent) by { Nothing(); }
    } else {
      TailByte(s, st);
      if Is(s[0], '.') {
        var ds;
        ds, e := FractionTail(s[1..]);
        f := Fraction(ds);
      } else {
        e := ExponentTail(s, Digits);
      }
    }
  }

  lemma Nothing()
    ensures ExponentText(NoExponent) == [] && ExponentShaped(NoExponent)
  {
  }

  // A number without its sign.
  lemma WholeFollows(whole: seq<byte>, f: Fraction, e: Exponent, st: NumState)
    requires IsWhole(whole) && ExponentShaped(e) && (f.Fraction? ==> AllDigits(f.digits)) && (st == Minus || st == AfterMinus)
    ensures Accepts(whole + (FractionText(f) + ExponentText(e)), st) <==>
            (e.Exponent? ==> (e.sign != [] || e.digits != []) && !(whole == ZERO && f.NoFraction?))
  {
    hide Accepts, FractionText, ExponentText;
    var tail := FractionText(f) + ExponentText(e);
    var s := whole + tail;
    FirstByte(s, st);
    var next := if whole[0] == '0' as int then ZeroFirst else Digits;
    assert s[1..] == whole[1..] + tail && NumStep(st, s[0]) == next;
    if next == ZeroFirst {
      assert whole == ZERO && s[1..] == tail;
    } else {
      assert AllDigits(whole[1..]);
      DigitsPass(whole[1..], tail, Digits);
    }
    TailFollows(f, e, next);
  }

  lemma Unsigned(s: seq<byte>, st: NumState) returns (whole: seq<byte>, f: Fraction, e: Exponent)
    requires Accepts(s, st) && (st == Minus || st == AfterMinus) && s != [] && IsDigit(s[0])
    ensures IsWhole(whole) && (f.Fraction? ==> AllDigits(f.digits)) && ExponentShaped(e)
    ensures whole + (FractionText(f) + ExponentText(e)) == s
  {
    hide Accepts, FractionText, ExponentText;
    FirstByte(s, st);
    if s[0] == '0' as int {
      whole := ZERO;
      FirstByte(s[1..], ZeroFirst);
      f, e := Tail(s[1..], ZeroFirst);
    } else {
      var ds, rest := LeadingDigits(s[1..]);
      DigitsPass(ds, rest, Digits);
      whole := [s[0]] + ds;
      f, e := Tail(rest, Digits);
    }
  }

  // The two languages -----------------------------------------------------------------------

  lemma ShapeIsTaken(n: Num)
    requires Shaped(n)
    ensures Accepts(NumText(n), Minus) <==> Taken(n)
  {
    var s := n.whole + (FractionText(n.fraction) + ExponentText(n.exponent));
    if n.minus {
      assert NumText(n)[1..] == s;
      WholeFollows(n.whole, n.fraction, n.exponent, AfterMinus);
    } else {
      assert NumText(n) == s;
      WholeFollows(n.whole, n.fraction, n.exponent, Minus);
    }
  }

  lemma TakenHasShape(w: seq<byte>) returns (n: Num)
    requires Accepts(w, Minus)
    ensures Shaped(n) && NumText(n) == w
  {
    hide Accepts, FractionText, ExponentText;
    FirstByte(w, Minus);
    if Is(w[0], '-') {
      FirstByte(w[1..], AfterMinus);
      var whole, f, e := Unsigned(w[1..], AfterMinus);
      n := Num(true, whole, f, e);
    } else {
      var whole, f, e := Unsigned(w, Minus);
      n := Num(false, whole, f, e);
    }
  }

  // Exactly which words the parser takes as numbers.
  lemma NumberLanguage(w: seq<byte>)
    ensures Accepts(w, Minus) <==> exists n :: Shaped(n) && Taken(n) && NumText(n) == w
  {
    if Accepts(w, Minus) {
      var n := TakenHasShape(w);
      ShapeIsTaken(n);
    }
    forall n | Shaped(n) && Taken(n) && NumText(n) == w
      ensures Accepts(w, Minus)
    {
      ShapeIsTaken(n);
    }
  }

  // A word has one shape at most.
  lemma {:induction false} DigitsEnd(a: seq<byte>, x: seq<byte>, b: seq<byte>, y: seq<byte>)
    requires AllDigits(a) && AllDigits(b) && a + x == b + y
    requires (x == [] || !IsDigit(x[0])) && (y == [] || !IsDigit(y[0]))
    ensures a == b && x == y
  {
    assert a == [] ==> a + x == x;
    assert b == [] ==> b + y == y;
    assert a != [] ==> (a + x)[0] == a[0] && (a + x)[1..] == a[1..] + x;
    assert b != [] ==> (b + y)[0] == b[0] && (b + y)[1..] == b[1..] + y;
    if a != [] && b != [] {
      DigitsEnd(a[1..], x, b[1..], y);
    }
  }

  lemma ExponentTells(a: Exponent, b: Exponent)
    requires ExponentShaped(a) && ExponentShaped(b) && ExponentText(a) == ExponentText(b)
    ensures a == b
  {
    if a.Exponent? && b.Exponent? {
      assert ExponentText(a)[1..] == a.sign + a.digits;
      assert ExponentText(b)[1..] == b.sign + b.digits;
      assert a.sign != [] ==> (a.sign + a.digits)[0] == a.sign[0];
      assert b.sign != [] ==> (b.sign + b.digits)[0] == b.sign[0];
      assert a.sign == [] ==> a.sign + a.digits == a.digits;
      assert b.sign == [] ==> b.sign + b.digits == b.digits;
      assert a.sign != [] ==> (a.sign + a.digits)[1..] == a.digits;
      assert b.sign != [] ==> (b.sign + b.digits)[1..] == b.digits;
    }
  }

  lemma PointTells(f: Fraction, e: Exponent)
    requires ExponentShaped(e)
    ensures var s := FractionText(f) + ExponentText(e);
            && (f.Fraction? <==> s != [] && s[0] == '.' as int)
            && (f.NoFraction? ==> s == ExponentText(e)) && (f.Fraction? ==> s[1..] == f.digits + ExponentText(e))
  {
    hide ExponentText;
    ExponentFirst(e);
    assert [] + ExponentText(e) == ExponentText(e);
    if f.Fraction? {
      assert FractionText(f) + ExponentText(e) == ['.' as int] + (f.digits + ExponentText(e));
    }
  }

  lemma ExponentFirst(e: Exponent)
    requires ExponentShaped(e)
    ensures ExponentText(e) == [] || IsMark(ExponentText(e)[0])
  {
  }

  lemma FractionTells(f: Fraction, a: Exponent, g: Fraction, b: Exponent)
    requires ExponentShaped(a) && ExponentShaped(b) && (f.Fraction? ==> AllDigits(f.digits)) && (g.Fraction? ==> AllDigits(g.digits))
    requires FractionText(f) + ExponentText(a) == FractionText(g) + ExponentText(b)
    ensures f == g && a == b
  {
    hide ExponentText, FractionText, ExponentShaped, AllDigits;
    PointTells(f, a);
    PointTells(g, b);
    if f.Fraction? {
      TailStarts(NoFraction, a);
      TailStarts(NoFraction, b);
      PointTells(NoFraction, a);
      PointTells(NoFraction, b);
      DigitsEnd(f.digits, ExponentText(a), g.digits, ExponentText(b));
    }
    ExponentTells(a, b);
  }

  lemma TailStarts(f: Fraction, e: Exponent)
    requires ExponentShaped(e)
    ensures var x := FractionText(f) + ExponentText(e); x == [] || !IsDigit(x[0])
  {
    assert f.NoFraction? ==> FractionText(f) + ExponentText(e) == ExponentText(e);
  }

  lemma TextTells(n: Num, m: Num)
    requires Shaped(n) && Shaped(m) && NumText(n) == NumText(m)
    ensures n == m
  {
    var x, y := FractionText(n.fraction) + ExponentText(n.exponent), FractionText(m.fraction) + ExponentText(m.exponent);
    assert n.minus ==> NumText(n)[1..] == n.whole + x;
    assert m.minus ==> NumText(m)[1..] == m.whole + y;
    assert !n.minus ==> NumText(n) == n.whole + x;
    assert !m.minus ==> NumText(m) == m.whole + y;
    assert !n.minus ==> NumText(n)[0] == n.whole[0];
    assert !m.minus ==> NumText(m)[0] == m.whole[0];
    TailStarts(n.fraction, n.exponent);
    TailStarts(m.fraction, m.exponent);
    DigitsEnd(n.whole, x, m.whole, y);
    FractionTells(n.fraction, n.exponent, m.fraction, m.exponent);
  }

  // Where the parser and the standard differ: it refuses an exponent right behind a zero, and
  // takes a point, or the sign of an exponent, without digits behind it.
  lemma WhereTheyDiffer(n: Num)
    requires Shaped(n)
    ensures var bare := n.exponent.Exponent? && n.whole == ZERO && n.fraction.NoFraction?;
            var noDigits := (n.fraction.Fraction? && n.fraction.digits == []) || (n.exponent.Exponent? && n.exponent.digits == []);
            var nothing := n.exponent.Exponent? && n.exponent.sign == [] && n.exponent.digits == [];
            && (IsStandardNumber(NumText(n)) && !Accepts(NumText(n), Minus) <==> bare && !noDigits)
            && (Accepts(NumText(n), Minus) && !IsStandardNumber(NumText(n)) <==> noDigits && !bare && !nothing)
  {
    ShapeIsTaken(n);
    if IsStandardNumber(NumText(n)) {
      var m :| Shaped(m) && Standard(m) && NumText(m) == NumText(n);
      TextTells(m, n);
    }
  }

  // Words of both kinds.
  lemma Differing()
    ensures var point := [49, 46]; Accepts(point, Minus) && !IsStandardNumber(point)           // 1.
    ensures var sign := [49, 101, 45]; Accepts(sign, Minus) && !IsStandardNumber(sign)        // 1e-
    ensures var zero := [48, 101, 53]; !Accepts(zero, Minus) && IsStandardNumber(zero)        // 0e5
  {
    var point := Num(false, [49], Fraction([]), NoExponent);
    assert NumText(point) == [49, 46];
    WhereTheyDiffer(point);
    var sign := Num(false, [49], NoFraction, Exponent(101, [45], []));
    assert NumText(sign) == [49, 101, 45];
    WhereTheyDiffer(sign);
    var zero := Num(false, ZERO, NoFraction, Exponent(101, [], [53]));
    assert NumText(zero) == [48, 101, 53];
    WhereTheyDiffer(zero);
  }
}
