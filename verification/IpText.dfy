/** Text of IP addresses: tokens, number prefixes, and the addresses of section 2.2 of RFC 4291. */
module IpText {
  // Tokens ------------------------------------------------------------------

  // The first separator.
  function Find(s: string, c: char): (k: nat)
    ensures k <= |s| && (k < |s| ==> s[k] == c) && c !in s[..k]
  {
    if s == "" || s[0] == c then 0
    else
      var k := 1 + Find(s[1..], c);
      assert s[..k] == [s[0]] + s[1..][..k - 1];
      k
  }

  // getline: tokens end at a separator; after the last one there is no empty token.
  function Tokens(s: string, sep: char): seq<string>
    decreases |s|
  {
    if s == "" then []
    else
      var k := Find(s, sep);
      [s[..k]] + if k == |s| then [] else Tokens(s[k + 1..], sep)
  }

  function NonEmpty(tokens: seq<string>): seq<string> {
    if tokens == [] then []
    else (if tokens[0] == "" then [] else [tokens[0]]) + NonEmpty(tokens[1..])
  }

  function Split(s: string, sep: char, collapse: bool): seq<string> {
    if collapse then NonEmpty(Tokens(s, sep)) else Tokens(s, sep)
  }

  // The tokens with separators between them.
  function Join(tokens: seq<string>, sep: char): string {
    if tokens == [] then ""
    else if |tokens| == 1 then tokens[0]
    else tokens[0] + [sep] + Join(tokens[1..], sep)
  }

  lemma {:induction false} FindAt(s: string, c: char, rest: string)
    requires c !in s
    ensures Find(s + [c] + rest, c) == |s|
  {
    if s != "" {
      FindAt(s[1..], c, rest);
      assert (s + [c] + rest)[1..] == s[1..] + [c] + rest;
    }
  }

  ghost predicate Plain(tokens: seq<string>, sep: char) {
    forall t :: t in tokens ==> sep !in t
  }

  lemma TokensOfJoin(t: string, sep: char, rest: string)
    requires sep !in t
    ensures Tokens(t + [sep] + rest, sep) == [t] + Tokens(rest, sep)
  {
    hide Find;
    var s := t + [sep] + rest;
    FindAt(t, sep, rest);
    assert s[..|t|] == t && s[|t| + 1..] == rest;
  }

  lemma TokensOfOne(t: string, sep: char)
    requires sep !in t
    ensures Tokens(t, sep) == if t == "" then [] else [t]
  {
    hide Find;
    assert t[..|t|] == t;
  }

  // All tokens but an empty one at the end.
  function Trimmed(tokens: seq<string>): seq<string> {
    if tokens != [] && tokens[|tokens| - 1] == "" then tokens[..|tokens| - 1] else tokens
  }

  lemma TrimmedMore(tokens: seq<string>)
    requires |tokens| > 1
    ensures Trimmed(tokens) == [tokens[0]] + Trimmed(tokens[1..])
  {
    assert tokens == [tokens[0]] + tokens[1..];
    assert tokens[..|tokens| - 1] == [tokens[0]] + tokens[1..][..|tokens| - 2];
  }

  // Tokens that are joined come apart again, but for an empty one at the end.
  lemma {:induction false} SplitJoin(tokens: seq<string>, sep: char)
    requires Plain(tokens, sep) && tokens != []
    ensures Tokens(Join(tokens, sep), sep) == Trimmed(tokens)
    decreases |tokens|
  {
    hide Tokens, Trimmed;
    if |tokens| == 1 {
      TokensOfOne(tokens[0], sep);
      TrimmedOne(tokens);
    } else {
      TokensOfJoin(tokens[0], sep, Join(tokens[1..], sep));
      SplitJoin(tokens[1..], sep);
      TrimmedMore(tokens);
    }
  }

  lemma TrimmedOne(tokens: seq<string>)
    requires |tokens| == 1
    ensures Trimmed(tokens) == if tokens[0] == "" then [] else [tokens[0]]
  {
  }

  lemma {:induction false} NonEmptyAll(tokens: seq<string>)
    requires "" !in tokens
    ensures NonEmpty(tokens) == tokens
  {
    if tokens != [] {
      NonEmptyAll(tokens[1..]);
      assert tokens == [tokens[0]] + tokens[1..];
    }
  }

  // strtol ------------------------------------------------------------------

  predicate IsSpace(c: char) { c == ' ' || '\t' <= c <= '\r' }

  // The value of a digit, or -1.
  function DigitValue(c: char): int {
    if '0' <= c <= '9' then c as int - '0' as int
    else if 'a' <= c <= 'z' then c as int - 'a' as int + 10
    else if 'A' <= c <= 'Z' then c as int - 'A' as int + 10
    else -1
  }

  predicate IsDigit(c: char, base: nat) { 0 <= DigitValue(c) < base }

  // The digits that come first, as a number.
  function Digits(s: string, base: nat, sofar: nat): nat {
    if s == "" || !IsDigit(s[0], base) then sofar else Digits(s[1..], base, sofar * base + DigitValue(s[0]))
  }

  const LONG_MAX: int := 0x7FFF_FFFF_FFFF_FFFF

  function Clamped(n: int): int {
    if n > LONG_MAX then LONG_MAX else if n < -LONG_MAX - 1 then -LONG_MAX - 1 else n
  }

  function SkipSpace(s: string): string {
    if s != "" && IsSpace(s[0]) then SkipSpace(s[1..]) else s
  }

  function SkipPrefix(s: string, base: nat): string {
    if base == 16 && |s| > 2 && s[0] == '0' && (s[1] == 'x' || s[1] == 'X') && IsDigit(s[2], 16) then s[2..] else s
  }

  function Strtol(text: string, base: nat): int {
    var s := SkipSpace(text);
    if s != "" && s[0] == '-' then Clamped(-(Digits(SkipPrefix(s[1..], base), base, 0) as int))
    else if s != "" && s[0] == '+' then Clamped(Digits(SkipPrefix(s[1..], base), base, 0))
    else Clamped(Digits(SkipPrefix(s, base), base, 0))
  }

  // Assignment to a 16-bit unsigned number.
  function U16(n: int): (r: nat)
    ensures r < 0x1_0000
  {
    n % 0x1_0000
  }

  // The number that digits denote, in full.
  function Value(s: string, base: nat): nat {
    if s == "" then 0
    else if IsDigit(s[|s| - 1], base) then Value(s[..|s| - 1], base) * base + DigitValue(s[|s| - 1])
    else Value(s[..|s| - 1], base) * base
  }

  ghost predicate AllDigits(s: string, base: nat) {
    forall i :: 0 <= i < |s| ==> IsDigit(s[i], base)
  }

  lemma {:induction false} DigitsAre(s: string, base: nat, before: string)
    requires AllDigits(s, base)
    ensures Digits(s, base, Value(before, base)) == Value(before + s, base)
    decreases |s|
  {
    if s == "" {
      assert before + s == before;
    } else {
      var next := before + [s[0]];
      assert next[..|next| - 1] == before;
      DigitsAre(s[1..], base, next);
      assert next + s[1..] == before + s;
    }
  }

  lemma DigitsStart(s: string, base: nat)
    requires AllDigits(s, base) && (base == 10 || base == 16)
    ensures SkipSpace(s) == s && SkipPrefix(s, base) == s && (s != "" ==> s[0] != '-' && s[0] != '+')
  {
    if s != "" {
      assert IsDigit(s[0], base);
      if |s| > 2 {
        assert IsDigit(s[1], base);
      }
    }
  }

  // On digits only, strtol gives their value.
  lemma StrtolIs(s: string, base: nat)
    requires AllDigits(s, base) && (base == 10 || base == 16) && Value(s, base) <= LONG_MAX
    ensures Strtol(s, base) == Value(s, base)
  {
    hide Digits, Value, SkipSpace, SkipPrefix, IsDigit;
    DigitsAre(s, base, "");
    EmptyValue(base);
    assert "" + s == s;
    DigitsStart(s, base);
  }

  lemma EmptyValue(base: nat)
    ensures Value("", base) == 0
  {
  }
}
