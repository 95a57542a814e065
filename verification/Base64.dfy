/** Base64 with either alphabet: sections 4 and 5 of RFC 4648. */
module Base64 {
  import opened Common

  type digit = x: int | 0 <= x < 64

  // The standard ------------------------------------------------------------

  // A 24-bit group as four digits, and back.
  function Digits(n: nat): (s: seq<digit>)
    requires n < 0x100_0000
    ensures |s| == 4
  {
    [n / 64 / 64 / 64, n / 64 / 64 % 64, n / 64 % 64, n % 64]
  }

  function Group(p: digit, q: digit, r: digit, s: digit): (n: nat)
    ensures n < 0x100_0000
  {
    ((p * 64 + q) * 64 + r) * 64 + s
  }

  function Number(a: byte, b: byte, c: byte): (n: nat)
    ensures n < 0x100_0000
  {
    (a * 256 + b) * 256 + c
  }

  function Octets(n: nat): (s: seq<byte>)
    requires n < 0x100_0000
    ensures |s| == 3
  {
    [n / 256 / 256, n / 256 % 256, n % 256]
  }

  const UPPER: string := "ABCDEFGHIJKLMNOPQRSTUVWXYZ"
  const LOWER: string := "abcdefghijklmnopqrstuvwxyz"
  const NUMERALS: string := "0123456789"

  function Alphabet(urlSafe: bool): (s: string)
    ensures |s| == 64
  {
    UPPER + LOWER + NUMERALS + if urlSafe then "-_" else "+/"
  }

  function Letters(ds: seq<digit>, key: string): (s: string)
    requires |key| == 64
    ensures |s| == |ds|
  {
    seq(|ds|, i requires 0 <= i < |ds| => key[ds[i]])
  }

  function Encoded(data: seq<byte>, key: string): (s: string)
    requires |key| == 64
    ensures |s| == (|data| + 2) / 3 * 4
  {
    if |data| >= 3 then Letters(Digits(Number(data[0], data[1], data[2])), key) + Encoded(data[3..], key)
    else if |data| == 2 then Letters(Digits(Number(data[0], data[1], 0))[..3], key) + "="
    else if |data| == 1 then Letters(Digits(Number(data[0], 0, 0))[..2], key) + "=="
    else ""
  }

  // The digit for a character; anything unknown counts as 0.
  function DigitOf(c: char): digit {
    if 'A' <= c <= 'Z' then c as int - 'A' as int
    else if 'a' <= c <= 'z' then c as int - 'a' as int + 26
    else if '0' <= c <= '9' then c as int - '0' as int + 52
    else if c == '+' || c == '-' then 62
    else if c == '/' || c == '_' then 63
    else 0
  }

  // How many bytes a text stands for, padded or not.
  function Size(s: string): nat
    requires |s| >= 2
  {
    var n := |s|;
    if n % 4 == 2 then n / 4 * 3 + 1
    else if n % 4 == 3 then n / 4 * 3 + 2
    else if s[n - 2] == '=' then n / 4 * 3 - 2
    else if s[n - 1] == '=' then n / 4 * 3 - 1
    else n / 4 * 3
  }

  function At(s: string, i: nat): digit {
    if i < |s| then DigitOf(s[i]) else 0
  }

  // So many bytes, from a text of groups of four.
  function Decoded(s: string, size: nat): (r: seq<byte>)
    ensures |r| == size
    decreases size
  {
    if size == 0 then []
    else
      var octets := Octets(Group(At(s, 0), At(s, 1), At(s, 2), At(s, 3)));
      if size >= 3 then octets + Decoded(if |s| >= 4 then s[4..] else "", size - 3)
      else if size == 2 then Octets(Group(At(s, 0), At(s, 1), At(s, 2), 0))[..2]
      else Octets(Group(At(s, 0), At(s, 1), 0, 0))[..1]
  }

  // Groups ------------------------------------------------------------------

  lemma Split64(n: nat, q: nat, r: nat)
    requires n == q * 64 + r && r < 64
    ensures n / 64 == q && n % 64 == r
  {
  }

  lemma DigitsGroup(p: digit, q: digit, r: digit, s: digit)
    ensures Digits(Group(p, q, r, s)) == [p, q, r, s]
  {
    Split64(Group(p, q, r, s), (p * 64 + q) * 64 + r, s);
    Split64((p * 64 + q) * 64 + r, p * 64 + q, r);
    Split64(p * 64 + q, p, q);
  }

  lemma OctetsNumber(a: byte, b: byte, c: byte)
    ensures Octets(Number(a, b, c)) == [a, b, c]
  {
  }

  lemma UpperAt(d: nat)
    requires d < 26
    ensures UPPER[d] as int == 'A' as int + d
  {
  }

  lemma LetterAt(d: digit, urlSafe: bool)
    ensures Alphabet(urlSafe)[d] ==
            if d < 26 then UPPER[d] else if d < 52 then LOWER[d - 26] else if d < 62 then NUMERALS[d - 52]
            else if d == 63 then (if urlSafe then '_' else '/') else (if urlSafe then '-' else '+')
  {
  }

  lemma LetterDigits(d: digit, urlSafe: bool)
    ensures DigitOf(Alphabet(urlSafe)[d]) == d && Alphabet(urlSafe)[d] != '='
  {
    hide Alphabet;
    LetterAt(d, urlSafe);
    if d < 26 {
      UpperAt(d);
    } else if d < 52 {
    } else if d < 62 {
    }
  }

  // The program -----------------------------------------------------------------

  // The shifts and masks of the encoder, on numbers.
  lemma EncoderBits(a: byte, b: byte, c: byte)
    ensures Digits(Number(a, b, c)) == [a / 4, a % 4 * 16 + b / 16, b % 16 * 4 + c / 64, c % 64]
  {
    hide Digits;
    assert Number(a, b, c) == Group(a / 4, a % 4 * 16 + b / 16, b % 16 * 4 + c / 64, c % 64);
    DigitsGroup(a / 4, a % 4 * 16 + b / 16, b % 16 * 4 + c / 64, c % 64);
  }

  method Encode(data: seq<byte>, key: string) returns (ret: array<char>)
    requires |key| == 64
    ensures fresh(ret) && ret[..] == Encoded(data, key)
  {
    hide Letters, Digits, Number, Encoded;
    EncodedSize(data, key);
    ret := new char[(|data| + 2) / 3 * 4];
    var it: nat, at: nat := 0, 0;
    assert data[0..] == data;
    while |data| - at >= 3
      invariant at <= |data| && at % 3 == 0 && it == at / 3 * 4 <= ret.Length
      invariant ret[..it] + Encoded(data[at..], key) == Encoded(data, key)
    {
      EncodedNext(data[at..], key);
      EncodeGroup(ret, it, data[at], data[at + 1], data[at + 2], key);
      assert data[at..][3..] == data[at + 3..];
      it, at := it + 4, at + 3;
    }
    EncodeEnd(ret, it, data[at..], key);
  }

  lemma EncodedSize(data: seq<byte>, key: string)
    requires |key| == 64
    ensures |Encoded(data, key)| == (|data| + 2) / 3 * 4
  {
  }

  lemma EncodedNext(data: seq<byte>, key: string)
    requires |key| == 64 && |data| >= 3
    ensures Encoded(data, key) == Letters(Digits(Number(data[0], data[1], data[2])), key) + Encoded(data[3..], key)
  {
  }

  method EncodeGroup(ret: array<char>, it: nat, a: byte, b: byte, c: byte, key: string)
    requires |key| == 64 && it + 4 <= ret.Length
    modifies ret
    ensures ret[..it + 4] == old(ret[..it]) + Letters(Digits(Number(a, b, c)), key)
  {
    EncoderBits(a, b, c);
    ret[it] := key[a / 4];
    ret[it + 1] := key[a % 4 * 16 + b / 16];
    ret[it + 2] := key[b % 16 * 4 + c / 64];
    ret[it + 3] := key[c % 64];
  }

  // The last one or two bytes.
  method EncodeEnd(ret: array<char>, it: nat, rest: seq<byte>, key: string)
    requires |key| == 64 && |rest| < 3 && it + (|rest| + 2) / 3 * 4 == ret.Length
    modifies ret
    ensures ret[..] == old(ret[..it]) + Encoded(rest, key)
  {
    if |rest| == 1 {
      EncoderBits(rest[0], 0, 0);
      ret[it] := key[rest[0] / 4];
      ret[it + 1] := key[rest[0] % 4 * 16];
      ret[it + 2] := '=';
      ret[it + 3] := '=';
    } else if |rest| == 2 {
      EncoderBits(rest[0], rest[1], 0);
      ret[it] := key[rest[0] / 4];
      ret[it + 1] := key[rest[0] % 4 * 16 + rest[1] / 16];
      ret[it + 2] := key[rest[1] % 16 * 4];
      ret[it + 3] := '=';
    }
  }

  lemma DecoderBits(p: digit, q: digit, r: digit, s: digit)
    ensures Octets(Group(p, q, r, s)) == [p * 4 + q / 16, q % 16 * 16 + r / 4, r % 4 * 64 + s]
  {
    hide Octets;
    assert Group(p, q, r, s) == Number(p * 4 + q / 16, q % 16 * 16 + r / 4, r % 4 * 64 + s);
    OctetsNumber(p * 4 + q / 16, q % 16 * 16 + r / 4, r % 4 * 64 + s);
  }

  method Decode(data: string) returns (ret: array<byte>)
    requires |data| >= 2
    ensures fresh(ret) && ret[..] == Decoded(data, Size(data))
  {
    hide Octets, Group, Decoded, Size, DigitOf;
    var total := Size(data);
    ret := new byte[total];
    var it: nat, at: nat, size: nat := 0, 0, total;
    Fits(data);
    assert data[0..] == data && ret[..0] == [];
    while size >= 3
      invariant it + size == total && it % 3 == 0 && at == it / 3 * 4 <= |data|
      invariant at + (size * 4 + 2) / 3 <= |data|
      invariant ret[..it] + Decoded(data[at..], size) == Decoded(data, total)
    {
      DecodedNext(data[at..], size);
      assert data[at..][4..] == data[at + 4..];
      DecodeGroup(ret, it, data[at], data[at + 1], data[at + 2], data[at + 3]);
      it, at, size := it + 3, at + 4, size - 3;
    }
    DecodeEnd(ret, it, data[at..], size);
  }

  lemma DecodedNext(s: string, size: nat)
    requires size >= 3 && |s| >= 4
    ensures Decoded(s, size) == Octets(Group(DigitOf(s[0]), DigitOf(s[1]), DigitOf(s[2]), DigitOf(s[3]))) + Decoded(s[4..], size - 3)
  {
    hide DigitOf;
  }

  method DecodeGroup(ret: array<byte>, it: nat, p: char, q: char, r: char, s: char)
    requires it + 3 <= ret.Length
    modifies ret
    ensures ret[..it + 3] == old(ret[..it]) + Octets(Group(DigitOf(p), DigitOf(q), DigitOf(r), DigitOf(s)))
  {
    hide Octets, Group, DigitOf;
    var odd: int, even: int := DigitOf(p), DigitOf(q);
    ret[it] := odd * 4 + even / 16;
    var odd2: int := DigitOf(r);
    ret[it + 1] := even % 16 * 16 + odd2 / 4;
    var even2: int := DigitOf(s);
    ret[it + 2] := odd2 % 4 * 64 + even2;
    DecoderBits(odd, even, odd2, even2);
  }

  // The last one or two bytes.
  method DecodeEnd(ret: array<byte>, it: nat, rest: string, size: nat)
    requires size < 3 && it + size == ret.Length && (size > 0 ==> |rest| > size)
    modifies ret
    ensures ret[..] == old(ret[..it]) + Decoded(rest, size)
  {
    hide Octets, Group, DigitOf;
    if size == 2 {
      var odd: int, even: int := DigitOf(rest[0]), DigitOf(rest[1]);
      ret[it] := odd * 4 + even / 16;
      var odd2: int := DigitOf(rest[2]);
      ret[it + 1] := even % 16 * 16 + odd2 / 4;
      DecoderBits(odd, even, odd2, 0);
    } else if size == 1 {
      var odd: int, even: int := DigitOf(rest[0]), DigitOf(rest[1]);
      ret[it] := odd * 4 + even / 16;
      DecoderBits(odd, even, 0, 0);
    }
  }

  // The characters that are read for so many bytes are there.
  lemma Fits(s: string)
    requires |s| >= 2
    ensures (Size(s) * 4 + 2) / 3 <= |s|
  {
  }

  // The round trip ----------------------------------------------------------------

  // How many characters hold the bits of n bytes.
  function Needed(n: nat): nat { (4 * n + 2) / 3 }

  lemma GroupLetters(ds: seq<digit>, urlSafe: bool, s: string, k: nat)
    requires |ds| == 4 && k <= 4 && k <= |s| && s[..k] == Letters(ds, Alphabet(urlSafe))[..k]
    ensures forall i :: 0 <= i < k ==> At(s, i) == ds[i] && s[i] != '='
  {
    hide Alphabet, DigitOf;
    forall i | 0 <= i < k
      ensures At(s, i) == ds[i] && s[i] != '='
    {
      LetterDigits(ds[i], urlSafe);
      assert s[i] == s[..k][i] == Letters(ds, Alphabet(urlSafe))[i];
    }
  }

  lemma NumberDigits(a: byte, b: byte, c: byte)
    ensures var d := Digits(Number(a, b, c)); Group(d[0], d[1], d[2], d[3]) == Number(a, b, c)
    ensures c == 0 ==> Digits(Number(a, b, c))[3] == 0
    ensures b == 0 && c == 0 ==> Digits(Number(a, b, c))[2] == 0
  {
    hide Digits;
    EncoderBits(a, b, c);
  }

  // Whatever follows the characters that hold bits, the bytes come back.
  lemma {:induction false} LettersDecode(data: seq<byte>, urlSafe: bool, s: string)
    requires Needed(|data|) <= |s| && Needed(|data|) <= |Encoded(data, Alphabet(urlSafe))|
    requires s[..Needed(|data|)] == Encoded(data, Alphabet(urlSafe))[..Needed(|data|)]
    ensures Decoded(s, |data|) == data
    decreases |data|
  {
    hide Alphabet, Letters, Digits, Number, Octets, Group, At;
    var key := Alphabet(urlSafe);
    var e := Encoded(data, key);
    var n := Needed(|data|);
    if |data| >= 3 {
      var ds := Digits(Number(data[0], data[1], data[2]));
      EncodedNext(data, key);
      LettersLength(ds, key);
      assert s[..4] == s[..n][..4] == e[..n][..4] == e[..4] == Letters(ds, key);
      assert Letters(ds, key)[..4] == Letters(ds, key);
      GroupLetters(ds, urlSafe, s, 4);
      NumberDigits(data[0], data[1], data[2]);
      OctetsNumber(data[0], data[1], data[2]);
      var rest := Encoded(data[3..], key);
      assert s[4..][..n - 4] == s[..n][4..] == e[..n][4..] == rest[..n - 4];
      EncodedSize(data[3..], key);
      LettersDecode(data[3..], urlSafe, s[4..]);
      assert data == [data[0], data[1], data[2]] + data[3..];
    } else if data != [] {
      ShortDecode(data, urlSafe, s);
    }
  }

  lemma LettersLength(ds: seq<digit>, key: string)
    requires |key| == 64
    ensures |Letters(ds, key)| == |ds|
  {
  }

  function ShortGroup(data: seq<byte>): nat
    requires 0 < |data| < 3
  {
    Number(data[0], if |data| == 2 then data[1] else 0, 0)
  }

  lemma ShortEncoded(data: seq<byte>, key: string)
    requires 0 < |data| < 3 && |key| == 64
    ensures ShortGroup(data) < 0x100_0000 && |Encoded(data, key)| == 4
    ensures Encoded(data, key)[..|data| + 1] == Letters(Digits(ShortGroup(data)), key)[..|data| + 1]
    ensures Encoded(data, key)[|data| + 1..] == if |data| == 2 then "=" else "=="
  {
    hide Digits, Number;
  }

  lemma ShortDecoded(s: string, size: nat, p: digit, q: digit, r: digit)
    requires 0 < size < 3 && At(s, 0) == p && At(s, 1) == q && (size == 2 ==> At(s, 2) == r) && (size == 1 ==> r == 0)
    ensures Decoded(s, size) == Octets(Group(p, q, r, 0))[..size]
  {
    hide At, Octets, Group;
  }

  lemma ShortDecode(data: seq<byte>, urlSafe: bool, s: string)
    requires 0 < |data| < 3 && |data| + 1 <= |s| && s[..|data| + 1] == Encoded(data, Alphabet(urlSafe))[..|data| + 1]
    ensures Decoded(s, |data|) == data
  {
    hide Alphabet, Letters, Digits, Number, Octets, Group, At, Encoded, Decoded;
    var key := Alphabet(urlSafe);
    var b := if |data| == 2 then data[1] else 0;
    var ds := Digits(ShortGroup(data));
    ShortEncoded(data, key);
    GroupLetters(ds, urlSafe, s, |data| + 1);
    NumberDigits(data[0], b, 0);
    OctetsNumber(data[0], b, 0);
    ShortDecoded(s, |data|, ds[0], ds[1], ds[2]);
    assert data == [data[0], b, 0][..|data|];
  }

  // The last characters tell how much padding there is.
  lemma {:induction false} PaddingTells(data: seq<byte>, urlSafe: bool)
    requires data != []
    ensures var e := Encoded(data, Alphabet(urlSafe));
            && |e| >= 4 && (e[|e| - 1] == '=' <==> |data| % 3 != 0) && (e[|e| - 2] == '=' <==> |data| % 3 == 1)
    decreases |data|
  {
    hide Alphabet, Letters, Digits, Number;
    var key := Alphabet(urlSafe);
    EncodedSize(data, key);
    if |data| > 3 {
      EncodedNext(data, key);
      LettersLength(Digits(Number(data[0], data[1], data[2])), key);
      PaddingTells(data[3..], urlSafe);
    } else if |data| == 3 {
      var ds := Digits(Number(data[0], data[1], data[2]));
      EncodedNext(data, key);
      LettersLength(ds, key);
      assert Encoded(data[3..], key) == "";
      assert Encoded(data, key) == Letters(ds, key) == Letters(ds, key)[..4];
      GroupLetters(ds, urlSafe, Encoded(data, key), 4);
    } else {
      ShortEncoded(data, key);
      var e := Encoded(data, key);
      GroupLetters(Digits(ShortGroup(data)), urlSafe, e, |data| + 1);
      assert e[3] == e[|data| + 1..][2 - |data|];
      assert |data| == 1 ==> e[2] == e[2..][0];
    }
  }

  // Encoding and decoding again, with the padding or without it, gives the data back.
  lemma RoundTrip(data: seq<byte>, urlSafe: bool)
    requires data != []
    ensures var e := Encoded(data, Alphabet(urlSafe));
            var bare := e[..Needed(|data|)];
            && |bare| >= 2 && '=' !in bare && e == bare + (if |data| % 3 == 0 then "" else if |data| % 3 == 2 then "=" else "==")
            && Size(e) == |data| && Decoded(e, Size(e)) == data
            && Size(bare) == |data| && Decoded(bare, Size(bare)) == data
  {
    hide Encoded, Decoded, Alphabet;
    var key := Alphabet(urlSafe);
    var e := Encoded(data, key);
    EncodedSize(data, key);
    PaddingTells(data, urlSafe);
    var bare := e[..Needed(|data|)];
    LettersDecode(data, urlSafe, e);
    assert bare[..Needed(|data|)] == bare;
    LettersDecode(data, urlSafe, bare);
    NoEquals(data, urlSafe);
  }

  lemma {:induction false} NoEquals(data: seq<byte>, urlSafe: bool)
    ensures var e := Encoded(data, Alphabet(urlSafe));
            && Needed(|data|) <= |e| && forall i :: 0 <= i < |e| ==> (e[i] == '=' <==> i >= Needed(|data|))
    decreases |data|
  {
    hide Alphabet, Letters, Digits, Number;
    var key := Alphabet(urlSafe);
    EncodedSize(data, key);
    if |data| >= 3 {
      var ds := Digits(Number(data[0], data[1], data[2]));
      EncodedNext(data, key);
      LettersLength(ds, key);
      var e := Encoded(data, key);
      assert e[..4] == Letters(ds, key) == Letters(ds, key)[..4];
      GroupLetters(ds, urlSafe, e, 4);
      NoEquals(data[3..], urlSafe);
      assert forall i :: 4 <= i < |e| ==> e[i] == Encoded(data[3..], key)[i - 4];
    } else if data != [] {
      ShortEncoded(data, key);
      var e := Encoded(data, key);
      GroupLetters(Digits(ShortGroup(data)), urlSafe, e, |data| + 1);
      assert e[3] == e[|data| + 1..][2 - |data|];
      assert |data| == 1 ==> e[2] == e[2..][0];
    }
  }
}
