/** The streaming SHA-1 object, against sections 5 and 6.1 of FIPS 180-4. */
module Sha1 {
  import opened Common

  type word = bv32

  // The standard ------------------------------------------------------------

  datatype Hash = Hash(a: word, b: word, c: word, d: word, e: word)

  const INITIAL := Hash(0x67452301, 0xEFCDAB89, 0x98BADCFE, 0x10325476, 0xC3D2E1F0)

  function Rotl1(x: word): word { (x << 1) | (x >> 31) }
  function Rotl5(x: word): word { (x << 5) | (x >> 27) }
  function Rotl30(x: word): word { (x << 30) | (x >> 2) }

  function Ch(x: word, y: word, z: word): word { (x & y) ^ (!x & z) }
  function Parity(x: word, y: word, z: word): word { x ^ y ^ z }
  function Maj(x: word, y: word, z: word): word { (x & y) ^ (x & z) ^ (y & z) }

  function F(t: nat, x: word, y: word, z: word): word {
    if t < 20 then Ch(x, y, z) else if t < 40 then Parity(x, y, z) else if t < 60 then Maj(x, y, z) else Parity(x, y, z)
  }

  function K(t: nat): word {
    if t < 20 then 0x5A827999 else if t < 40 then 0x6ED9EBA1 else if t < 60 then 0x8F1BBCDC else 0xCA62C1D6
  }

  // Four bytes, the first the most significant.
  function Word(p: byte, q: byte, r: byte, s: byte): word {
    Joined(p as word, q as word, r as word, s as word)
  }

  function Joined(p: word, q: word, r: word, s: word): word {
    (p << 24) | (q << 16) | (r << 8) | s
  }

  function Mixed(p: word, q: word, r: word, s: word): word { p ^ q ^ r ^ s }
  function Sum(p: word, q: word, r: word, s: word, t: word): word { p + q + r + s + t }

  function Schedule(block: seq<byte>, t: nat): word
    requires |block| == 64
  {
    if t < 16 then Word(block[4 * t], block[4 * t + 1], block[4 * t + 2], block[4 * t + 3])
    else Rotl1(Mixed(Schedule(block, t - 3), Schedule(block, t - 8), Schedule(block, t - 14), Schedule(block, t - 16)))
  }

  function Round(h: Hash, t: nat, w: word): Hash {
    Hash(Sum(Rotl5(h.a), F(t, h.b, h.c, h.d), h.e, K(t), w), h.a, Rotl30(h.b), h.c, h.d)
  }

  // The working variables after t rounds.
  function Rounds(h: Hash, block: seq<byte>, t: nat): Hash
    requires |block| == 64
  {
    if t == 0 then h else Round(Rounds(h, block, t - 1), t - 1, Schedule(block, t - 1))
  }

  function Plus(x: word, y: word): word { x + y }

  function Add(h: Hash, g: Hash): Hash {
    Hash(Plus(h.a, g.a), Plus(h.b, g.b), Plus(h.c, g.c), Plus(h.d, g.d), Plus(h.e, g.e))
  }

  function Compress(h: Hash, block: seq<byte>): Hash
    requires |block| == 64
  {
    Add(h, Rounds(h, block, 80))
  }

  // The hash value after whole blocks.
  function Blocks(m: seq<byte>): Hash {
    if |m| < 64 then INITIAL else Compress(Blocks(m[..|m| - 64]), m[|m| - 64..])
  }

  function Zeros(n: nat): (s: seq<byte>)
    ensures |s| == n
  {
    seq(n, _ => 0)
  }

  // The k-th byte of a number, from the least significant.
  function ByteOf(n: nat, k: nat): byte
  {
    n / Pow256(k) % 256
  }

  // A 64-bit number, the most significant byte first.
  function Length(n: nat): seq<byte> {
    [ByteOf(n, 7), ByteOf(n, 6), ByteOf(n, 5), ByteOf(n, 4), ByteOf(n, 3), ByteOf(n, 2), ByteOf(n, 1), ByteOf(n, 0)]
  }

  function Gap(n: nat): nat { (55 - n as int) % 64 }

  // Section 5.1.1: a 1 bit, zeros, and the length in bits, up to a whole number of blocks.
  function Padded(m: seq<byte>): (r: seq<byte>)
    ensures |r| % 64 == 0
  {
    WholeBlocks(|m|);
    m + [0x80] + Zeros(Gap(|m|)) + Length(8 * |m|)
  }

  lemma WholeBlocks(n: nat)
    ensures (n + 1 + Gap(n) + 8) % 64 == 0
  {
    var k := (55 - n as int) / 64;
    assert 55 - n as int == 64 * k + (55 - n as int) % 64;
    assert n + 1 + Gap(n) + 8 == 64 * (1 - k);
  }

  function Digest(m: seq<byte>): Hash {
    Blocks(Padded(m))
  }

  // The program's forms --------------------------------------------------------

  function LeftRotate(x: word, n: nat): word
    requires 0 < n < 32
  {
    (x << n) ^ (x >> (32 - n))
  }

  function FCode(t: nat, b: word, c: word, d: word): word {
    if t < 20 then (b & c) | (!b & d)
    else if t < 40 then b ^ c ^ d
    else if t < 60 then (b & c) | (b & d) | (c & d)
    else b ^ c ^ d
  }

  lemma FCodeIsF(t: nat, b: word, c: word, d: word)
    ensures FCode(t, b, c, d) == F(t, b, c, d)
  {
    ChForms(b, c, d);
    MajForms(b, c, d);
  }

  lemma ChForms(b: word, c: word, d: word)
    ensures (b & c) | (!b & d) == Ch(b, c, d)
  {
  }

  lemma MajForms(b: word, c: word, d: word)
    ensures (b & c) | (b & d) | (c & d) == Maj(b, c, d)
  {
  }

  lemma Rotations(x: word)
    ensures LeftRotate(x, 1) == Rotl1(x) && LeftRotate(x, 5) == Rotl5(x) && LeftRotate(x, 30) == Rotl30(x)
  {
  }

  // The object -----------------------------------------------------------------

  class SHA1 {
    const digest: array<word>
    const block: array<byte>
    var index: nat
    var byteCount: nat
    ghost var message: seq<byte>  // all bytes since the last reset

    ghost predicate Valid()
      reads this, digest, block
    {
      && digest.Length == 5 && block.Length == 64
      && index == |message| % 64 && byteCount == |message| % TWO64
      && block[..index] == message[|message| - index..]
      && Value() == Blocks(message[..|message| - index])
    }

    ghost function Value(): Hash
      requires digest.Length == 5
      reads this, digest
    {
      Hash(digest[0], digest[1], digest[2], digest[3], digest[4])
    }

    constructor ()
      ensures Valid() && fresh(digest) && fresh(block) && message == []
    {
      digest := new word[5];
      block := new byte[64];
      index, byteCount, message := 0, 0, [];
      new;
      Reset();
    }

    method Reset()
      requires digest.Length == 5 && block.Length == 64
      modifies this, digest
      ensures Valid() && message == []
    {
      hide Compress;
      digest[0], digest[1], digest[2], digest[3], digest[4] := 0x67452301, 0xEFCDAB89, 0x98BADCFE, 0x10325476, 0xC3D2E1F0;
      index, byteCount, message := 0, 0, [];
    }

    // As Valid, but the block may be full.
    ghost predicate Filled()
      reads this, digest, block
    {
      && digest.Length == 5 && block.Length == 64
      && 0 < index <= 64 && index <= |message| && (|message| - index) % 64 == 0 && byteCount == |message| % TWO64
      && block[..index] == message[|message| - index..]
      && Value() == Blocks(message[..|message| - index])
    }

    method Store(b: byte)
      requires Valid()
      modifies this, block
      ensures Filled() && message == old(message) + [b] && index == old(index) + 1
    {
      hide Blocks;
      ByteCounted(|message|, index);
      ghost var part := message[|message| - index..];
      block[index] := b;
      index := index + 1;
      byteCount := (byteCount + 1) % TWO64;
      message := message + [b];
      ByteStored(old(message), b, old(index));
      assert block[..index] == part + [b];
    }

    method FinishBlock()
      requires Filled() && index == 64
      modifies this`index, digest
      ensures Valid() && index == 0
    {
      hide Blocks, Compress;
      ghost var whole := message[..|message| - 64];
      assert block[..] == block[..64];
      assert message == whole + block[..];
      index := 0;
      ProcessBlock();
      NextBlock(whole, block[..]);
      assert message[..|message|] == message;
    }

    // A byte goes into the block; a full block is processed.
    method ProcessByte(b: byte)
      requires Valid()
      modifies this, digest, block
      ensures Valid() && message == old(message) + [b] && index == if old(index) == 63 then 0 else old(index) + 1
    {
      hide Blocks;
      ByteCounted(|message|, index);
      Store(b);
      if index == 64 {
        FinishBlock();
      }
    }

    method LoadWord(i: nat) returns (x: word)
      requires block.Length == 64 && i < 16
      ensures x == Schedule(block[..], i)
    {
      hide Rotl1, Mixed;
      x := (block[i * 4] as word) << 24;
      x := x | ((block[i * 4 + 1] as word) << 16);
      x := x | ((block[i * 4 + 2] as word) << 8);
      x := x | (block[i * 4 + 3] as word);
    }

    // The message schedule of the block.
    method Schedules() returns (w: array<word>)
      requires block.Length == 64
      ensures fresh(w) && w.Length == 80 && forall t :: 0 <= t < 80 ==> w[t] == Schedule(block[..], t)
    {
      hide LeftRotate, Mixed, Schedule, Rotl1, Rotl5, Rotl30;
      w := new word[80];
      for i := 0 to 16
        invariant forall t :: 0 <= t < i ==> w[t] == Schedule(block[..], t)
      {
        w[i] := LoadWord(i);
      }
      for i := 16 to 80
        invariant forall t :: 0 <= t < i ==> w[t] == Schedule(block[..], t)
      {
        ScheduleNext(block[..], i);
        var x := Mixed(w[i - 3], w[i - 8], w[i - 14], w[i - 16]);
        w[i] := LeftRotate(x, 1);
      }
    }

    method ProcessBlock()
      requires digest.Length == 5 && block.Length == 64
      modifies digest
      ensures Value() == Compress(old(Value()), block[..])
    {
      hide LeftRotate, Rotl1, Rotl5, Rotl30, FCode, F, Schedule, Sum, Plus;
      var w := Schedules();
      var a, b, c, d, e := digest[0], digest[1], digest[2], digest[3], digest[4];
      for i := 0 to 80
        invariant Value() == old(Value())
        invariant Hash(a, b, c, d, e) == Rounds(old(Value()), block[..], i)
        invariant forall t :: 0 <= t < 80 ==> w[t] == Schedule(block[..], t)
      {
        Rotations(a);
        Rotations(b);
        FCodeIsF(i, b, c, d);
        var f := FCode(i, b, c, d);
        var k := K(i);
        var temp := Sum(LeftRotate(a, 5), f, e, k, w[i]);
        e := d;
        d := c;
        c := LeftRotate(b, 30);
        b := a;
        a := temp;
      }
      digest[0] := Plus(digest[0], a);
      digest[1] := Plus(digest[1], b);
      digest[2] := Plus(digest[2], c);
      digest[3] := Plus(digest[3], d);
      digest[4] := Plus(digest[4], e);
    }

    method ProcessBytes(data: seq<byte>)
      requires Valid()
      modifies this, digest, block
      ensures Valid() && message == old(message) + data
    {
      hide Valid, Blocks;
      for i := 0 to |data|
        invariant Valid() && message == old(message) + data[..i]
      {
        ProcessByte(data[i]);
        assert data[..i + 1] == data[..i] + [data[i]];
      }
      assert data[..|data|] == data;
    }

    // Zeros until the block has so many bytes.
    method ZerosUntil(n: nat)
      requires Valid() && n < 64
      modifies this, digest, block
      ensures Valid() && index == n && message == old(message) + Zeros(Distance(old(index), n))
    {
      hide Blocks, Valid;
      ghost var start, k := index, 0;
      ghost var m := message;
      IndexInBlock();
      assert m + Zeros(0) == m;
      while index != n
        invariant Valid() && message == m + Zeros(k) && index < 64
        invariant k <= Distance(start, n) && index == if start + k < 64 then start + k else start + k - 64
        decreases Distance(start, n) - k
      {
        ProcessByte(0);
        IndexInBlock();
        k := k + 1;
        assert Zeros(k) == Zeros(k - 1) + [0];
      }
      assert k == Distance(start, n);
    }

    lemma IndexInBlock()
      requires Valid()
      ensures index == |message| % 64 < 64 && byteCount == |message| % TWO64
    {
    }

    // getDigest: the padding, with the low 32 bits of the length in bits, is processed too.
    method GetDigest() returns (d: Hash)
      requires Valid()
      modifies this, digest, block
      ensures Valid() && message == Finished(old(message)) && d == Blocks(message)
      ensures |old(message)| < 0x2000_0000 ==> d == Digest(old(message))
    {
      hide Blocks, Valid, Zeros, ByteOf, Gap;
      IndexInBlock();
      ghost var m := message;
      var bitCount := byteCount * 8 % TWO64;
      BitCount(|m|);
      ProcessByte(0x80);
      IndexInBlock();
      ghost var from := index;
      if index > 56 {
        ZerosUntil(0);
        ZerosUntil(56);
      } else {
        ZerosUntil(56);
      }
      GapIs(m, from);
      ghost var gap := message;
      assert gap == m + [0x80] + Zeros(Gap(|m|));
      WriteLength(bitCount);
      FinishedIs(m, gap, message);
      d := Result(|m|);
    }

    // getDigestBytes: the five words as twenty bytes.
    method GetDigestBytes() returns (out: seq<byte>)
      requires Valid()
      modifies this, digest, block
      ensures Valid() && |out| == 20
      ensures |old(message)| < 0x2000_0000 ==> WordsOf(out) == Digest(old(message))
    {
      hide Valid, Digest, WordBytes, Finished, Blocks;
      var d := GetDigest();
      out := WordBytes(d.a) + WordBytes(d.b) + WordBytes(d.c) + WordBytes(d.d) + WordBytes(d.e);
      BytesOfWords(d);
    }

    method Result(ghost n: nat) returns (d: Hash)
      requires Valid() && |message| % 64 == 0
      ensures d == Blocks(message)
    {
      hide Blocks;
      assert message[..|message| - index] == message;
      d := Hash(digest[0], digest[1], digest[2], digest[3], digest[4]);
    }

    // Four zero bytes and the low four bytes of the count.
    method WriteLength(bits: nat)
      requires Valid()
      modifies this, digest, block
      ensures Valid() && message == old(message) + LowLength(bits)
    {
      hide Blocks, Valid, ByteOf;
      ProcessByte(0);
      ProcessByte(0);
      ProcessByte(0);
      ProcessByte(0);
      var b3, b2, b1, b0 := ByteOf(bits, 3), ByteOf(bits, 2), ByteOf(bits, 1), ByteOf(bits, 0);
      ProcessByte(b3);
      ProcessByte(b2);
      ProcessByte(b1);
      ProcessByte(b0);
    }
  }

  function WordBytes(w: word): (s: seq<byte>)
    ensures |s| == 4
  {
    [((w >> 24) & 0xFF) as byte, ((w >> 16) & 0xFF) as byte, ((w >> 8) & 0xFF) as byte, (w & 0xFF) as byte]
  }

  function WordAt(s: seq<byte>, i: nat): word
    requires i + 4 <= |s|
  {
    Word(s[i], s[i + 1], s[i + 2], s[i + 3])
  }

  function WordsOf(s: seq<byte>): Hash
    requires |s| == 20
  {
    Hash(WordAt(s, 0), WordAt(s, 4), WordAt(s, 8), WordAt(s, 12), WordAt(s, 16))
  }

  lemma Same(x: word)
    ensures (x as int) as word == x
  {
  }

  lemma Parts(w: word)
    ensures Joined((w >> 24) & 0xFF, (w >> 16) & 0xFF, (w >> 8) & 0xFF, w & 0xFF) == w
  {
  }

  lemma WordRoundTrip(w: word)
    ensures var s := WordBytes(w); Word(s[0], s[1], s[2], s[3]) == w
  {
    hide Joined;
    Same((w >> 24) & 0xFF);
    Same((w >> 16) & 0xFF);
    Same((w >> 8) & 0xFF);
    Same(w & 0xFF);
    Parts(w);
  }

  lemma BytesOfWords(d: Hash)
    ensures WordsOf(WordBytes(d.a) + WordBytes(d.b) + WordBytes(d.c) + WordBytes(d.d) + WordBytes(d.e)) == d
  {
    hide Word, WordBytes;
    WordRoundTrip(d.a);
    WordRoundTrip(d.b);
    WordRoundTrip(d.c);
    WordRoundTrip(d.d);
    WordRoundTrip(d.e);
  }

  function Distance(from: nat, to: nat): nat
    requires from < 64 && to < 64
  {
    if from <= to then to - from else 64 + to - from
  }

  function LowLength(bits: nat): seq<byte> {
    [0, 0, 0, 0, ByteOf(bits, 3), ByteOf(bits, 2), ByteOf(bits, 1), ByteOf(bits, 0)]
  }

  // All that is processed when the digest is taken.
  function Finished(m: seq<byte>): seq<byte> {
    m + [0x80] + Zeros(Gap(|m|)) + LowLength(8 * |m| % TWO64)
  }

  lemma BitCount(n: nat)
    ensures n % TWO64 * 8 % TWO64 == 8 * n % TWO64
  {
    assert n == n / TWO64 * TWO64 + n % TWO64;
    assert 8 * n == 8 * (n / TWO64) * TWO64 + 8 * (n % TWO64);
  }

  lemma GapIs(m: seq<byte>, from: nat)
    requires from == (|m| + 1) % 64
    ensures Distance(from, 56) == Gap(|m|)
    ensures from > 56 ==> Distance(from, 0) + 56 == Gap(|m|) && Zeros(Distance(from, 0)) + Zeros(56) == Zeros(Gap(|m|))
  {
    var q := (|m| + 1) / 64;
    assert |m| + 1 == 64 * q + from;
  }

  lemma FinishedIs(m: seq<byte>, gap: seq<byte>, all: seq<byte>)
    requires gap == m + [0x80] + Zeros(Gap(|m|)) && all == gap + LowLength(8 * |m| % TWO64)
    ensures all == Finished(m) && |all| % 64 == 0
    ensures |m| < 0x2000_0000 ==> all == Padded(m)
  {
    hide Zeros, ByteOf;
    WholeBlocks(|m|);
    if |m| < 0x2000_0000 {
      LowIsAll(8 * |m|);
    }
  }

  lemma Powers()
    ensures Pow256(1) == 0x100 && Pow256(2) == 0x1_0000 && Pow256(3) == 0x100_0000 && Pow256(4) == TWO32
    ensures Pow256(5) == 0x100 * TWO32 && Pow256(6) == 0x1_0000 * TWO32 && Pow256(7) == 0x100_0000 * TWO32
  {
    assert Pow256(1) == 256 * Pow256(0);
    assert Pow256(3) == 256 * Pow256(2);
    assert Pow256(5) == 256 * Pow256(4);
    assert Pow256(7) == 256 * Pow256(6);
  }

  // A number below 2^32 has no more bytes than four.
  lemma LowIsAll(n: nat)
    requires n < TWO32
    ensures LowLength(n) == Length(n)
  {
    hide Pow256;
    Powers();
  }

  // The program's padding is the standard's exactly for messages shorter than 2^29 bytes.
  lemma PaddingIsStandard(m: seq<byte>)
    requires 8 * |m| < TWO64
    ensures Finished(m) == Padded(m) <==> |m| < 0x2000_0000
  {
    hide Zeros, ByteOf, Gap;
    var n := 8 * |m|;
    var head := m + [0x80] + Zeros(Gap(|m|));
    if n < TWO32 {
      LowIsAll(n);
    } else if Finished(m) == Padded(m) {
      assert LowLength(n) == Finished(m)[|head|..] == Padded(m)[|head|..] == Length(n);
      assert Length(n)[0] == 0 && Length(n)[1] == 0 && Length(n)[2] == 0 && Length(n)[3] == 0;
      HighIsSome(n);
      assert false;
    }
  }

  lemma HighIsSome(n: nat)
    requires TWO32 <= n < TWO64
    ensures ByteOf(n, 4) != 0 || ByteOf(n, 5) != 0 || ByteOf(n, 6) != 0 || ByteOf(n, 7) != 0
  {
    hide Pow256;
    Powers();
    var h := n / TWO32;
    assert n / Pow256(5) == h / 0x100 && n / Pow256(6) == h / 0x1_0000 && n / Pow256(7) == h / 0x100_0000;
  }

  lemma ByteCounted(n: nat, index: nat)
    requires index == n % 64
    ensures (n + 1) % TWO64 == (n % TWO64 + 1) % TWO64
    ensures index <= n && (n - index) % 64 == 0 && (n + 1) % 64 == (if index == 63 then 0 else index + 1)
  {
  }

  lemma ByteStored(m: seq<byte>, b: byte, index: nat)
    requires index <= |m|
    ensures var n := m + [b];
            && n[..|n| - (index + 1)] == m[..|m| - index] && n[|n| - (index + 1)..] == m[|m| - index..] + [b]
  {
  }

  lemma ScheduleNext(block: seq<byte>, t: nat)
    requires |block| == 64 && 16 <= t
    ensures Schedule(block, t) ==
            LeftRotate(Mixed(Schedule(block, t - 3), Schedule(block, t - 8), Schedule(block, t - 14), Schedule(block, t - 16)), 1)
  {
    hide LeftRotate, Mixed, Rotl1, Word;
    Rotations(Mixed(Schedule(block, t - 3), Schedule(block, t - 8), Schedule(block, t - 14), Schedule(block, t - 16)));
  }

  lemma NextBlock(whole: seq<byte>, block: seq<byte>)
    requires |whole| % 64 == 0 && |block| == 64
    ensures |whole + block| % 64 == 0 && Blocks(whole + block) == Compress(Blocks(whole), block)
  {
    hide Compress;
    var m := whole + block;
    assert m[..|m| - 64] == whole && m[|m| - 64..] == block;
  }
}
