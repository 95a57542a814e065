/** WebSocket frames as bytes: section 5.2 of RFC 6455. */
module WsFrame {
  import opened Common

  // Numbers in network order ---------------------------------------------------

  function BigEndian(n: nat, k: nat): (s: seq<byte>)
    ensures |s| == k
  {
    if k == 0 then [] else BigEndian(n / 256, k - 1) + [n % 256]
  }

  function FromBigEndian(s: seq<byte>): nat {
    if s == [] then 0 else FromBigEndian(s[..|s| - 1]) * 256 + s[|s| - 1]
  }

  lemma {:induction false} BigEndianRoundTrip(n: nat, k: nat)
    requires n < Pow256(k)
    ensures FromBigEndian(BigEndian(n, k)) == n
    decreases k
  {
    if k > 0 {
      assert n / 256 < Pow256(k - 1);
      BigEndianRoundTrip(n / 256, k - 1);
      var s := BigEndian(n, k);
      assert s[..k - 1] == BigEndian(n / 256, k - 1);
    }
  }

  lemma {:induction false} FromBigEndianRoundTrip(s: seq<byte>)
    ensures FromBigEndian(s) < Pow256(|s|) && BigEndian(FromBigEndian(s), |s|) == s
    decreases |s|
  {
    if s != [] {
      var k := |s| - 1;
      FromBigEndianRoundTrip(s[..k]);
      var n := FromBigEndian(s);
      assert n / 256 == FromBigEndian(s[..k]) && n % 256 == s[k];
      assert s[..k] + [s[k]] == s;
    }
  }

  const TWO16: nat := 0x1_0000
  lemma Powers()
    ensures Pow256(2) == TWO16 && Pow256(8) == TWO64
  {
    assert Pow256(4) == 256 * Pow256(3) == 0x1_0000_0000;
    assert Pow256(8) == 256 * Pow256(7) && Pow256(7) == 256 * Pow256(6) && Pow256(6) == 256 * Pow256(5)
           && Pow256(5) == 256 * Pow256(4);
  }

  // Frames ----------------------------------------------------------------------

  // How the payload length is written.
  datatype Form = Len7 | Len16 | Len64

  // A frame as it is sent: the first byte holds FIN, the reserved bits and the opcode; the
  // bytes are those after masking.
  datatype Frame = Frame(first: nat, form: Form, mask: Option<seq<byte>>, bytes: seq<byte>)

  predicate Fin(first: nat) { first >= 0x80 }

  function Opcode(first: nat): nat { first % 16 }

  function Limit(form: Form): nat {
    match form case Len7 => 126 case Len16 => TWO16 case Len64 => TWO64
  }

  predicate ValidFrame(f: Frame) {
    f.first < 256 && (f.mask.Some? ==> |f.mask.value| == 4) && |f.bytes| < Limit(f.form)
  }

  // The second byte: the mask bit, and the length or the form of the length.
  function Second(form: Form, masked: bool, n: nat): (b: nat)
    requires n < Limit(form)
    ensures b < 256
  {
    (if masked then 128 else 0) + match form case Len7 => n case Len16 => 126 case Len64 => 127
  }

  function LengthBytes(form: Form, n: nat): seq<byte> {
    match form case Len7 => [] case Len16 => BigEndian(n, 2) case Len64 => BigEndian(n, 8)
  }

  function Start(first: nat, form: Form, masked: bool, n: nat): seq<byte>
    requires first < 256 && n < Limit(form)
  {
    [first, Second(form, masked, n)] + LengthBytes(form, n)
  }

  function Key(mask: Option<seq<byte>>): seq<byte> {
    match mask case None => [] case Some(key) => key
  }

  function Encode(f: Frame): seq<byte>
    requires ValidFrame(f)
  {
    Start(f.first, f.form, f.mask.Some?, |f.bytes|) + Key(f.mask) + f.bytes
  }

  function EncodeAll(fs: seq<Frame>): seq<byte>
    requires forall f :: f in fs ==> ValidFrame(f)
  {
    if fs == [] then [] else Encode(fs[0]) + EncodeAll(fs[1..])
  }

  // Exclusive or, bit by bit.
  function Pow2(k: nat): (p: nat)
    ensures p > 0
  {
    if k == 0 then 1 else 2 * Pow2(k - 1)
  }

  function XorBits(a: nat, b: nat, k: nat): (r: nat)
    ensures r < Pow2(k)
  {
    if k == 0 then 0 else 2 * XorBits(a / 2, b / 2, k - 1) + if a % 2 == b % 2 then 0 else 1
  }

  function Xor(a: byte, b: byte): byte {
    assert Pow2(8) == 2 * Pow2(7) && Pow2(7) == 2 * Pow2(6) && Pow2(6) == 2 * Pow2(5) && Pow2(5) == 2 * Pow2(4) && Pow2(4) == 16;
    XorBits(a, b, 8)
  }

  lemma {:induction false} XorBitsTwice(a: nat, b: nat, k: nat)
    requires a < Pow2(k)
    ensures XorBits(XorBits(a, b, k), b, k) == a
    decreases k
  {
    if k > 0 {
      var r := XorBits(a / 2, b / 2, k - 1);
      XorBitsTwice(a / 2, b / 2, k - 1);
      assert XorBits(a, b, k) / 2 == r;
    }
  }

  lemma XorTwice(a: byte, b: byte)
    ensures Xor(Xor(a, b), b) == a
  {
    assert Pow2(8) == 2 * Pow2(7) && Pow2(7) == 2 * Pow2(6) && Pow2(6) == 2 * Pow2(5) && Pow2(5) == 2 * Pow2(4) && Pow2(4) == 16;
    XorBitsTwice(a, b, 8);
  }

  // Masking: section 5.3. Doing it twice undoes it.
  function Masked(s: seq<byte>, key: seq<byte>): (r: seq<byte>)
    requires |key| == 4
    ensures |r| == |s|
  {
    seq(|s|, i requires 0 <= i < |s| => Xor(s[i], key[i % 4]))
  }

  lemma MaskTwice(s: seq<byte>, key: seq<byte>)
    requires |key| == 4
    ensures Masked(Masked(s, key), key) == s
  {
    hide Xor;
    forall i | 0 <= i < |s|
      ensures Masked(Masked(s, key), key)[i] == s[i]
    {
      XorTwice(s[i], key[i % 4]);
    }
  }

  function Payload(f: Frame): seq<byte>
    requires ValidFrame(f)
  {
    match f.mask case None => f.bytes case Some(key) => Masked(f.bytes, key)
  }

  // A frame ends where it ends, whatever follows -----------------------------------

  lemma SecondTells(form: Form, masked: bool, n: nat)
    requires n < Limit(form)
    ensures var b := Second(form, masked, n);
            && (masked <==> b >= 128)
            && (form == Len64 <==> b % 128 == 127) && (form == Len16 <==> b % 128 == 126)
            && (form == Len7 ==> b % 128 == n)
  {
  }

  lemma {:induction false} LengthTells(form: Form, m: nat, n: nat)
    requires m < Limit(form) && n < Limit(form) && form != Len7 && LengthBytes(form, m) == LengthBytes(form, n)
    ensures m == n
  {
    hide BigEndian, FromBigEndian, Pow256;
    Powers();
    if form == Len16 {
      BigEndianRoundTrip(m, 2);
      BigEndianRoundTrip(n, 2);
    } else {
      BigEndianRoundTrip(m, 8);
      BigEndianRoundTrip(n, 8);
    }
  }

  lemma SamePrefix<T>(a: seq<T>, x: seq<T>, b: seq<T>, y: seq<T>)
    requires a + x == b + y && |a| == |b|
    ensures a == b && x == y
  {
    assert a == (a + x)[..|a|] && b == (b + y)[..|b|];
    assert x == (a + x)[|a|..] && y == (b + y)[|b|..];
  }

  lemma StartTells(f: Frame, x: seq<byte>, g: Frame, y: seq<byte>)
    requires ValidFrame(f) && ValidFrame(g)
    requires Start(f.first, f.form, f.mask.Some?, |f.bytes|) + x == Start(g.first, g.form, g.mask.Some?, |g.bytes|) + y
    ensures f.first == g.first && f.form == g.form && (f.mask.Some? <==> g.mask.Some?) && |f.bytes| == |g.bytes| && x == y
  {
    hide BigEndian, Second;
    var a := Start(f.first, f.form, f.mask.Some?, |f.bytes|);
    var b := Start(g.first, g.form, g.mask.Some?, |g.bytes|);
    var s := Second(f.form, f.mask.Some?, |f.bytes|);
    var t := Second(g.form, g.mask.Some?, |g.bytes|);
    assert a[0] == (a + x)[0] == (b + y)[0] == b[0];
    assert a[1] == (a + x)[1] == (b + y)[1] == b[1];
    SecondTells(f.form, f.mask.Some?, |f.bytes|);
    SecondTells(g.form, g.mask.Some?, |g.bytes|);
    SamePrefix(a, x, b, y);
    if f.form != Len7 {
      assert a[2..] == LengthBytes(f.form, |f.bytes|) && b[2..] == LengthBytes(g.form, |g.bytes|);
      LengthTells(f.form, |f.bytes|, |g.bytes|);
    }
  }

  lemma FrameTells(f: Frame, x: seq<byte>, g: Frame, y: seq<byte>)
    requires ValidFrame(f) && ValidFrame(g) && Encode(f) + x == Encode(g) + y
    ensures f == g && x == y
  {
    hide Start;
    var a := Start(f.first, f.form, f.mask.Some?, |f.bytes|);
    var b := Start(g.first, g.form, g.mask.Some?, |g.bytes|);
    assert Encode(f) + x == a + (Key(f.mask) + (f.bytes + x));
    assert Encode(g) + y == b + (Key(g.mask) + (g.bytes + y));
    StartTells(f, Key(f.mask) + (f.bytes + x), g, Key(g.mask) + (g.bytes + y));
    SamePrefix(Key(f.mask), f.bytes + x, Key(g.mask), g.bytes + y);
    SamePrefix(f.bytes, x, g.bytes, y);
  }

  lemma {:induction false} EncodeAllConcat(fs: seq<Frame>, gs: seq<Frame>)
    requires (forall f :: f in fs ==> ValidFrame(f)) && (forall g :: g in gs ==> ValidFrame(g))
    ensures EncodeAll(fs + gs) == EncodeAll(fs) + EncodeAll(gs)
  {
    hide Encode, ValidFrame;
    if fs == [] {
      assert fs + gs == gs;
    } else {
      assert (fs + gs)[1..] == fs[1..] + gs;
      EncodeAllConcat(fs[1..], gs);
      assert Encode(fs[0]) + (EncodeAll(fs[1..]) + EncodeAll(gs)) == EncodeAll(fs) + EncodeAll(gs);
    }
  }

  // Frames that are read off a stream of frames, and the rest, are the frames of the
  // stream from the first on.
  lemma {:induction false} FramesTell(done: seq<Frame>, x: seq<byte>, fs: seq<Frame>, y: seq<byte>)
    requires (forall f :: f in done ==> ValidFrame(f)) && (forall f :: f in fs ==> ValidFrame(f))
    requires EncodeAll(done) + x + y == EncodeAll(fs)
    ensures |done| <= |fs| && fs[..|done|] == done && x + y == EncodeAll(fs[|done|..])
    decreases |done|
  {
    hide Encode, ValidFrame;
    if done == [] {
      assert EncodeAll(done) + x + y == x + y;
    } else {
      EncodeNotEmpty(done[0]);
      assert fs != [];
      assert EncodeAll(done) + x + y == Encode(done[0]) + (EncodeAll(done[1..]) + x + y);
      FrameTells(done[0], EncodeAll(done[1..]) + x + y, fs[0], EncodeAll(fs[1..]));
      FramesTell(done[1..], x, fs[1..], y);
      assert fs[1..][..|done| - 1] == fs[1..|done|];
      assert fs[1..][|done| - 1..] == fs[|done|..];
      assert [fs[0]] + fs[1..|done|] == fs[..|done|];
      assert [done[0]] + done[1..] == done;
    }
  }

  lemma EncodeNotEmpty(f: Frame)
    requires ValidFrame(f)
    ensures |Encode(f)| >= 2
  {
  }
}
