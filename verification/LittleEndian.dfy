/** Unsigned little-endian integers, the byte order of every format in this project. */
module LittleEndian {

  type Byte = x: int | 0 <= x < 256

  type U16 = x: int | 0 <= x < 0x1_0000
  type U32 = x: int | 0 <= x < 0x1_0000_0000
  type U64 = x: int | 0 <= x < 0x1_0000_0000_0000_0000

  // Powers of two.
  const P9 := 0x200
  const P15 := 0x8000
  const P16 := 0x1_0000
  const P25 := 0x200_0000
  const P31 := 0x8000_0000
  const P32 := 0x1_0000_0000
  const P48 := 0x1_0000_0000_0000
  const P57 := 0x200_0000_0000_0000
  const P64 := 0x1_0000_0000_0000_0000

  /** Quotient and remainder are the only ones. */
  lemma DivMod(x: int, q: int, r: int, d: int)
    requires d > 0 && 0 <= r < d && x == d * q + r
    ensures x / d == q && x % d == r
  {
    var p := x / d;
    assert x == d * p + x % d;
    assert d * (p - q) == r - x % d;
    assert d * (q - p) == -(d * (p - q));
    if p > q {
      MulAtLeast(d, p - q);
    } else if p < q {
      MulAtLeast(d, q - p);
    }
  }

  lemma MulAtLeast(d: int, k: int)
    requires d > 0 && k >= 1
    ensures d * k >= d
  {
  }

  /** 256 to the power `w`: how many values fit in `w` bytes. */
  function Span(w: nat): (n: nat)
    ensures n > 0
  {
    if w == 0 then 1 else 256 * Span(w - 1)
  }

  lemma Spans()
    ensures Span(1) == 0x100 && Span(2) == 0x1_0000 && Span(4) == 0x1_0000_0000
    ensures Span(8) == 0x1_0000_0000_0000_0000
  {
    assert Span(3) == 0x100_0000;
    assert Span(5) == 0x100_0000_0000;
    assert Span(6) == 0x1_0000_0000_0000;
    assert Span(7) == 0x100_0000_0000_0000;
  }

  /** The low `w` bytes of `n`, least significant first. */
  function Encode(n: nat, w: nat): (bs: seq<Byte>)
    ensures |bs| == w
    decreases n, w
  {
    if w == 0 then [] else [n % 256] + Encode(n / 256, w - 1)
  }

  function Decode(bs: seq<Byte>): (n: nat)
    ensures n < Span(|bs|)
  {
    if bs == [] then 0 else bs[0] + 256 * Decode(bs[1..])
  }

  /** Bytes written and read back are the number, as long as it fits. */
  lemma {:induction false} DecodeEncode(n: nat, w: nat)
    requires n < Span(w)
    ensures Decode(Encode(n, w)) == n
    decreases w
  {
    if w > 0 {
      DecodeEncode(n / 256, w - 1);
      assert Encode(n, w)[1..] == Encode(n / 256, w - 1);
    }
  }

  lemma {:induction false} EncodeDecode(bs: seq<Byte>)
    ensures Encode(Decode(bs), |bs|) == bs
  {
    if bs != [] {
      EncodeDecode(bs[1..]);
      assert Decode(bs) / 256 == Decode(bs[1..]) && Decode(bs) % 256 == bs[0];
    }
  }

  /** Bytes are worth as much in two parts as in one. */
  lemma {:induction false} DecodeParts(x: seq<Byte>, y: seq<Byte>)
    ensures Decode(x + y) == Decode(x) + Span(|x|) * Decode(y)
    decreases |x|
  {
    if x == [] {
      assert x + y == y;
    } else {
      DecodeParts(x[1..], y);
      assert (x + y)[1..] == x[1..] + y;
      Distribute(256, Decode(x[1..]), Span(|x| - 1), Decode(y));
    }
  }

  lemma Distribute(k: int, a: int, b: int, c: int)
    ensures k * (a + b * c) == k * a + (k * b) * c
  {
  }

  lemma DecodeEncode16(n: U16)
    ensures Decode(Encode(n, 2)) == n
  {
    Spans();
    DecodeEncode(n, 2);
  }

  lemma DecodeEncode32(n: U32)
    ensures Decode(Encode(n, 4)) == n
  {
    Spans();
    DecodeEncode(n, 4);
  }

  lemma DecodeEncode64(n: U64)
    ensures Decode(Encode(n, 8)) == n
  {
    Spans();
    DecodeEncode(n, 8);
  }
}
