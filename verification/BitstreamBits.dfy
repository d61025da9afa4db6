/** Bits of bytes and numbers, most significant first. */
module BitstreamBits {
  import opened Basics
  import opened EbmlInt

  function Pow2(n: nat): (r: nat)
    ensures r >= 1
  {
    if n == 0 then 1 else 2 * Pow2(n - 1)
  }

  /** The number a string of bits stands for. */
  function Value(s: seq<bool>): nat {
    if s == [] then 0 else 2 * Value(s[..|s| - 1]) + if s[|s| - 1] then 1 else 0
  }

  /** The low n bits of v. */
  function BitsOf(v: nat, n: nat): (r: seq<bool>)
    ensures |r| == n
  {
    if n == 0 then [] else BitsOf(v / 2, n - 1) + [v % 2 == 1]
  }

  function Zeros(n: nat): (r: seq<bool>)
    ensures |r| == n
  {
    seq(n, _ => false)
  }

  function FourBits(x: nat): (r: seq<bool>)
    ensures |r| == 4
  {
    [x / 8 % 2 == 1, x / 4 % 2 == 1, x / 2 % 2 == 1, x % 2 == 1]
  }

  function ByteBits(b: nat): (r: seq<bool>)
    ensures |r| == 8
  {
    FourBits(b / 16) + FourBits(b % 16)
  }

  function Bits(data: seq<byte>): (r: seq<bool>)
    ensures |r| == 8 * |data|
  {
    if data == [] then [] else Bits(data[..|data| - 1]) + ByteBits(data[|data| - 1])
  }

  // ---------------------------------------------------------------- powers

  lemma {:induction false} PowAdd(a: nat, b: nat)
    ensures Pow2(a + b) == Pow2(a) * Pow2(b)
  {
    if a > 0 {
      PowAdd(a - 1, b);
    }
  }

  lemma {:induction false} PowGrows(a: nat, b: nat)
    requires a <= b
    ensures Pow2(a) <= Pow2(b)
    decreases b - a
  {
    if a < b {
      PowGrows(a, b - 1);
    }
  }

  lemma {:induction false} SmallPowers()
    ensures Pow2(8) == 256 && Pow2(32) == 0x1_0000_0000 && Pow2(33) == 0x2_0000_0000 && Pow2(64) == TWO_TO_THE_64
  {
    assert Pow2(4) == 16;
    PowAdd(4, 4);
    PowAdd(8, 8);
    PowAdd(16, 16);
    PowAdd(32, 32);
  }

  lemma {:induction false} DivMod(x: nat, q: nat, d: nat, r: nat)
    requires x == q * d + r && r < d
    ensures x / d == q && x % d == r
  {
    DivideExact(x, d, q);
  }

  // ---------------------------------------------------------------- values of bit strings

  lemma {:induction false} ValueBound(s: seq<bool>)
    ensures Value(s) < Pow2(|s|)
  {
    if s != [] {
      ValueBound(s[..|s| - 1]);
    }
  }

  lemma {:induction false} ValueConcat(a: seq<bool>, b: seq<bool>)
    ensures Value(a + b) == Value(a) * Pow2(|b|) + Value(b)
    decreases b
  {
    if b == [] {
      assert a + b == a;
    } else {
      var c := b[..|b| - 1];
      assert (a + b)[..|a + b| - 1] == a + c;
      var last := b[|b| - 1];
      ValueConcat(a, c);
      assert (a + b)[|a + b| - 1] == last;
      Distribute(Value(a), Pow2(|c|), Value(c), if last then 1 else 0);
    }
  }

  lemma {:induction false} Distribute(va: nat, p: nat, vc: nat, last: nat)
    ensures 2 * (va * p + vc) + last == va * (2 * p) + (2 * vc + last)
  {
    assert va * (2 * p) == 2 * (va * p);
  }

  /** Splitting a bit string divides its value. */
  lemma {:induction false} ValueSplit(s: seq<bool>, k: nat)
    requires k <= |s|
    ensures Value(s[..k]) == Value(s) / Pow2(|s| - k) && Value(s[k..]) == Value(s) % Pow2(|s| - k)
  {
    hide Value, Pow2;
    assert s == s[..k] + s[k..];
    ValueConcat(s[..k], s[k..]);
    ValueBound(s[k..]);
    DivMod(Value(s), Value(s[..k]), Pow2(|s| - k), Value(s[k..]));
  }

  lemma {:induction false} ValueOfBits(v: nat, n: nat)
    requires v < Pow2(n)
    ensures Value(BitsOf(v, n)) == v
  {
    if n > 0 {
      ValueOfBits(v / 2, n - 1);
      assert BitsOf(v, n)[..n - 1] == BitsOf(v / 2, n - 1);
    }
  }

  lemma {:induction false} ByteValue(b: byte)
    ensures Value(ByteBits(b)) == b && ByteBits(b) == BitsOf(b, 8)
  {
    hide ByteBits, BitsOf, Pow2, Value;
    EightMore(b, 0);
    assert b % 256 == b;
    assert BitsOf(b / 256, 0) == [];
    assert BitsOf(b, 8) == [] + ByteBits(b) == ByteBits(b);
    SmallPowers();
    ValueOfBits(b, 8);
  }

  lemma {:induction false} FourMore(x: nat, n: nat)
    ensures BitsOf(x, n + 4) == BitsOf(x / 16, n) + FourBits(x)
  {
    assert x / 2 / 2 == x / 4;
    assert x / 4 / 2 == x / 8;
    assert x / 8 / 2 == x / 16;
    assert BitsOf(x, n + 4) == BitsOf(x / 2, n + 3) + [x % 2 == 1];
    assert BitsOf(x / 2, n + 3) == BitsOf(x / 4, n + 2) + [x / 2 % 2 == 1];
    assert BitsOf(x / 4, n + 2) == BitsOf(x / 8, n + 1) + [x / 4 % 2 == 1];
    assert BitsOf(x / 8, n + 1) == BitsOf(x / 16, n) + [x / 8 % 2 == 1];
  }

  lemma {:induction false} LowFourOf(q: nat, r: nat)
    requires r < 16
    ensures FourBits(16 * q + r) == FourBits(r)
  {
    FourQuotients(q, r);
    Parity(q, r / 8);
    Parity(2 * q, r / 4);
    Parity(4 * q, r / 2);
    Parity(8 * q, r);
  }

  lemma {:induction false} FourQuotients(q: nat, r: nat)
    requires r < 16
    ensures (16 * q + r) / 8 == 2 * q + r / 8 && (16 * q + r) / 4 == 4 * q + r / 4 && (16 * q + r) / 2 == 8 * q + r / 2
  {
  }

  lemma {:induction false} Parity(a: nat, b: nat)
    ensures (2 * a + b) % 2 == b % 2
  {
  }

  lemma {:induction false} LowFour(y: nat)
    ensures FourBits(y % 16) == FourBits(y)
  {
    var q, r := y / 16, y % 16;
    LowFourOf(q, r);
    assert y == 16 * q + r;
  }

  /** The last eight bits of a number are its last byte. */
  lemma {:induction false} EightMore(x: nat, n: nat)
    ensures BitsOf(x, n + 8) == BitsOf(x / 256, n) + ByteBits(x % 256)
  {
    hide BitsOf, FourBits;
    FourMore(x, n + 4);
    FourMore(x / 16, n);
    LowFour(x);
    LowFour(x / 16);
    assert x / 16 / 16 == x / 256 && x % 256 / 16 == x / 16 % 16 && x % 256 % 16 == x % 16;
    assert BitsOf(x / 256, n) + FourBits(x / 16) + FourBits(x) == BitsOf(x / 256, n) + (FourBits(x / 16) + FourBits(x));
  }

  /** The bits of a big-endian number are its bits. */
  lemma {:induction false} BitsOfBe(w: nat, x: nat)
    ensures Bits(Be(w, x)) == BitsOf(x, 8 * w)
  {
    hide ByteBits, BitsOf;
    if w == 0 {
      assert Bits([]) == [] == BitsOf(x, 0);
    } else {
      BitsOfBe(w - 1, x / 256);
      assert Be(w, x)[..w - 1] == Be(w - 1, x / 256);
      EightMore(x, 8 * w - 8);
    }
  }

  lemma {:induction false} BitsOfScaled(v: nat, m: nat, z: nat)
    ensures BitsOf(v * Pow2(z), m + z) == BitsOf(v, m) + Zeros(z)
  {
    if z == 0 {
      assert v * Pow2(0) == v;
      assert BitsOf(v, m) + Zeros(0) == BitsOf(v, m);
    } else {
      hide Pow2;
      ScaledHalf(v, z);
      BitsOfScaled(v, m, z - 1);
      assert Zeros(z) == Zeros(z - 1) + [false];
      assert BitsOf(v, m) + Zeros(z - 1) + [false] == BitsOf(v, m) + (Zeros(z - 1) + [false]);
    }
  }

  lemma {:induction false} ScaledHalf(v: nat, z: nat)
    requires z > 0
    ensures v * Pow2(z) / 2 == v * Pow2(z - 1) && v * Pow2(z) % 2 == 0
  {
    assert v * Pow2(z) == 2 * (v * Pow2(z - 1));
  }

  lemma {:induction false} BitsOfSmall(v: nat, off: nat, n: nat)
    requires v < Pow2(n)
    ensures BitsOf(v, off + n) == Zeros(off) + BitsOf(v, n)
  {
    if n == 0 {
      BitsOfZero(off);
      assert Zeros(off) + BitsOf(v, 0) == Zeros(off);
    } else {
      BitsOfSmall(v / 2, off, n - 1);
      assert Zeros(off) + BitsOf(v / 2, n - 1) + [v % 2 == 1] == Zeros(off) + (BitsOf(v / 2, n - 1) + [v % 2 == 1]);
    }
  }

  lemma {:induction false} BitsOfZero(n: nat)
    ensures BitsOf(0, n) == Zeros(n)
  {
    if n > 0 {
      BitsOfZero(n - 1);
      assert Zeros(n) == Zeros(n - 1) + [false];
    }
  }

  // ---------------------------------------------------------------- bits of byte strings

  lemma {:induction false} BitsConcat(a: seq<byte>, b: seq<byte>)
    ensures Bits(a + b) == Bits(a) + Bits(b)
    decreases b
  {
    hide ByteBits;
    if b == [] {
      assert a + b == a;
      assert Bits(a) + [] == Bits(a);
    } else {
      var c := b[..|b| - 1];
      assert (a + b)[..|a + b| - 1] == a + c;
      BitsConcat(a, c);
      assert Bits(a) + Bits(c) + ByteBits(b[|b| - 1]) == Bits(a) + (Bits(c) + ByteBits(b[|b| - 1]));
    }
  }

  lemma {:induction false} BitsDrop(data: seq<byte>, k: nat)
    requires k <= |data|
    ensures Bits(data[k..]) == Bits(data)[8 * k..] && Bits(data[..k]) == Bits(data)[..8 * k]
  {
    hide Bits;
    BitsConcat(data[..k], data[k..]);
    assert data == data[..k] + data[k..];
    assert Bits(data)[8 * k..] == Bits(data[k..]);
    assert Bits(data)[..8 * k] == Bits(data[..k]);
  }

  lemma {:induction false} BitAt(data: seq<byte>, i: nat, j: nat)
    requires i < |data| && j < 8
    ensures Bits(data)[8 * i + j] == ByteBits(data[i])[j]
    decreases data
  {
    hide ByteBits;
    if i < |data| - 1 {
      BitAt(data[..|data| - 1], i, j);
    }
  }

  // ---------------------------------------------------------------- or on bytes

  /** Or of two numbers below 16. */
  function OrFour(a: nat, b: nat): (r: nat)
    ensures r < 16
  {
    var x, y := FourBits(a), FourBits(b);
    (if x[0] || y[0] then 8 else 0) + (if x[1] || y[1] then 4 else 0) + (if x[2] || y[2] then 2 else 0) + (if x[3] || y[3] then 1 else 0)
  }

  /** The bitwise or of two bytes. */
  function Or(a: byte, b: byte): byte {
    16 * OrFour(a / 16, b / 16) + OrFour(a % 16, b % 16)
  }

  lemma {:induction false} OrFourBit(a: nat, b: nat, j: nat)
    requires j < 4
    ensures FourBits(OrFour(a, b))[j] == (FourBits(a)[j] || FourBits(b)[j])
  {
  }

  lemma {:induction false} OrBit(a: byte, b: byte, j: nat)
    requires j < 8
    ensures ByteBits(Or(a, b))[j] == (ByteBits(a)[j] || ByteBits(b)[j])
  {
    hide FourBits, OrFour;
    if j < 4 {
      OrFourBit(a / 16, b / 16, j);
    } else {
      OrFourBit(a % 16, b % 16, j - 4);
    }
  }
}
