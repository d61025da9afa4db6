/** The bits of 32-bit registers, in both orders, and what the machine's operations do to them. */
module ChecksumBits {
  import opened BitstreamBits
  import opened ChecksumDivision

  function Half(c: bv32): bv32 { c >> 1 }

  predicate Odd(c: bv32) { c & 1 == 1 }

  function Double(c: bv32): bv32 { c << 1 }

  function Xor(a: bv32, b: bv32): bv32 { a ^ b }

  /** The lowest n bits, the highest of them first. */
  function HighBits(c: bv32, n: nat): (r: seq<bool>)
    ensures |r| == n
    decreases n
  {
    if n == 0 then [] else HighBits(Half(c), n - 1) + [Odd(c)]
  }

  /** The lowest n bits, the lowest first. */
  function LowBits(c: bv32, n: nat): (r: seq<bool>)
    ensures |r| == n
    decreases n
  {
    if n == 0 then [] else [Odd(c)] + LowBits(Half(c), n - 1)
  }

  /** c >> k, one place at a time. */
  function Shifted(c: bv32, k: nat): bv32
    decreases k
  {
    if k == 0 then c else Shifted(Half(c), k - 1)
  }

  /** The lowest n bits are set. */
  predicate Ones(m: bv32, n: nat)
    decreases n
  {
    n == 0 || (Odd(m) && Ones(Half(m), n - 1))
  }

  // ---------------------------------------------------------------- one operation at a time

  lemma {:induction false} XorHalves(a: bv32, b: bv32)
    ensures Half(Xor(a, b)) == Xor(Half(a), Half(b))
    ensures Odd(Xor(a, b)) == (Odd(a) != Odd(b))
  {
  }

  lemma {:induction false} AndHalves(a: bv32, m: bv32)
    ensures Half(a & m) == Half(a) & Half(m)
    ensures Odd(m) ==> Odd(a & m) == Odd(a)
  {
  }

  lemma {:induction false} HighXor(a: bv32, b: bv32, n: nat)
    ensures HighBits(Xor(a, b), n) == Plus(HighBits(a, n), HighBits(b, n))
    decreases n
  {
    hide Half, Odd, Xor;
    if n > 0 {
      XorHalves(a, b);
      HighXor(Half(a), Half(b), n - 1);
    }
  }

  lemma {:induction false} LowXor(a: bv32, b: bv32, n: nat)
    ensures LowBits(Xor(a, b), n) == Plus(LowBits(a, n), LowBits(b, n))
    decreases n
  {
    hide Half, Odd, Xor;
    if n > 0 {
      XorHalves(a, b);
      LowXor(Half(a), Half(b), n - 1);
    }
  }

  lemma {:induction false} HighMask(c: bv32, m: bv32, n: nat)
    requires Ones(m, n)
    ensures HighBits(c & m, n) == HighBits(c, n)
    decreases n
  {
    hide Half, Odd;
    if n > 0 {
      AndHalves(c, m);
      HighMask(Half(c), Half(m), n - 1);
    }
  }

  lemma {:induction false} LowMask(c: bv32, m: bv32, n: nat)
    requires Ones(m, n)
    ensures LowBits(c & m, n) == LowBits(c, n)
    decreases n
  {
    hide Half, Odd;
    if n > 0 {
      AndHalves(c, m);
      LowMask(Half(c), Half(m), n - 1);
    }
  }

  lemma {:induction false} ZeroHalves()
    ensures Half(0) == 0 && !Odd(0)
  {
  }

  lemma {:induction false} HighZero(n: nat)
    ensures HighBits(0, n) == Zeros(n)
    decreases n
  {
    if n > 0 {
      HighZero(n - 1);
      ZeroHalves();
    }
  }

  lemma {:induction false} LowZero(n: nat)
    ensures LowBits(0, n) == Zeros(n)
    decreases n
  {
    if n > 0 {
      LowZero(n - 1);
      ZeroHalves();
    }
  }

  lemma {:induction false} HighDrop(c: bv32, n: nat)
    requires n > 0
    ensures HighBits(c, n)[1..] == HighBits(c, n - 1)
    decreases n
  {
    if n > 1 {
      HighDrop(Half(c), n - 1);
    }
  }

  lemma {:induction false} HighTop(c: bv32, n: nat, k: nat)
    ensures HighBits(c, n + k)[..n] == HighBits(Shifted(c, k), n)
    decreases k
  {
    if k > 0 {
      HighTop(Half(c), n, k - 1);
      assert HighBits(c, n + k)[..n] == HighBits(Half(c), n + k - 1)[..n];
    }
  }

  lemma {:induction false} LowTop(c: bv32, n: nat, k: nat)
    ensures LowBits(c, n + k)[..n] == LowBits(c, n)
    decreases n
  {
    if n > 0 {
      LowTop(Half(c), n - 1, k);
    }
  }

  lemma {:induction false} LowLast(c: bv32, n: nat)
    ensures LowBits(c, n + 1) == LowBits(c, n) + [Odd(Shifted(c, n))]
    decreases n
  {
    if n > 0 {
      LowLast(Half(c), n - 1);
    }
  }

  // ---------------------------------------------------------------- shifts

  lemma {:induction false} UpHalves(c: bv32)
    ensures !Odd(Double(c)) && Half(Double(c)) == c & 0x7FFF_FFFF
  {
  }

  lemma {:induction false} Masks()
    ensures Ones(0x7FFF_FFFF, 31) && Ones(0xFFFF_FFFF, 32) && Ones(0xFFFF, 16) && Ones(0xFF, 8)
  {
    assert Ones(0x1, 1) && Ones(0x3, 2) && Ones(0x7, 3) && Ones(0xF, 4);
    assert Ones(0x1F, 5) && Ones(0x3F, 6) && Ones(0x7F, 7) && Ones(0xFF, 8);
    assert Ones(0x1FF, 9) && Ones(0x3FF, 10) && Ones(0x7FF, 11) && Ones(0xFFF, 12);
    assert Ones(0x1FFF, 13) && Ones(0x3FFF, 14) && Ones(0x7FFF, 15) && Ones(0xFFFF, 16);
    assert Ones(0x1FFFF, 17) && Ones(0x3FFFF, 18) && Ones(0x7FFFF, 19) && Ones(0xFFFFF, 20);
    assert Ones(0x1FFFFF, 21) && Ones(0x3FFFFF, 22) && Ones(0x7FFFFF, 23) && Ones(0xFFFFFF, 24);
    assert Ones(0x1FFFFFF, 25) && Ones(0x3FFFFFF, 26) && Ones(0x7FFFFFF, 27) && Ones(0xFFFFFFF, 28);
    assert Ones(0x1FFFFFFF, 29) && Ones(0x3FFFFFFF, 30) && Ones(0x7FFFFFFF, 31) && Ones(0xFFFFFFFF, 32);
  }

  lemma {:induction false} FewerOnes(m: bv32, n: nat, k: nat)
    requires Ones(m, n) && k <= n
    ensures Ones(m, k)
    decreases n
  {
    hide Half, Odd;
    if k > 0 {
      FewerOnes(Half(m), n - 1, k - 1);
    }
  }

  /** Shifting a register of n bits up. */
  lemma {:induction false} HighUp(c: bv32, n: nat)
    requires 0 < n <= 32
    ensures HighBits(Double(c), n) == Shift(HighBits(c, n))
  {
    hide Half, Odd, Double;
    UpHalves(c);
    Masks();
    FewerOnes(0x7FFF_FFFF, 31, n - 1);
    HighMask(c, 0x7FFF_FFFF, n - 1);
    HighDrop(c, n);
  }

  lemma {:induction false} LowDown(c: bv32)
    ensures LowBits(Half(c), 32) == Shift(LowBits(c, 32))
  {
    hide Half, Odd, Shifted;
    LowLast(Half(c), 31);
    NothingLeft(c);
    ZeroHalves();
  }

  lemma {:induction false} ShiftedSum(c: bv32, a: nat, b: nat)
    ensures Shifted(c, a + b) == Shifted(Shifted(c, a), b)
    decreases a
  {
    hide Half;
    if a > 0 {
      ShiftedSum(Half(c), a - 1, b);
    }
  }

  function Right3(c: bv32): bv32 { c >> 3 }

  function Right4(c: bv32): bv32 { c >> 4 }

  function Right8(c: bv32): bv32 { c >> 8 }

  lemma {:induction false} SmallShifts(c: bv32)
    ensures (c >> 1) >> 1 == c >> 2 && (c >> 2) >> 1 == c >> 3 && (c >> 2) >> 2 == c >> 4 && (c >> 4) >> 4 == c >> 8
  {
  }

  function Right2(c: bv32): bv32 { c >> 2 }

  lemma {:induction false} TwoHalves(c: bv32)
    ensures Half(Half(c)) == Right2(c)
  {
    SmallShifts(c);
  }

  lemma {:induction false} MoreHalves(c: bv32)
    ensures Half(Right2(c)) == Right3(c) && Right2(Right2(c)) == Right4(c) && Right4(Right4(c)) == Right8(c)
  {
    SmallShifts(c);
  }

  lemma {:induction false} FourHalves(c: bv32)
    ensures Half(Half(Half(c))) == Right3(c) && Half(Half(Half(Half(c)))) == Right4(c) && Right4(Right4(c)) == Right8(c)
  {
    hide *;
    TwoHalves(c);
    TwoHalves(Right2(c));
    MoreHalves(c);
  }

  lemma {:induction false} ShiftedFour(c: bv32)
    ensures Shifted(c, 3) == Right3(c) && Shifted(c, 4) == Right4(c)
  {
    hide Half, Right3, Right4, Right8;
    FourHalves(c);
    var c1 := Half(c);
    var c3 := Half(Half(c1));
    assert Shifted(c3, 0) == c3 && Shifted(c3, 1) == Half(c3);
    assert Shifted(c1, 2) == c3 && Shifted(c1, 3) == Half(c3);
  }

  lemma {:induction false} ShiftedEight(c: bv32)
    ensures Shifted(c, 7) == Right3(Right4(c)) && Shifted(c, 8) == Right8(c)
  {
    hide *;
    FourHalves(c);
    ShiftedFour(c);
    ShiftedFour(Right4(c));
    ShiftedSum(c, 4, 3);
    ShiftedSum(c, 4, 4);
  }

  lemma {:induction false} ThreeBytes(c: bv32)
    ensures Right8(Right8(Right8(c))) == c >> 24 && Right3(Right4(Right8(Right8(Right8(Half(c)))))) == 0
    ensures Right8(c) == c >> 8
  {
  }

  lemma {:induction false} ShiftedFar(c: bv32)
    ensures Shifted(c, 24) == Right8(Right8(Right8(c))) && Shifted(c, 31) == Right3(Right4(Right8(Right8(Right8(c)))))
  {
    hide *;
    ShiftedEight(c);
    ShiftedSum(c, 8, 8);
    ShiftedEight(Right8(c));
    ShiftedSum(c, 16, 8);
    ShiftedEight(Right8(Right8(c)));
    ShiftedSum(c, 24, 7);
    ShiftedEight(Right8(Right8(Right8(c))));
  }

  lemma {:induction false} NothingLeft(c: bv32)
    ensures Shifted(Half(c), 31) == 0
  {
    hide *;
    ShiftedFar(Half(c));
    ThreeBytes(c);
  }

  // ---------------------------------------------------------------- eight places at once

  function Ups(c: seq<bool>, k: nat): (r: seq<bool>)
    requires c != []
    ensures |r| == |c|
    decreases k
  {
    if k == 0 then c else Ups(Shift(c), k - 1)
  }

  lemma {:induction false} UpsShift(c: seq<bool>, k: nat)
    requires c != [] && k <= |c|
    ensures Ups(c, k) == c[k..] + Zeros(k)
    decreases k
  {
    if k > 0 {
      UpsShift(Shift(c), k - 1);
      assert Shift(c)[k - 1..] + Zeros(k - 1) == c[k..] + Zeros(k);
    }
  }

  function Left2(c: bv32): bv32 { c << 2 }

  function Left4(c: bv32): bv32 { c << 4 }

  function Left8(c: bv32): bv32 { c << 8 }

  lemma {:induction false} SmallLeftShifts(c: bv32)
    ensures (c << 1) << 1 == c << 2 && (c << 2) << 2 == c << 4 && (c << 4) << 4 == c << 8
  {
  }

  lemma {:induction false} TwoDoubles(c: bv32)
    ensures Double(Double(c)) == Left2(c)
  {
    SmallLeftShifts(c);
  }

  lemma {:induction false} MoreDoubles(c: bv32)
    ensures Left2(Left2(c)) == Left4(c) && Left4(Left4(c)) == Left8(c)
  {
    SmallLeftShifts(c);
  }

  lemma {:induction false} FourDoubles(c: bv32)
    ensures Double(Double(Double(Double(c)))) == Left4(c) && Left4(Left4(c)) == Left8(c)
  {
    hide *;
    TwoDoubles(c);
    TwoDoubles(Left2(c));
    MoreDoubles(c);
  }

  lemma {:induction false} EightUps(c: seq<bool>)
    requires c != []
    ensures Shift(Shift(Shift(Shift(Shift(Shift(Shift(Shift(c)))))))) == Ups(c, 8)
  {
    hide Shift;
    var c4 := Shift(Shift(Shift(Shift(c))));
    assert Ups(c, 8) == Ups(c4, 4);
  }

  lemma {:induction false} FourUp(c: bv32, n: nat)
    requires 0 < n <= 32
    ensures HighBits(Left4(c), n) == Shift(Shift(Shift(Shift(HighBits(c, n)))))
  {
    hide HighBits, Double, Left4, Shift;
    HighUp(c, n);
    HighUp(Double(c), n);
    HighUp(Double(Double(c)), n);
    HighUp(Double(Double(Double(c))), n);
    FourDoubles(c);
  }

  /** Eight places up: the leading byte goes, zeros come in. */
  lemma {:induction false} HighUpEight(c: bv32, n: nat)
    requires 8 <= n <= 32
    ensures HighBits(Left8(c), n) == HighBits(c, n)[8..] + Zeros(8)
  {
    hide HighBits, Left4, Left8, Shift, Ups;
    FourUp(c, n);
    FourUp(Left4(c), n);
    FourDoubles(c);
    EightUps(HighBits(c, n));
    UpsShift(HighBits(c, n), 8);
  }

  lemma {:induction false} FourDown(c: bv32)
    ensures LowBits(Right4(c), 32) == Shift(Shift(Shift(Shift(LowBits(c, 32)))))
  {
    hide LowBits, Half, Right4, Shift;
    LowDown(c);
    LowDown(Half(c));
    LowDown(Half(Half(c)));
    LowDown(Half(Half(Half(c))));
    FourHalves(c);
  }

  lemma {:induction false} LowDownEight(c: bv32)
    ensures LowBits(Right8(c), 32) == LowBits(c, 32)[8..] + Zeros(8)
  {
    hide LowBits, Half, Right4, Right8, Shift, Ups;
    FourDown(c);
    FourDown(Right4(c));
    FourHalves(c);
    EightUps(LowBits(c, 32));
    UpsShift(LowBits(c, 32), 8);
  }
}
