/** Exponential-Golomb codes (section 9.1 of ITU-T H.264): lengths, shape, and reading them back. */
module BitstreamGolomb {
  import opened Basics
  import opened EbmlInt
  import opened BitstreamBits
  import opened BitstreamReader

  /** The number of binary digits of x. */
  function Digits(x: nat): (r: nat)
    requires x >= 1
    ensures r >= 1
  {
    if x == 1 then 1 else 1 + Digits(x / 2)
  }

  /** The code of v: v + 1 behind as many zeros as it has digits, less one. */
  function Code(v: nat): seq<bool> { BitsOf(v + 1, 2 * Digits(v + 1) - 1) }

  lemma {:induction false} DigitsBound(x: nat)
    requires x >= 1
    ensures Pow2(Digits(x) - 1) <= x < Pow2(Digits(x))
  {
    if x > 1 {
      DigitsBound(x / 2);
    }
  }

  /** Numbers below 2^n are those with at most n digits. */
  lemma {:induction false} DigitsIff(x: nat, n: nat)
    requires x >= 1
    ensures x < Pow2(n) <==> Digits(x) <= n
  {
    DigitsBound(x);
    if Digits(x) <= n {
      PowGrows(Digits(x), n);
    } else {
      PowGrows(n, Digits(x) - 1);
    }
  }

  lemma {:induction false} FirstDigit(x: nat)
    requires x >= 1
    ensures BitsOf(x, Digits(x))[0]
  {
    if x > 1 {
      FirstDigit(x / 2);
    }
  }

  lemma {:induction false} CodeShape(v: nat)
    ensures Code(v) == Zeros(Digits(v + 1) - 1) + BitsOf(v + 1, Digits(v + 1))
    ensures |Code(v)| == 2 * Digits(v + 1) - 1
  {
    hide BitsOf, Pow2, Zeros;
    DigitsBound(v + 1);
    BitsOfSmall(v + 1, Digits(v + 1) - 1, Digits(v + 1));
  }

  lemma {:induction false} LeadFound(rest: seq<bool>, i: nat, k: nat)
    requires i <= k < 64 && k < |rest| && rest[k] && forall j: nat | i <= j < k :: !rest[j]
    ensures LeadingZeros(rest, i) == Some(k)
    decreases k - i
  {
    if i < k {
      LeadFound(rest, i + 1, k);
    }
  }

  lemma {:induction false} CodeLeads(v: nat, tail: seq<bool>)
    requires Digits(v + 1) <= 64
    ensures LeadingZeros(Code(v) + tail, 0) == Some((Digits(v + 1) - 1) as nat)
  {
    hide BitsOf, LeadingZeros, Digits, Code;
    var k: nat := Digits(v + 1) - 1;
    CodeShape(v);
    FirstDigit(v + 1);
    var rest := Code(v) + tail;
    LeadFound(rest, 0, k);
  }

  /** The reader takes exactly the code and returns the value plus one, for all values that leave at most 63
      leading zeros: all 64-bit values but the largest. */
  lemma {:induction false} CodeReads(v: nat, tail: seq<bool>)
    requires v < UNKNOWN
    ensures GolombPeeked(Code(v) + tail) == v + 1 && AfterGolomb(Code(v) + tail) == tail
  {
    hide BitsOf, LeadingZeros, Digits, Code, Value, Pow2;
    SmallPowers();
    DigitsIff(v + 1, 64);
    CodeLeads(v, tail);
    CodeShape(v);
    CodeValue(v);
    var n := |Code(v)|;
    assert (Code(v) + tail)[..n] == Code(v) && (Code(v) + tail)[n..] == tail;
  }

  lemma {:induction false} CodeValue(v: nat)
    ensures Value(Code(v)) == v + 1
  {
    hide BitsOf, Value, Pow2, Digits;
    DigitsBound(v + 1);
    PowGrows(Digits(v + 1), 2 * Digits(v + 1) - 1);
    ValueOfBits(v + 1, 2 * Digits(v + 1) - 1);
  }

  // ---------------------------------------------------------------- signed codes

  /** What appendExpGolomb turns a signed value into. */
  function Folded(v: int): nat {
    if v < 0 then v * -2 else if v > 0 then v * 2 - 1 else 0
  }

  /** The signed reader unfolds it. */
  lemma {:induction false} SignedUnfolds(v: int)
    ensures SignedOf(Folded(v) + 1) == v
  {
  }

  // ---------------------------------------------------------------- the two length functions as the code runs them

  /** UExpGolombEncodedSize, whose argument plus one is taken in 64 bits. */
  method UExpGolombEncodedSize(value: nat) returns (r: nat)
    requires value < TWO_TO_THE_64
    ensures value < UNKNOWN ==> r == 2 * Digits(value + 1) - 1
    ensures value == UNKNOWN ==> r == 1
  {
    hide Digits, Pow2;
    var v := (value + 1) % TWO_TO_THE_64;
    var res, maxVal := 1, 1;
    OneDigit();
    while v > maxVal
      invariant res >= 1 && maxVal == Pow2(res) - 1 && (res > 1 ==> v >= Pow2(res - 1))
      decreases v - maxVal
    {
      NextPower(res);
      maxVal := maxVal * 2 + 1;
      res := res + 1;
    }
    if v > 0 {
      DigitsIff(v, res);
      DigitsIff(v, res - 1);
    }
    r := 2 * res - 1;
  }

  /** bitSizeUExpGolomb: for the largest 64-bit value the loop below would never end. */
  method BitSizeUExpGolomb(value: nat) returns (i: nat)
    requires value < UNKNOWN
    ensures i == 2 * Digits(value + 1) - 1
  {
    hide Digits, Pow2;
    i := 1;
    var power: nat := 2;
    ghost var k: nat := 1;
    OneDigit();
    SmallPowers();
    while (power - 2) % TWO_TO_THE_64 < value
      invariant 1 <= k <= 64 && i == 2 * k - 1 && power == Pow2(k) % TWO_TO_THE_64
      invariant k > 1 ==> value + 1 >= Pow2(k - 1)
      decreases 64 - k
    {
      NextPower(k);
      PowerGuard(k, value);
      i := i + 2;
      power := power * 2 % TWO_TO_THE_64;
      k := k + 1;
    }
    PowerGuard(k, value);
    DigitsIff(value + 1, k);
    DigitsIff(value + 1, k - 1);
  }

  lemma {:induction false} OneDigit()
    ensures Pow2(1) == 2 && Pow2(0) == 1
  {
  }

  lemma {:induction false} NextPower(k: nat)
    ensures Pow2(k + 1) == 2 * Pow2(k)
  {
  }

  /** The guard in 64-bit arithmetic compares with the power itself. */
  lemma {:induction false} PowerGuard(k: nat, value: nat)
    requires 1 <= k <= 64 && value < UNKNOWN
    ensures (Pow2(k) % TWO_TO_THE_64 - 2) % TWO_TO_THE_64 < value <==> Pow2(k) <= value + 1
    ensures k == 64 ==> value + 1 < Pow2(k)
    ensures k < 64 ==> Pow2(k) < TWO_TO_THE_64
  {
    hide Pow2;
    SmallPowers();
    OneDigit();
    PowGrows(1, k);
    if k < 64 {
      PowGrows(k, 63);
      NextPower(63);
    }
  }

  /** For the largest value the guard holds for every power the loop computes: it never stops. */
  lemma {:induction false} LargestNeverStops(k: nat)
    requires k >= 1
    ensures (Pow2(k) % TWO_TO_THE_64 - 2) % TWO_TO_THE_64 < UNKNOWN
  {
    EvenPower(k);
  }

  lemma {:induction false} EvenPower(k: nat)
    requires k >= 1
    ensures Pow2(k) % TWO_TO_THE_64 != 1
  {
    assert Pow2(k) == 2 * Pow2(k - 1);
  }
}
