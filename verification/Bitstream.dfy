/** The bit writer and the bit reader as the code runs them. */
module Bitstream {
  import opened Basics
  import opened EbmlInt
  import opened BitstreamBits
  import opened BitstreamGolomb

  // ---------------------------------------------------------------- writing

  /** Or of the bytes of b into the bytes of a, from byte `base` on. */
  predicate Merged(a: seq<byte>, base: nat, b: seq<byte>, n: nat, r: seq<byte>) {
    && |r| == |a| && n <= |b| && base + n <= |a|
    && (forall i: nat | i < n :: r[base + i] == Or(a[base + i], b[i]))
    && (forall i: nat | i < |a| && !(base <= i < base + n) :: r[i] == a[i])
  }

  lemma {:induction false} MergedBit(a: seq<byte>, base: nat, b: seq<byte>, n: nat, r: seq<byte>, k: nat)
    requires Merged(a, base, b, n, r) && k < 8 * |a|
    ensures Bits(r)[k] == (Bits(a)[k] || (8 * base <= k < 8 * (base + n) && Bits(b)[k - 8 * base]))
  {
    hide *;
    var i, j := k / 8, k % 8;
    MergedByte(a, base, b, n, r, i);
    BitAt(a, i, j);
    BitAt(r, i, j);
    if base <= i < base + n {
      BitAt(b, i - base, j);
      OrBit(a[i], b[i - base], j);
    }
  }

  lemma {:induction false} MergedByte(a: seq<byte>, base: nat, b: seq<byte>, n: nat, r: seq<byte>, i: nat)
    requires Merged(a, base, b, n, r) && i < |a|
    ensures |r| == |a| && n <= |b| && base + n <= |a|
    ensures r[i] == if base <= i < base + n then Or(a[i], b[i - base]) else a[i]
  {
    hide Or;
    if base <= i < base + n {
      assert r[base + (i - base)] == Or(a[base + (i - base)], b[i - base]);
    }
  }

  lemma {:induction false} Aligned(val: nat, off: nat, n: nat, z: nat)
    requires val < Pow2(n)
    ensures BitsOf(val * Pow2(z), off + n + z) == Zeros(off) + BitsOf(val, n) + Zeros(z)
  {
    hide BitsOf, Zeros, Pow2;
    BitsOfScaled(val, off + n, z);
    BitsOfSmall(val, off, n);
  }

  lemma {:induction false} NoOverflow(val: nat, n: nat, z: nat, m: nat)
    requires val < Pow2(n) && n + z <= m
    ensures val * Pow2(z) < Pow2(m)
  {
    hide Pow2;
    PowAdd(n, z);
    PowGrows(n + z, m);
    Multiply(val, Pow2(n), Pow2(z));
  }

  lemma {:induction false} Multiply(a: nat, b: nat, p: nat)
    requires a < b && p >= 1
    ensures a * p < b * p
  {
  }

  function Low(x: nat): byte { x % 256 }

  function ShiftLeft(x: nat, n: nat): nat { x * Pow2(n) }

  function ShiftRight(x: nat, n: nat): nat {
    QuotientNotNegative(x, Pow2(n));
    x / Pow2(n)
  }

  lemma {:induction false} QuotientNotNegative(x: nat, d: nat)
    requires d > 0
    ensures x / d >= 0
  {
  }

  /** The value moved to its place in the 9-byte window, when it fits the first eight. */
  lemma {:induction false} WindowLow(val: nat, off: nat, n: nat, last: byte)
    requires off + n <= 64 && val < Pow2(n)
    ensures ShiftLeft(val, 64 - off - n) < TWO_TO_THE_64
    ensures Bits(Be(8, ShiftLeft(val, 64 - off - n)) + [last]) == Zeros(off) + BitsOf(val, n) + Zeros(64 - off - n) + Bits([last])
  {
    hide BitsOf, Bits, Pow2, Be, Zeros;
    SmallPowers();
    NoOverflow(val, n, 64 - off - n, 64);
    Aligned(val, off, n, 64 - off - n);
    BitsOfBe(8, ShiftLeft(val, 64 - off - n));
    BitsConcat(Be(8, ShiftLeft(val, 64 - off - n)), [last]);
  }

  /** And when it reaches into the ninth. */
  lemma {:induction false} WindowHigh(val: nat, off: nat, n: nat)
    requires 64 < off + n <= 72 && val < Pow2(n)
    ensures Bits(Be(8, ShiftRight(val, off + n - 64)) + [Low(ShiftLeft(val, 72 - off - n))])
            == Zeros(off) + BitsOf(val, n) + Zeros(72 - off - n)
  {
    hide BitsOf, Bits, Pow2, Zeros;
    var s, z := off + n - 64, 72 - off - n;
    var x := val * Pow2(z);
    Aligned(val, off, n, z);
    BitsOfBe(9, x);
    SmallPowers();
    PowAdd(s, z);
    ShiftBoth(val, Pow2(s), Pow2(z));
    assert Be(9, x) == Be(8, x / 256) + [x % 256];
  }

  lemma {:induction false} ShiftBoth(val: nat, a: nat, b: nat)
    requires a >= 1 && b >= 1
    ensures val * b / (a * b) == val / a
  {
    var q, r := val / a, val % a;
    assert val == a * q + r;
    assert a * b >= 1;
    assert (a * b) * q == (a * q) * b;
    assert val * b == (a * b) * q + r * b;
    Multiply(r, a, b);
    DivideExact(val * b, a * b, q);
  }

  /** Bytes that hold n bits. */
  function Whole(n: nat): nat { n / 8 + if n % 8 != 0 then 1 else 0 }

  /** A window holds `added` behind `off` zeros, and zeros up to the end of the last byte used. */
  predicate Placed(window: seq<bool>, off: nat, added: seq<bool>) {
    && 8 * Whole(off + |added|) <= |window|
    && (forall j: nat | j < off :: !window[j])
    && (forall j: nat | off <= j < off + |added| :: window[j] == added[j - off])
    && (forall j: nat | off + |added| <= j < 8 * Whole(off + |added|) :: !window[j])
  }

  lemma {:induction false} PlacedIn(window: seq<bool>, off: nat, added: seq<bool>, z: nat, rest: seq<bool>)
    requires window == Zeros(off) + added + Zeros(z) + rest && 8 * Whole(off + |added|) <= off + |added| + z
    ensures Placed(window, off, added)
  {
  }

  lemma {:induction false} PlacedLow(val: nat, off: nat, n: nat, last: byte)
    requires off + n <= 64 && val < Pow2(n)
    ensures ShiftLeft(val, 64 - off - n) < TWO_TO_THE_64
    ensures Placed(Bits(Be(8, ShiftLeft(val, 64 - off - n)) + [last]), off, BitsOf(val, n))
  {
    hide BitsOf, Bits, Pow2, Be, Zeros, Placed, ShiftLeft, ShiftRight, Low;
    WindowLow(val, off, n, last);
    PlacedIn(Bits(Be(8, ShiftLeft(val, 64 - off - n)) + [last]), off, BitsOf(val, n), 64 - off - n, Bits([last]));
  }

  lemma {:induction false} PlacedHigh(val: nat, off: nat, n: nat)
    requires 64 < off + n <= 72 && val < Pow2(n)
    ensures Placed(Bits(Be(8, ShiftRight(val, off + n - 64)) + [Low(ShiftLeft(val, 72 - off - n))]), off, BitsOf(val, n))
  {
    hide BitsOf, Bits, Pow2, Be, Zeros, Placed, ShiftLeft, ShiftRight, Low;
    WindowHigh(val, off, n);
    PlacedIn(Bits(Be(8, ShiftRight(val, off + n - 64)) + [Low(ShiftLeft(val, 72 - off - n))]), off, BitsOf(val, n), 72 - off - n, []);
  }

  /** The 9-byte buffer; in the first case its last byte is left from an earlier call. */
  method Window(val: nat, off: nat, bitLength: nat) returns (buf: seq<byte>)
    requires off < 8 && bitLength >= 1 && off + bitLength <= 72 && val < TWO_TO_THE_64 && val < Pow2(bitLength)
    ensures |buf| == 9 && Placed(Bits(buf), off, BitsOf(val, bitLength))
  {
    hide *;
    var bitShift := 64 - bitLength - off;
    if bitShift >= 0 {
      var stale: byte := *;
      PlacedLow(val, off, bitLength, stale);
      buf := Be(8, ShiftLeft(val, bitShift) % TWO_TO_THE_64) + [stale];
    } else {
      PlacedHigh(val, off, bitLength);
      buf := Be(8, ShiftRight(val, -bitShift)) + [Low(ShiftLeft(val, 8 + bitShift))];
    }
  }

  class BitWriter {
    var p: seq<byte>
    var bitSize: nat

    ghost predicate Valid()
      reads this
    {
      bitSize <= 8 * |p| && forall k: nat | bitSize <= k < 8 * |p| :: !Bits(p)[k]
    }

    /** The bits written so far. */
    ghost function Contents(): seq<bool>
      requires Valid()
      reads this
    {
      Bits(p)[..bitSize]
    }

    constructor ()
      ensures Valid() && Contents() == []
    {
      p, bitSize := [], 0;
    }

    method Clear()
      modifies this
      ensures Valid() && Contents() == []
    {
      p, bitSize := [], 0;
    }

    /** str(): the bytes written, the last one filled up with zero bits. */
    method Str() returns (r: seq<byte>)
      requires Valid()
      ensures bitSize <= 8 * |r| < bitSize + 8 && Bits(r) == Contents() + Zeros(8 * |r| - bitSize)
    {
      var n := bitSize / 8 + if bitSize % 8 != 0 then 1 else 0;
      r := p[..n];
      BitsDrop(p, n);
    }

    /** append(val, bitLength): the code's window holds 72 bits from the last whole byte on. */
    method Append(val: nat, bitLength: nat)
      requires Valid() && bitLength >= 1 && bitSize % 8 + bitLength <= 72
      requires val < TWO_TO_THE_64 && val < Pow2(bitLength)
      modifies this
      ensures Valid() && Contents() == old(Contents()) + BitsOf(val, bitLength)
      ensures bitSize == old(bitSize) + bitLength
    {
      hide Bits, BitsOf, Pow2, Or, Merged, Placed;
      Grow((bitSize + bitLength) / 8 + 1);
      var buf := Window(val, bitSize % 8, bitLength);
      var bytes := Whole(bitSize % 8 + bitLength);
      ghost var was := p;
      var base := bitSize / 8;
      var i: nat := 0;
      NotMerged(p, base, buf);
      while i < bytes
        invariant i <= bytes && bitSize == old(bitSize) && |p| == |was|
        invariant Merged(was, base, buf, i, p)
      {
        NextMerged(was, base, buf, i, p);
        p := p[base + i := Or(p[base + i], buf[i])];
        i := i + 1;
      }
      MergedContents(was, p, buf, bitSize, BitsOf(val, bitLength));
      bitSize := bitSize + bitLength;
    }

    /** appendUExpGolomb, as far as the code fits the window. */
    method AppendUExpGolomb(value: nat)
      requires Valid() && value < UNKNOWN && bitSize % 8 + 2 * Digits(value + 1) - 1 <= 72
      modifies this
      ensures Valid() && Contents() == old(Contents()) + Code(value)
      ensures bitSize == old(bitSize) + |Code(value)|
    {
      hide Digits, Pow2, BitsOf, Bits;
      var n := UExpGolombEncodedSize(value);
      DigitsBound(value + 1);
      PowGrows(Digits(value + 1), n);
      Append(value + 1, n);
    }

    method AppendExpGolomb(value: int)
      requires Valid() && Folded(value) < UNKNOWN && bitSize % 8 + 2 * Digits(Folded(value) + 1) - 1 <= 72
      modifies this
      ensures Valid() && Contents() == old(Contents()) + Code(Folded(value))
      ensures bitSize == old(bitSize) + |Code(Folded(value))|
    {
      hide Digits, Code;
      var v := value;
      if v < 0 {
        v := v * -2;
      } else if v > 0 {
        v := v * 2 - 1;
      }
      AppendUExpGolomb(v);
    }

    /** Zero bytes are added until there is room. */
    method Grow(byteLength: nat)
      requires Valid()
      modifies this`p
      ensures Valid() && Contents() == old(Contents()) && |p| >= byteLength && |p| >= |old(p)|
    {
      hide Bits, ByteBits;
      while byteLength > |p|
        invariant Valid() && Contents() == old(Contents()) && |p| >= |old(p)|
      {
        ghost var was := p;
        p := p + [0];
        BitsConcat(was, [0]);
        NoBits();
      }
    }
  }

  lemma {:induction false} NoBits()
    ensures Bits([0]) == Zeros(8)
  {
    assert Bits([0]) == [] + ByteBits(0);
  }

  lemma {:induction false} NotMerged(a: seq<byte>, base: nat, b: seq<byte>)
    requires base <= |a|
    ensures Merged(a, base, b, 0, a)
  {
  }

  lemma {:induction false} NextMerged(a: seq<byte>, base: nat, b: seq<byte>, n: nat, r: seq<byte>)
    requires Merged(a, base, b, n, r) && n < |b| && base + n < |a|
    ensures |r| == |a| && Merged(a, base, b, n + 1, r[base + n := Or(r[base + n], b[n])])
  {
  }

  lemma {:induction false} PlacedBit(window: seq<bool>, off: nat, added: seq<bool>, j: nat)
    requires Placed(window, off, added)
    ensures 8 * Whole(off + |added|) <= |window|
    ensures j < 8 * Whole(off + |added|) ==> window[j] == (off <= j < off + |added| && added[j - off])
  {
    hide Whole;
  }

  /** Or-ing a window that is zero outside the new bits leaves the old bits and adds the new ones. */
  lemma {:induction false} MergedBitIs(was: seq<byte>, now: seq<byte>, buf: seq<byte>, size: nat, added: seq<bool>,
                                       k: nat)
    requires k < 8 * |was| && Merged(was, size / 8, buf, Whole(size % 8 + |added|), now)
    requires size <= k ==> !Bits(was)[k]
    requires Placed(Bits(buf), size % 8, added)
    ensures |now| == |was|
    ensures Bits(now)[k] == if k < size then Bits(was)[k] else k < size + |added| && added[k - size]
  {
    hide *;
    var base, bytes := size / 8, Whole(size % 8 + |added|);
    MergedLength(was, base, buf, bytes, now);
    MergedBit(was, base, buf, bytes, now, k);
    WholeHolds(size % 8 + |added|);
    if 8 * base <= k < 8 * (base + bytes) {
      PlacedBit(Bits(buf), size % 8, added, k - 8 * base);
    }
  }

  lemma {:induction false} WholeHolds(n: nat)
    ensures 8 * Whole(n) >= n
  {
  }

  lemma {:induction false} MergedContents(was: seq<byte>, now: seq<byte>, buf: seq<byte>, size: nat, added: seq<bool>)
    requires size + |added| < 8 * |was| && Merged(was, size / 8, buf, Whole(size % 8 + |added|), now)
    requires forall k: nat | size <= k < 8 * |was| :: !Bits(was)[k]
    requires Placed(Bits(buf), size % 8, added)
    ensures |now| == |was| && Bits(now)[..size + |added|] == Bits(was)[..size] + added
    ensures forall k: nat | size + |added| <= k < 8 * |now| :: !Bits(now)[k]
  {
    hide *;
    MergedLength(was, size / 8, buf, Whole(size % 8 + |added|), now);
    forall k: nat | k < 8 * |now|
      ensures Bits(now)[k] == if k < size then Bits(was)[k] else k < size + |added| && added[k - size]
    {
      MergedBitIs(was, now, buf, size, added, k);
    }
  }

  lemma {:induction false} MergedLength(a: seq<byte>, base: nat, b: seq<byte>, n: nat, r: seq<byte>)
    requires Merged(a, base, b, n, r)
    ensures |r| == |a| && n <= |b|
  {
  }
}
