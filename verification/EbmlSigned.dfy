/** Signed elements and dates: what is read back of the ones that are written. */
module EbmlSigned {
  import opened Basics
  import opened EbmlInt
  import opened EbmlTree
  import opened EbmlWriter

  /** The number n bytes stand for in two's complement. */
  function TwosComplement(n: nat, u: nat): int {
    if 2 * u < Pow256(n) then u else u - Pow256(n)
  }

  /** getValInt */
  function GetValInt(data: seq<byte>, i: nat): int
    requires Whole(data, i) && GetPayloadLen(data, i) != UNKNOWN
  {
    var n := GetPayloadLen(data, i);
    var p := i + GetHeaderLen(data, i);
    if n == 0 || n > 8 then 0 else TwosComplement(n, FromBe(data[p..p + n]))
  }

  /** The quotient rounded towards zero. */
  function Quotient(x: int, n: nat): int
    requires n > 0
  {
    if x < 0 then -(-x / n) else x / n
  }

  /** getValDate: milliseconds since 1970. */
  function GetValDate(data: seq<byte>, i: nat): int
    requires Whole(data, i) && GetPayloadLen(data, i) != UNKNOWN
  {
    978307200000 + Quotient(GetValInt(data, i), 1000000)
  }

  // ---------------------------------------------------------------- low bytes

  lemma {:induction false} ModUnique(x: int, n: nat, q: int, r: nat)
    requires r < n && x == n * q + r
    ensures x % n == r
  {
    var d := q - x / n;
    assert n * q == n * (x / n) + n * d;
    assert n * d == x % n - r;
    Multiple(n, d);
  }

  lemma {:induction false} Multiple(n: nat, d: int)
    ensures d > 0 ==> n * d >= n
    ensures d < 0 ==> n * d <= 0 - n
  {
    if d > 0 {
      AtLeast(n, d - 1);
    } else if d < 0 {
      AtLeast(n, 0 - d - 1);
      assert n * d == 0 - n * (0 - d);
    }
  }

  lemma {:induction false} AtLeast(n: nat, k: nat)
    ensures n * (k + 1) >= n
  {
    assert n * (k + 1) == n * k + n;
  }

  lemma {:induction false} CutSplit(x: nat, p: nat)
    requires p > 0
    ensures x % (256 * p) == (x / 256 % p) * 256 + x % 256
  {
    var q, r := x / 256 / p, x / 256 % p;
    assert x / 256 == p * q + r;
    assert (256 * p) * q == 256 * (p * q);
    ModUnique(x, 256 * p, q, r * 256 + x % 256);
  }

  /** Writing x in w bytes and reading them keeps x up to multiples of 256 to the w. */
  lemma {:induction false} LowBytes(w: nat, x: nat)
    ensures FromBe(Be(w, x)) == x % Pow256(w)
  {
    if w == 0 {
      ModUnique(x, 1, x, 0);
    } else {
      LowBytes(w - 1, x / 256);
      assert Be(w, x)[..w - 1] == Be(w - 1, x / 256);
      CutSplit(x, Pow256(w - 1));
    }
  }

  lemma {:induction false} WordCut(val: int, n: nat, m: nat)
    requires n > 0 && n * m == TWO_TO_THE_64
    ensures val % TWO_TO_THE_64 % n == val % n
  {
    var r, k := val % TWO_TO_THE_64, val / TWO_TO_THE_64;
    assert val == TWO_TO_THE_64 * k + r;
    var a, b := r / n, r % n;
    assert TWO_TO_THE_64 * k == n * (m * k) by {
      assert (n * m) * k == n * (m * k);
    }
    assert n * (m * k + a) == n * (m * k) + n * a;
    ModUnique(val, n, m * k + a, b);
  }

  lemma {:induction false} WordCuts(val: int, w: nat)
    requires 1 <= w <= 8
    ensures val % TWO_TO_THE_64 % Pow256(w) == val % Pow256(w)
  {
    hide Pow256;
    Powers();
    if w == 1 {
      WordCut(val, 0x100, 0x100_0000_0000_0000);
    } else if w == 2 {
      WordCut(val, 0x1_0000, 0x1_0000_0000_0000);
    } else if w == 3 {
      WordCut(val, 0x100_0000, 0x100_0000_0000);
    } else if w == 4 {
      WordCut(val, 0x1_0000_0000, 0x1_0000_0000);
    } else if w == 5 {
      WordCut(val, 0x100_0000_0000, 0x100_0000);
    } else if w == 6 {
      WordCut(val, 0x1_0000_0000_0000, 0x1_0000);
    } else if w == 7 {
      WordCut(val, 0x100_0000_0000_0000, 0x100);
    } else {
      WordCut(val, TWO_TO_THE_64, 1);
    }
  }

  // ---------------------------------------------------------------- what comes back

  /** Values whose width, which is chosen by magnitude alone, leaves room for the sign. */
  predicate SignFits(val: int) {
    || -0x80 <= val < 0x80
    || 0x100 <= val < 0x8000 || -0x8000 <= val <= -0x100
    || 0x1_0000 <= val < 0x80_0000 || -0x80_0000 <= val <= -0x1_0000
    || 0x100_0000 <= val < 0x8000_0000 || -0x8000_0000 <= val <= -0x100_0000
    || 0x1_0000_0000 <= val < 0x80_0000_0000 || -0x80_0000_0000 <= val <= -0x1_0000_0000
    || 0x100_0000_0000 <= val < 0x8000_0000_0000 || -0x8000_0000_0000 <= val <= -0x100_0000_0000
    || 0x1_0000_0000_0000 <= val < 0x80_0000_0000_0000 || -0x80_0000_0000_0000 <= val <= -0x1_0000_0000_0000
    || 0x100_0000_0000_0000 <= val || val <= -0x100_0000_0000_0000
  }

  predicate IsInt64(val: int) { -0x8000_0000_0000_0000 <= val < 0x8000_0000_0000_0000 }

  lemma {:induction false} FitsIff(val: int)
    requires IsInt64(val)
    ensures SignFits(val) <==> 0 - Pow256(SizeInt(val)) <= 2 * val < Pow256(SizeInt(val))
    ensures 0 - Pow256(SizeInt(val)) < val < Pow256(SizeInt(val))
  {
    hide Pow256;
    Powers();
  }

  /** What the low bytes of a value in range stand for, off by the whole range when its sign bit does not fit. */
  lemma {:induction false} ReadAs(val: int, w: nat)
    requires 0 - Pow256(w) < val < Pow256(w)
    ensures TwosComplement(w, val % Pow256(w)) - val in {0 - Pow256(w), 0, Pow256(w)}
    ensures TwosComplement(w, val % Pow256(w)) == val <==> 0 - Pow256(w) <= 2 * val < Pow256(w)
  {
    var p := Pow256(w);
    if val >= 0 {
      ModUnique(val, p, 0, val);
    } else {
      ModUnique(val, p, -1, val + p);
    }
  }

  /** The number an element of val reads as: val, or 256 to its width away from it. */
  lemma {:induction false} IntReadsAs(data: seq<byte>, i: nat, id: nat, val: int)
    requires id < TWO_TO_THE_32 && !IsMaster(id) && IsInt64(val) && At(data, i, Bytes(IntElem(id, val)))
    ensures Whole(data, i) && GetID(data, i) == id && GetPayloadLen(data, i) != UNKNOWN
    ensures GetValInt(data, i) == TwosComplement(SizeInt(val), val % Pow256(SizeInt(val)))
  {
    hide Bytes, WriteSize, Be, FromBe, SizeInt, GetID, GetPayloadLen, GetHeaderLen, HeadLen, ReadSize, TwosComplement,
      Pow256;
    var e := IntElem(id, val);
    ElementReads(data, i, e);
    LowBytes(SizeInt(val), val % TWO_TO_THE_64);
    WordCuts(val, SizeInt(val));
  }

  /** A signed value is read back exactly when it fits with its sign. */
  lemma {:induction false} IntRoundTripIff(data: seq<byte>, i: nat, id: nat, val: int)
    requires id < TWO_TO_THE_32 && !IsMaster(id) && IsInt64(val) && At(data, i, Bytes(IntElem(id, val)))
    ensures Whole(data, i) && GetID(data, i) == id && GetPayloadLen(data, i) != UNKNOWN
    ensures GetValInt(data, i) == val <==> SignFits(val)
  {
    hide Bytes, GetID, GetPayloadLen, GetValInt, SizeInt, SignFits, At, Whole, IntElem, TwosComplement, Pow256;
    IntReadsAs(data, i, id, val);
    FitsIff(val);
    ReadAs(val, SizeInt(val));
  }

  lemma {:induction false} ManyBytes(x: int)
    requires IsInt64(x * 1000000) && x != 0
    ensures Pow256(SizeInt(x * 1000000)) > 1000000
  {
    hide Pow256;
    Powers();
  }

  /** A date behind 2001 is stored in nanoseconds; it comes back exactly when those fit with their sign. */
  lemma {:induction false} DateRoundTripIff(data: seq<byte>, i: nat, date: int)
    requires IsInt64(MatroskaDate(date)) && date != 978307200000
    requires At(data, i, Bytes(IntElem(EID_DATEUTC, MatroskaDate(date))))
    ensures Whole(data, i) && GetPayloadLen(data, i) != UNKNOWN
    ensures GetValDate(data, i) == date <==> SignFits((date - 978307200000) * 1000000)
  {
    hide Bytes, GetID, GetPayloadLen, GetValInt, SizeInt, SignFits, At, Whole, IntElem, TwosComplement, Pow256;
    var x := date - 978307200000;
    var val := MatroskaDate(date);
    assert !IsMaster(EID_DATEUTC);
    IntReadsAs(data, i, EID_DATEUTC, val);
    FitsIff(val);
    ReadAs(val, SizeInt(val));
    ManyBytes(x);
    var read := GetValInt(data, i);
    if read == val {
      assert Quotient(read, 1000000) == x;
    } else {
      assert read - val > 1000000 || val - read > 1000000;
      assert Quotient(read, 1000000) != x;
    }
  }

  /** 1 July 2002 comes back as a day of the year 2000. */
  lemma {:induction false} DateIsLost(data: seq<byte>, i: nat)
    requires At(data, i, Bytes(IntElem(EID_DATEUTC, MatroskaDate(1025481600000))))
    ensures Whole(data, i) && GetPayloadLen(data, i) != UNKNOWN
    ensures GetValDate(data, i) == 953424005963 < 978307200000
  {
    hide Bytes, GetID, GetPayloadLen, GetValInt, At, Whole, IntElem, Pow256;
    Powers();
    var val := MatroskaDate(1025481600000);
    assert val == 47174400000000000;
    assert SizeInt(val) == 7;
    IntReadsAs(data, i, EID_DATEUTC, val);
  }
}
