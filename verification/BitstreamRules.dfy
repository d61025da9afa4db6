/** What the bit reader returns, said without its own functions: the order of bits, reads that find too little, and
    the numbers that codes stand for. */
module BitstreamRules {
  import opened Basics
  import opened EbmlInt
  import opened BitstreamBits
  import opened BitstreamReader
  import opened BitstreamGolomb
  import opened BitstreamScript

  /** Bit j of a byte is the one of value 128, 64, 32, 16, 8, 4, 2 or 1. */
  lemma {:induction false} BitOfByte(data: seq<byte>, i: nat, j: nat)
    requires i < |data| && j < 8
    ensures Bits(data)[8 * i + j] <==> data[i] / [128, 64, 32, 16, 8, 4, 2, 1][j] % 2 == 1
  {
    hide Bits, ByteBits;
    BitAt(data, i, j);
    ByteBitIs(data[i], j);
  }

  lemma {:induction false} ByteBitIs(b: byte, j: nat)
    requires j < 8
    ensures ByteBits(b)[j] <==> b / [128, 64, 32, 16, 8, 4, 2, 1][j] % 2 == 1
  {
    if j < 4 {
      assert b / 128 == b / 16 / 8;
      assert b / 64 == b / 16 / 4;
      assert b / 32 == b / 16 / 2;
    } else {
      LowFour(b);
      hide FourBits;
      LowBitIs(b, j - 4);
    }
  }

  lemma {:induction false} LowBitIs(b: byte, j: nat)
    requires j < 4
    ensures FourBits(b)[j] <==> b / [8, 4, 2, 1][j] % 2 == 1
  {
  }

  lemma {:induction false} BitsOfValue(s: seq<bool>)
    ensures BitsOf(Value(s), |s|) == s
  {
    if s != [] {
      BitsOfValue(s[..|s| - 1]);
      assert s == s[..|s| - 1] + [s[|s| - 1]];
    }
  }

  /** A read of up to 64 bits returns the number whose bits they are; of more, the number of the last 64; and 0 when
      there are not as many bits left. */
  lemma {:induction false} ReadIs(rest: seq<bool>, count: nat)
    ensures count > |rest| ==> Peeked(rest, count) == 0
    ensures count <= |rest| && count <= 64 ==> BitsOf(Peeked(rest, count), count) == rest[..count]
    ensures count <= |rest| && count > 64 ==> BitsOf(Peeked(rest, count), 64) == rest[count - 64..count]
    ensures Peeked(rest, count) < 0x1_0000_0000_0000_0000
  {
    hide Value, BitsOf, Pow2;
    SmallPowers();
    if count <= |rest| && count <= 64 {
      ValueBound(rest[..count]);
      PowGrows(count, 64);
      BitsOfValue(rest[..count]);
    } else if count <= |rest| {
      var s := rest[..count];
      ValueSplit(s, count - 64);
      assert s[count - 64..] == rest[count - 64..count];
      BitsOfValue(s[count - 64..]);
    }
  }

  /** Without a one bit among the next 64 there is no code: the number is 0 and nothing is read. */
  lemma {:induction false} NoCode(rest: seq<bool>)
    requires forall j: nat | j < 64 && j < |rest| :: !rest[j]
    ensures GolombPeeked(rest) == 0 && AfterGolomb(rest) == rest
  {
    hide Peeked;
    NoLead(rest, 0);
  }

  lemma {:induction false} NoLead(rest: seq<bool>, i: nat)
    requires forall j: nat | j < 64 && j < |rest| :: !rest[j]
    ensures LeadingZeros(rest, i) == None
    decreases |rest| - i
  {
    if i < 64 && i < |rest| {
      NoLead(rest, i + 1);
    }
  }

  /** Behind k zeros and a one the code is 2k + 1 bits long; when they are not all there the number is 0 and nothing
      is read. */
  lemma {:induction false} CodeOrNot(rest: seq<bool>, k: nat)
    requires k < 64 && k < |rest| && rest[k] && forall j: nat | j < k :: !rest[j]
    ensures 2 * k + 1 > |rest| ==> GolombPeeked(rest) == 0 && AfterGolomb(rest) == rest
    ensures 2 * k + 1 <= |rest| ==> AfterGolomb(rest) == rest[2 * k + 1..]
    ensures 2 * k + 1 <= |rest| ==> BitsOf(GolombPeeked(rest), k + 1) == rest[k..2 * k + 1]
  {
    hide Value, BitsOf, Pow2, LeadingZeros;
    LeadFound(rest, 0, k);
    if 2 * k + 1 <= |rest| {
      var s := rest[..2 * k + 1];
      assert s == s[..k] + s[k..];
      assert s[..k] == Zeros(k);
      ValueConcat(s[..k], s[k..]);
      ZeroValue(k);
      ValueBound(s[k..]);
      SmallPowers();
      PowGrows(k + 1, 64);
      BitsOfValue(s[k..]);
      assert s[k..] == rest[k..2 * k + 1];
    }
  }

  lemma {:induction false} ZeroValue(k: nat)
    ensures Value(Zeros(k)) == 0
  {
    if k > 0 {
      ZeroValue(k - 1);
      assert Zeros(k)[..k - 1] == Zeros(k - 1);
    }
  }

  /** The code of number k plus one stands for k unsigned, and signed for 0, 1, -1, 2, -2 and so on (section 9.1.1 of
      ITU-T H.264). Without a code the unsigned number is all ones and the signed one 0. */
  lemma {:induction false} CodeMeans(k: nat)
    ensures UnsignedOf(k + 1) == k && UnsignedOf(0) == 0xFFFF_FFFF_FFFF_FFFF && SignedOf(0) == 0
    ensures SignedOf(k + 1) == if k % 2 == 1 then (k + 1) / 2 else 0 - k / 2
  {
  }

  /** Signed codes fit the writer's window at every alignment for exactly the numbers that an unsigned 32-bit number
      has the size of. */
  lemma {:induction false} SignedFitsIff(v: int)
    requires Folded(v) < UNKNOWN
    ensures 7 + |Code(Folded(v))| <= 72 <==> -0xFFFF_FFFF <= v <= 0xFFFF_FFFF
    ensures Fits(Signed(v)) <==> -0xFFFF_FFFF <= v <= 0xFFFF_FFFF
  {
    hide Code;
    CodeFitsIff(Folded(v));
  }
}
