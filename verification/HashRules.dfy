/** The padding in bits, the examples of the standards, and the padded keys of HMAC, in plain numbers. */
module HashRules {
  import opened Basics
  import opened BitstreamBits
  import opened EbmlInt
  import opened HashPadding
  import opened Hmac

  // ---------------------------------------------------------------- padding

  lemma {:induction false} ZeroBits(n: nat)
    ensures Bits(HashPadding.ZeroBytes(n)) == Zeros(8 * n)
  {
    if n > 0 {
      ZeroBits(n - 1);
      assert HashPadding.ZeroBytes(n)[..n - 1] == HashPadding.ZeroBytes(n - 1);
      assert ByteBits(0) == Zeros(8);
      assert Zeros(8 * n) == Zeros(8 * (n - 1)) + Zeros(8);
    }
  }

  lemma {:induction false} MarkBits()
    ensures Bits([0x80]) == [true] + Zeros(7)
  {
    assert [0x80][..0] == [];
    assert Bits([0x80]) == [] + ByteBits(0x80);
    assert ByteBits(0x80) == [true] + Zeros(7);
  }

  /** The padded message in bits: the message, a one, zeros and the length (section 5.1 of FIPS 180-4 and sections 3.1
      and 3.2 of RFC 1321). */
  lemma {:induction false} PaddedBits(input: seq<byte>, block: nat, field: seq<byte>)
    requires block > 0
    ensures var zeros := 7 + 8 * PadLength(|input|, block, |field|);
            Bits(Padded(input, block, field)) == Bits(input) + ([true] + Zeros(zeros)) + Bits(field)
  {
    hide Bits, HashPadding.ZeroBytes, PadLength;
    var n := PadLength(|input|, block, |field|);
    var z := HashPadding.ZeroBytes(n);
    BitsConcat(input, [0x80] + (z + field));
    BitsConcat([0x80], z + field);
    BitsConcat(z, field);
    ZeroBits(n);
    MarkBits();
    assert Zeros(7 + 8 * n) == Zeros(7) + Zeros(8 * n);
    assert Bits(input) + ([true] + Zeros(7) + (Zeros(8 * n) + Bits(field)))
        == Bits(input) + ([true] + (Zeros(7) + Zeros(8 * n))) + Bits(field);
  }

  /** There is no shorter run of zeros that makes whole blocks. */
  lemma {:induction false} FewestZeros(n: nat, block: nat, field: nat, zeros: nat)
    requires block > 0 && (8 * n + 1 + zeros + 8 * field) % (8 * block) == 0
    ensures zeros >= 7 + 8 * PadLength(n, block, field)
  {
    var q := (8 * n + 1 + zeros + 8 * field) / (8 * block);
    assert 8 * n + 1 + zeros + 8 * field == (8 * block) * q;
    assert (8 * block) * q == 8 * (block * q);
    assert zeros % 8 == 7;
    var bytes := zeros / 8;
    assert n + 1 + field + bytes == block * q;
    LeastPad(n + 1 + field, block, bytes, q);
  }

  lemma {:induction false} LeastPad(m: nat, block: nat, bytes: nat, q: nat)
    requires block > 0 && m + bytes == block * q
    ensures bytes >= (block - m % block) % block
  {
    var a, r := m / block, m % block;
    assert m == block * a + r;
    assert block * q - block * a == block * (q - a);
    if r == 0 {
      SelfMod(block);
    } else {
      SmallMod(block - r, block);
      if q <= a {
        MultiplyBound(block, a - q);
      } else {
        MultiplyBound(block, q - a - 1);
        assert block * (q - a) == block * (q - a - 1) + block;
      }
    }
  }

  lemma {:induction false} MultiplyBound(n: nat, d: nat)
    ensures n * d >= 0 && n * (0 - d) <= 0
  {
  }

  /** The message "abc" of the appendices of FIPS 180-4: one block, with a length of 24 bits at its end. */
  lemma {:induction false} AbcBlocks()
    ensures var abc := [0x61, 0x62, 0x63];
            && FedBlocks(abc, 64, CodeSha256Field(3)) == [abc + [0x80] + HashPadding.ZeroBytes(52) + [0, 0, 0, 0, 0, 0, 0, 24]]
            && FedBlocks(abc, 64, CodeMd5Field(3)) == [abc + [0x80] + HashPadding.ZeroBytes(52) + [24, 0, 0, 0, 0, 0, 0, 0]]
            && FedBlocks(abc, 128, CodeSha512Field(3))
               == [abc + [0x80] + HashPadding.ZeroBytes(108) + (HashPadding.ZeroBytes(8) + [0, 0, 0, 0, 0, 0, 0, 24])]
  {
    hide HashPadding.ZeroBytes;
    AbcLength();
    hide Be, Reversed;
    assert CodeSha256Field(3) == [0, 0, 0, 0, 0, 0, 0, 24];
    assert CodeMd5Field(3) == [24, 0, 0, 0, 0, 0, 0, 0];
  }

  lemma {:induction false} AbcLength()
    ensures Be(7, 24) == [0, 0, 0, 0, 0, 0, 24] && Be(8, 24) == [0, 0, 0, 0, 0, 0, 0, 24]
    ensures Reversed(Be(7, 24)) == [24, 0, 0, 0, 0, 0, 0]
    ensures Length64(3) == 24
  {
    SmallNumber(7, 24);
    SmallNumber(8, 24);
    hide Be, Reversed;
    assert Be(7, 24) == HashPadding.ZeroBytes(6) + [24];
    ZerosReversed(6, 24);
    assert [24] + HashPadding.ZeroBytes(6) == [24, 0, 0, 0, 0, 0, 0];
  }

  lemma {:induction false} ZerosReversed(n: nat, x: byte)
    ensures Reversed(HashPadding.ZeroBytes(n) + [x]) == [x] + HashPadding.ZeroBytes(n)
  {
    var s := HashPadding.ZeroBytes(n) + [x];
    if n == 0 {
      assert s == [x] && s[1..] == [];
    } else {
      assert s[1..] == HashPadding.ZeroBytes(n - 1) + [x];
      ZerosReversed(n - 1, x);
      assert [x] + HashPadding.ZeroBytes(n - 1) + [0] == [x] + HashPadding.ZeroBytes(n);
    }
  }

  lemma {:induction false} SmallNumber(w: nat, x: byte)
    requires w > 0
    ensures Be(w, x) == HashPadding.ZeroBytes(w - 1) + [x]
  {
    ZeroNumber(w - 1);
    assert x / 256 == 0 && x % 256 == x;
  }

  lemma {:induction false} ZeroNumber(w: nat)
    ensures Be(w, 0) == HashPadding.ZeroBytes(w)
  {
    if w > 0 {
      ZeroNumber(w - 1);
      assert HashPadding.ZeroBytes(w) == HashPadding.ZeroBytes(w - 1) + [0];
    }
  }

  // ---------------------------------------------------------------- HMAC

  /** A key in front of nothing, filled up to a block, with every byte exclusive-or-ed. */
  function PaddedKey(k: seq<byte>, block: nat, pad: byte): (r: seq<byte>)
    requires |k| <= block
    ensures |r| == block
  {
    seq(block, i requires 0 <= i < block => if i < |k| then Xor(k[i], pad) else pad)
  }

  lemma {:induction false} PaddedKeyIs(k: seq<byte>, block: nat, pad: byte)
    requires |k| <= block && (pad == 0x36 || pad == 0x5C)
    ensures XorAll(k + HashPadding.ZeroBytes(block - |k|), pad) == PaddedKey(k, block, pad)
  {
    hide Xor;
    ZeroXor();
  }

  lemma {:induction false} ZeroXor()
    ensures Xor(0, 0x36) == 0x36 && Xor(0, 0x5C) == 0x5C
  {
    hide XorFour;
    ZeroFour(3);
    ZeroFour(6);
    ZeroFour(5);
    ZeroFour(12);
  }

  lemma {:induction false} ZeroFour(x: nat)
    requires x < 16
    ensures XorFour(0, x) == x
  {
  }

  /** HMAC with the key blocks spelled out: every key byte with 0x36 and every byte behind the key 0x36 in front of the
      text, and the same with 0x5C in front of the inner hash. */
  lemma {:induction false} KeysSpelledOut(hasher: seq<byte> -> seq<byte>, hashSize: nat, key: seq<byte>, block: nat, msg: seq<byte>)
    requires HashesTo(hasher, hashSize) && hashSize <= block
    ensures var k := if |key| > block then hasher(key) else key;
            && |k| <= block
            && HmacOf(hasher, key, block, msg) == hasher(PaddedKey(k, block, 0x5C) + hasher(PaddedKey(k, block, 0x36) + msg))
  {
    hide XorAll, PaddedKey, HashPadding.ZeroBytes;
    var k := if |key| > block then hasher(key) else key;
    PaddedKeyIs(k, block, 0x36);
    PaddedKeyIs(k, block, 0x5C);
  }

  lemma {:induction false} XorFourBit(a: nat, b: nat, j: nat)
    requires j < 4
    ensures FourBits(XorFour(a, b))[j] == (FourBits(a)[j] != FourBits(b)[j])
  {
  }

  /** The exclusive or of two bytes has the bits in which they differ. */
  lemma {:induction false} XorBits(a: byte, b: byte, j: nat)
    requires j < 8
    ensures ByteBits(Xor(a, b))[j] <==> ByteBits(a)[j] != ByteBits(b)[j]
  {
    hide FourBits, XorFour;
    if j < 4 {
      XorFourBit(a / 16, b / 16, j);
    } else {
      XorFourBit(a % 16, b % 16, j - 4);
    }
  }
}
