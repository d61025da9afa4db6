/** AV1 unit headers in plain numbers, and units that are cut off or have no size. */
module ObuRules {
  import opened Basics
  import opened EbmlInt
  import opened Obu

  /** The bits of the first byte (section 5.3.2 of the AV1 Bitstream specification): forbidden, four of type, extension,
      size, reserved. */
  lemma {:induction false} FirstByte(forbidden: nat, kind: nat, extension: nat, size: nat, reserved: nat)
    requires forbidden < 2 && kind < 16 && extension < 2 && size < 2 && reserved < 2
    ensures var first := 128 * forbidden + 8 * kind + 4 * extension + 2 * size + reserved;
            && TypeOf(first) == kind && (HasSize(first) <==> size == 1) && BaseHeader(first) == 1 + extension
  {
  }

  /** Group k of a length holds its bits 7k to 7k + 6; every group but the last is marked with 0x80, and the last one is
      not zero unless it is the only one. */
  lemma {:induction false} GroupIs(n: nat, k: nat)
    requires k < |Leb128(n)|
    ensures Leb128(n)[k] as nat == n / Pow128(k) % 128 + if k < |Leb128(n)| - 1 then 0x80 else 0
    ensures k > 0 && k == |Leb128(n)| - 1 ==> Leb128(n)[k] > 0
  {
    if k > 0 {
      GroupIs(n / 0x80, k - 1);
      DividedTwice(n, Pow128(k - 1));
    } else {
      assert n / 1 == n;
    }
  }

  lemma {:induction false} DividedTwice(n: nat, p: nat)
    requires p > 0
    ensures n / 128 / p == n / (128 * p)
  {
    var q, r := n / 128 / p, n / 128 % p;
    assert n / 128 == p * q + r;
    assert (128 * p) * q == 128 * (p * q);
    DivideExact(n, 128 * p, q);
  }

  /** The sizes 0, 127, 128 and 300, and the largest size that is read and the smallest that is not. */
  lemma {:induction false} LengthExamples()
    ensures Leb128(0) == [0] && Leb128(127) == [0x7F] && Leb128(128) == [0x80, 0x01] && Leb128(300) == [0xAC, 0x02]
    ensures SizeField([0xFF, 0xFF, 0xFF, 0xFF, 0x07], 0, 0, 0) == Field(0x7FFF_FFFF, 5)
    ensures SizeField([0x80, 0x80, 0x80, 0x80, 0x08], 0, 0, 0) == Overflow
  {
    Powers128();
    LargestRead();
    SmallestLost();
  }

  lemma {:induction false} Powers128()
    ensures Pow128(0) == 1 && Pow128(1) == 128 && Pow128(2) == 16384 && Pow128(3) == 2097152 && Pow128(4) == 268435456
  {
    assert Pow128(2) == 128 * Pow128(1);
  }

  lemma {:induction false} LargestRead()
    ensures SizeField([0xFF, 0xFF, 0xFF, 0xFF, 0x07], 0, 0, 0) == Field(0x7FFF_FFFF, 5)
  {
    hide Pow128;
    Powers128();
    var s: seq<byte> := [0xFF, 0xFF, 0xFF, 0xFF, 0x07];
    assert SizeField(s, 4, 4, 0xFFF_FFFF) == Field(0x7FFF_FFFF, 5);
    assert SizeField(s, 3, 3, 0x1F_FFFF) == SizeField(s, 4, 4, 0xFFF_FFFF);
    assert SizeField(s, 2, 2, 0x3FFF) == SizeField(s, 3, 3, 0x1F_FFFF);
    assert SizeField(s, 1, 1, 0x7F) == SizeField(s, 2, 2, 0x3FFF);
  }

  lemma {:induction false} SmallestLost()
    ensures SizeField([0x80, 0x80, 0x80, 0x80, 0x08], 0, 0, 0) == Overflow
  {
    hide Pow128;
    Powers128();
    var s: seq<byte> := [0x80, 0x80, 0x80, 0x80, 0x08];
    assert SizeField(s, 4, 4, 0) == Overflow;
    assert SizeField(s, 3, 3, 0) == SizeField(s, 4, 4, 0);
    assert SizeField(s, 2, 2, 0) == SizeField(s, 3, 3, 0);
    assert SizeField(s, 1, 1, 0) == SizeField(s, 2, 2, 0);
  }

  // ---------------------------------------------------------------- cut-off and unsized units

  /** The first bytes of a length, without its end, are no length. */
  lemma {:induction false} LengthCut(data: seq<byte>, pos: nat, i: nat, acc: nat, m: nat)
    requires pos <= |data| < pos + |Leb128(m)| && data[pos..] == Leb128(m)[..|data| - pos]
    requires m * Pow128(i) < INT_LIMIT && (m >= 1 || i == 0)
    ensures SizeField(data, pos, i, acc) == Cut
    decreases m
  {
    if pos < |data| {
      assert data[pos..][0] == Leb128(m)[0];
      BigShift(m, i);
      Groups(m, Pow128(i));
      assert data[pos + 1..] == data[pos..][1..];
      assert Leb128(m)[1..] == Leb128(m / 0x80);
      assert Leb128(m)[..|data| - pos][1..] == Leb128(m / 0x80)[..|data| - pos - 1];
      LengthCut(data, pos + 1, i + 1, acc + m % 0x80 * Pow128(i), m / 0x80);
    }
  }

  /** Less than a whole unit is invalid, wherever it is cut. */
  lemma {:induction false} CutUnitIsInvalid(u: Source, n: nat)
    requires Sized(u) && n < |UnitBytes(u)|
    ensures Parsed(UnitBytes(u)[..n]) == Invalid
  {
    hide Leb128, SizeField, HasSize, BaseHeader, TypeOf;
    var leb := Leb128(|u.payload|);
    var h := |HeadBytes(u)|;
    var data := UnitBytes(u)[..n];
    if n > 0 {
      assert data[0] == HeadBytes(u)[0] == u.first;
      if n < h {
        NothingLeft(data, h);
      } else if n < h + |leb| {
        assert data[h..] == leb[..n - h];
        LengthCut(data, h, 0, 0, |u.payload|);
      } else {
        assert data == HeadBytes(u) + (leb + u.payload[..n - h - |leb|]);
        AtStart(data, []);
        AtSplit(data, 0, HeadBytes(u), leb + u.payload[..n - h - |leb|]);
        AtSplit(data, h, leb, u.payload[..n - h - |leb|]);
        LebReads(data, h, 0, 0, |u.payload|);
      }
    }
  }

  lemma {:induction false} NothingLeft(data: seq<byte>, pos: nat)
    requires |data| < pos + 1
    ensures SizeField(data, pos, 0, 0) == Cut
  {
  }

  /** A unit without a size takes all there is; its header and payload add up to that exactly unless the header alone is
      longer than the data, which shows a payload of 2^64 - 1 bytes. */
  lemma {:induction false} UnsizedTakesAll(data: seq<byte>)
    requires data != [] && data[0] / 2 % 2 == 0 && TypeOf(data[0]) != 2 && |data| < 0x1_0000_0000_0000_0000
    ensures Parsed(data).Unit? && Parsed(data).size == |data| && Parsed(data).header == 1 + data[0] / 4 % 2
    ensures Parsed(data).header + Parsed(data).payload == |data| <==> |data| > 1 || data[0] / 4 % 2 == 0
    ensures |data| == 1 && data[0] / 4 % 2 == 1 ==> Parsed(data).payload == 0xFFFF_FFFF_FFFF_FFFF
  {
  }

  /** A temporal delimiter is a unit of type 2: it is only its header, whatever there is behind it. */
  lemma {:induction false} DelimiterIsHeader(data: seq<byte>)
    requires data != [] && data[0] / 8 % 16 == 2 && Parsed(data).Unit? && |data| < 0x1_0000_0000_0000_0000
    ensures Parsed(data).payload == 0 && Parsed(data).size == Parsed(data).header
  {
  }
}
