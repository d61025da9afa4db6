/** EBML variable-length integers (section 4 of RFC 8794) as the reader and the writer handle them. */
module EbmlInt {
  import opened Basics

  /** What the one-byte size 0xFF reads as: size unknown. */
  const UNKNOWN: nat := 0xFFFF_FFFF_FFFF_FFFF

  const TWO_TO_THE_64: nat := 0x1_0000_0000_0000_0000

  /** The largest value that has an encoding. */
  const MAX_VALUE: nat := 0xFF_FFFF_FFFF_FFFE

  // ---------------------------------------------------------------- fixed-width integers

  function Pow256(k: nat): (r: nat)
    ensures r >= 1
  {
    if k == 0 then 1 else 256 * Pow256(k - 1)
  }

  /** The low w bytes of x, most significant first. */
  function Be(w: nat, x: nat): (r: seq<byte>)
    ensures |r| == w
  {
    if w == 0 then [] else Be(w - 1, x / 256) + [x % 256]
  }

  function FromBe(s: seq<byte>): nat {
    if s == [] then 0 else FromBe(s[..|s| - 1]) * 256 + s[|s| - 1] as int
  }

  lemma {:induction false} BeExact(w: nat, x: nat)
    requires x < Pow256(w)
    ensures FromBe(Be(w, x)) == x
  {
    if w > 0 {
      BeExact(w - 1, x / 256);
      assert Be(w, x)[..w - 1] == Be(w - 1, x / 256);
    }
  }

  lemma {:induction false} FirstByte(w: nat, x: nat, lo: nat, hi: nat)
    requires w >= 1 && hi <= 256 && lo * Pow256(w - 1) <= x < hi * Pow256(w - 1)
    ensures lo <= Be(w, x)[0] < hi
  {
    if w > 1 {
      ByteDown(lo, Pow256(w - 2), hi, x);
      FirstByte(w - 1, x / 256, lo, hi);
    }
  }

  lemma {:induction false} ByteDown(lo: nat, p: nat, hi: nat, x: nat)
    requires lo * (256 * p) <= x < hi * (256 * p)
    ensures lo * p <= x / 256 < hi * p
  {
    assert lo * (256 * p) == 256 * (lo * p) && hi * (256 * p) == 256 * (hi * p);
  }

  // ---------------------------------------------------------------- variable-length integers

  /** readSize: the width the first byte announces. */
  function ReadSize(first: nat): (r: nat)
    ensures 1 <= r <= 8
  {
    if first >= 0x80 then 1
    else if first >= 0x40 then 2
    else if first >= 0x20 then 3
    else if first >= 0x10 then 4
    else if first >= 0x08 then 5
    else if first >= 0x04 then 6
    else if first >= 0x02 then 7
    else if first >= 0x01 then 8
    else 1
  }

  /** writeSize: the width used for a value; 0 when it has no encoding. */
  function WriteSize(val: nat): (r: nat)
    ensures r <= 8 && (r == 0 <==> val > MAX_VALUE)
  {
    if val <= 0x7E then 1
    else if val <= 0x3FFE then 2
    else if val <= 0x1FFFFE then 3
    else if val <= 0xFFFFFFE then 4
    else if val <= 0x7FFFFFFFE then 5
    else if val <= 0x3FFFFFFFFFE then 6
    else if val <= 0x1FFFFFFFFFFFE then 7
    else if val <= MAX_VALUE then 8
    else 0
  }

  /** The marker bit of each width; the value bits are those below it. */
  function Marker(w: nat): (r: nat)
    requires 1 <= w <= 8
    ensures r > 0
  {
    if w == 1 then 0x80
    else if w == 2 then 0x4000
    else if w == 3 then 0x20_0000
    else if w == 4 then 0x1000_0000
    else if w == 5 then 0x8_0000_0000
    else if w == 6 then 0x400_0000_0000
    else if w == 7 then 0x2_0000_0000_0000
    else 0x100_0000_0000_0000
  }

  /** An integer stands completely within the data at position i. */
  predicate Readable(data: seq<byte>, i: nat) {
    i < |data| && i + ReadSize(data[i]) <= |data|
  }

  /** readInt: the bytes without the marker bit. */
  function ReadInt(data: seq<byte>, i: nat): (r: nat)
    requires Readable(data, i)
    ensures r < TWO_TO_THE_64
  {
    if data[i] == 0xFF then UNKNOWN
    else FromBe(data[i..i + ReadSize(data[i])]) % Marker(ReadSize(data[i]))
  }

  /** What the signed form subtracts: half the range of the width, less one. */
  function Bias(w: nat): (r: int)
    requires 1 <= w <= 8
    ensures r == Marker(w) / 2 - 1
  {
    if w == 1 then 0x3F
    else if w == 2 then 0x1FFF
    else if w == 3 then 0xF_FFFF
    else if w == 4 then 0x7FF_FFFF
    else if w == 5 then 0x3_FFFF_FFFF
    else if w == 6 then 0x1FF_FFFF_FFFF
    else if w == 7 then 0xFFFF_FFFF_FFFF
    else 0x7F_FFFF_FFFF_FFFF
  }

  /** readSInt; the unknown value is -1 as a signed integer. */
  function ReadSInt(data: seq<byte>, i: nat): int
    requires Readable(data, i)
  {
    var w := ReadSize(data[i]);
    var v := ReadInt(data, i);
    (if v == UNKNOWN then -1 else v) - Bias(w)
  }

  /** A value in a given width. */
  function Coded(w: nat, val: nat): (r: seq<byte>)
    requires 1 <= w <= 8
    ensures |r| == w
  {
    Be(w, val + Marker(w))
  }

  /** What the writers emit: the value in its width, or the one byte that stands for an unknown size. */
  function UniBytes(val: nat): (r: seq<byte>)
    ensures |r| == if val <= MAX_VALUE then WriteSize(val) else 1
  {
    if WriteSize(val) == 0 then [0xFF] else Coded(WriteSize(val), val)
  }

  lemma {:induction false} Powers()
    ensures Pow256(0) == 1 && Pow256(1) == 0x100 && Pow256(2) == 0x1_0000 && Pow256(3) == 0x100_0000
    ensures Pow256(4) == 0x1_0000_0000 && Pow256(5) == 0x100_0000_0000 && Pow256(6) == 0x1_0000_0000_0000
    ensures Pow256(7) == 0x100_0000_0000_0000 && Pow256(8) == 0x1_0000_0000_0000_0000
  {
    assert Pow256(3) == 0x100_0000;
    assert Pow256(6) == 0x1_0000_0000_0000;
  }

  /** Every width's first byte carries exactly its own marker. */
  lemma {:induction false} CodedFirst(w: nat, val: nat)
    requires 1 <= w <= 8 && val < Marker(w)
    ensures val + Marker(w) < Pow256(w) && ReadSize(Coded(w, val)[0]) == w
    ensures w > 1 || val < 0x7F ==> Coded(w, val)[0] != 0xFF
  {
    hide Be, Pow256;
    Powers();
    if w == 1 {
      FirstByte(1, val + 0x80, val + 0x80, val + 0x81);
    } else if w == 2 {
      FirstByte(2, val + 0x4000, 0x40, 0x80);
    } else if w == 3 {
      FirstByte(3, val + 0x20_0000, 0x20, 0x40);
    } else if w == 4 {
      FirstByte(4, val + 0x1000_0000, 0x10, 0x20);
    } else if w == 5 {
      FirstByte(5, val + 0x8_0000_0000, 0x08, 0x10);
    } else if w == 6 {
      FirstByte(6, val + 0x400_0000_0000, 0x04, 0x08);
    } else if w == 7 {
      FirstByte(7, val + 0x2_0000_0000_0000, 0x02, 0x04);
    } else {
      FirstByte(8, val + 0x100_0000_0000_0000, 0x01, 0x02);
    }
  }

  /** A value coded in any width that can hold it reads back, wherever it stands. */
  lemma {:induction false} CodedReads(data: seq<byte>, i: nat, w: nat, val: nat)
    requires 1 <= w <= 8 && val < Marker(w) && (w > 1 || val < 0x7F) && At(data, i, Coded(w, val))
    ensures Readable(data, i) && ReadSize(data[i]) == w && ReadInt(data, i) == val
  {
    hide FromBe, Be, Pow256;
    CodedFirst(w, val);
    AtIndex(data, i, Coded(w, val), 0);
    assert data[i..i + w] == Coded(w, val);
    BeExact(w, val + Marker(w));
  }

  /** What the writer emits for any value up to 2^56 - 2, the reader gives back; larger ones read as unknown. */
  lemma {:induction false} UniBytesRead(data: seq<byte>, i: nat, val: nat)
    requires At(data, i, UniBytes(val))
    ensures Readable(data, i) && ReadSize(data[i]) == |UniBytes(val)|
    ensures ReadInt(data, i) == if val <= MAX_VALUE then val else UNKNOWN
  {
    hide Coded;
    if val <= MAX_VALUE {
      CodedReads(data, i, WriteSize(val), val);
    } else {
      AtIndex(data, i, UniBytes(val), 0);
    }
  }

  /** No shorter width can hold the value: the writer's encoding is the shortest one that is not all ones. */
  lemma {:induction false} WriteSizeIsLeast(val: nat, w: nat)
    requires val <= MAX_VALUE && 1 <= w <= 8
    ensures w >= WriteSize(val) <==> val < Marker(w) - 1
  {
  }

  /** Section 10.3.3 of RFC 9559 codes a difference d of frame sizes as d plus half the range less one. */
  function SignedCode(w: nat, d: int): (r: seq<byte>)
    requires 1 <= w <= 8 && -Bias(w) <= d <= Bias(w)
    ensures |r| == w
  {
    Coded(w, d + Bias(w))
  }

  /** The signed reader undoes that coding in every width. */
  lemma {:induction false} SignedReads(data: seq<byte>, i: nat, w: nat, d: int)
    requires 1 <= w <= 8 && -Bias(w) <= d <= Bias(w) && At(data, i, SignedCode(w, d))
    ensures Readable(data, i) && ReadSize(data[i]) == w
    ensures ReadSInt(data, i) == d
  {
    hide Coded, FromBe;
    CodedReads(data, i, w, d + Bias(w));
  }
}
