/** The bit reader as the code runs it, against the bits that are left. */
module BitstreamReader {
  import opened Basics
  import opened EbmlInt
  import opened BitstreamBits

  // ---------------------------------------------------------------- what reads return, given the bits left

  /** peek: 0 when there are not enough bits; the low 64 bits of longer numbers. */
  function Peeked(rest: seq<bool>, count: nat): nat {
    if count > |rest| then 0 else Value(rest[..count]) % TWO_TO_THE_64
  }

  /** The number of zero bits before the first one bit, looked for from bit i on, among the first 64. */
  function LeadingZeros(rest: seq<bool>, i: nat): Option<nat>
    decreases |rest| - i
  {
    if i >= 64 || i >= |rest| then None
    else if rest[i] then Some(i)
    else LeadingZeros(rest, i + 1)
  }

  /** golombPeeker */
  function GolombPeeked(rest: seq<bool>): nat {
    match LeadingZeros(rest, 0)
    case None => 0
    case Some(i) => Peeked(rest, 2 * i + 1)
  }

  function AfterGolomb(rest: seq<bool>): seq<bool> {
    match LeadingZeros(rest, 0)
    case None => rest
    case Some(i) => if 2 * i + 1 <= |rest| then rest[2 * i + 1..] else rest
  }

  /** `golombGetter() - 1`, in 64 bits. */
  function UnsignedOf(golomb: nat): nat { if golomb == 0 then UNKNOWN else golomb - 1 }

  /** `(temp >> 1) * (1 - ((temp & 1) << 1))`, which is a signed 64-bit number. */
  function SignedOf(golomb: nat): int { if golomb % 2 == 0 then golomb / 2 else -(golomb / 2) }

  // ---------------------------------------------------------------- bytes cut into bits

  lemma {:induction false} ChunkValue(b: byte, off: nat, n: nat)
    requires off + n <= 8
    ensures b as nat % Pow2(8 - off) / Pow2(8 - off - n) == Value(ByteBits(b)[off..off + n])
  {
    hide Value, ByteBits, Pow2;
    var s := ByteBits(b);
    ByteValue(b);
    ValueSplit(s, off);
    var t := s[off..];
    ValueSplit(t, n);
    assert t[..n] == s[off..off + n];
  }

  lemma {:induction false} ByteSlice(data: seq<byte>, i: nat, off: nat, n: nat)
    requires i < |data| && off + n <= 8
    ensures Bits(data)[8 * i + off..8 * i + off + n] == ByteBits(data[i])[off..off + n]
  {
    hide *;
    ByteAt(data, i);
  }

  lemma {:induction false} ByteAt(data: seq<byte>, i: nat)
    requires i < |data|
    ensures Bits(data)[8 * i..][..8] == ByteBits(data[i])
  {
    hide *;
    var x, y, z := data[..i], [data[i]], data[i + 1..];
    assert data == x + (y + z);
    BitsConcat(x, y + z);
    BitsConcat(y, z);
    OneByte(data[i]);
  }

  lemma {:induction false} OneByte(b: byte)
    ensures Bits([b]) == ByteBits(b)
  {
    hide ByteBits;
    assert Bits([b]) == [] + ByteBits(b);
  }

  lemma {:induction false} ModStep(a: nat, k: nat, c: nat)
    ensures (a % TWO_TO_THE_64 * k + c) % TWO_TO_THE_64 == (a * k + c) % TWO_TO_THE_64
  {
    var q, r := a / TWO_TO_THE_64, a % TWO_TO_THE_64;
    assert a == q * TWO_TO_THE_64 + r;
    assert a * k == q * k * TWO_TO_THE_64 + r * k;
  }

  /** One more chunk: the bits read so far, then n bits of one byte. */
  lemma {:induction false} NextChunk(bits: seq<bool>, offset: nat, cur: nat, n: nat, retval: nat, chunk: nat)
    requires offset + cur + n <= |bits| && retval == Value(bits[offset..offset + cur]) % TWO_TO_THE_64
    requires chunk == Value(bits[offset + cur..offset + cur + n])
    ensures (retval * Pow2(n) + chunk) % TWO_TO_THE_64 == Value(bits[offset..offset + cur + n]) % TWO_TO_THE_64
  {
    hide Value, Pow2;
    var a, b := bits[offset..offset + cur], bits[offset + cur..offset + cur + n];
    assert bits[offset..offset + cur + n] == a + b;
    ValueConcat(a, b);
    ModStep(Value(a), Pow2(n), chunk);
  }

  // ---------------------------------------------------------------- emulation prevention

  /** What appendPreventEmulation keeps of its input: 0, 0, 3 loses its 3. */
  function Unescaped(s: seq<byte>): seq<byte> {
    if s == [] then []
    else if |s| >= 3 && s[0] == 0 && s[1] == 0 && s[2] == 3 then [0, 0] + Unescaped(s[3..])
    else [s[0]] + Unescaped(s[1..])
  }

  /** Section 7.4.1.1 of ITU-T H.264: after two zero bytes, a byte of at most 3 gets a 3 in front. */
  function Escaped(s: seq<byte>, zeros: nat): seq<byte>
    requires zeros <= 2
  {
    if s == [] then []
    else if zeros == 2 && s[0] <= 3 then [3, s[0]] + Escaped(s[1..], if s[0] == 0 then 1 else 0)
    else [s[0]] + Escaped(s[1..], if s[0] == 0 then zeros + 1 else 0)
  }

  function ZeroBytes(n: nat): seq<byte>
    requires n <= 2
  {
    if n == 0 then [] else if n == 1 then [0] else [0, 0]
  }

  lemma {:induction false} UnescapedStep(s: seq<byte>, rest: seq<byte>)
    ensures Unescaped([0, 0, 3] + rest) == [0, 0] + Unescaped(rest)
    ensures s != [] && s[0] != 0 ==> Unescaped(s) == [s[0]] + Unescaped(s[1..])
  {
    assert ([0, 0, 3] + rest)[3..] == rest;
  }

  /** Fewer than three zeros before a byte that is neither 0 nor an escape are copied. */
  lemma {:induction false} ZerosCopied(zeros: nat, b: byte, rest: seq<byte>)
    requires zeros <= 2 && b != 0 && (zeros == 2 ==> b != 3)
    ensures Unescaped(ZeroBytes(zeros) + ([b] + rest)) == ZeroBytes(zeros) + ([b] + Unescaped(rest))
  {
    var t := [b] + rest;
    assert t[1..] == rest;
    assert Unescaped(t) == [b] + Unescaped(rest);
    if zeros == 1 {
      assert ([0] + t)[1..] == t;
    } else if zeros == 2 {
      assert ([0, 0] + t)[1..] == [0] + t;
      assert ([0] + t)[1..] == t;
      assert [0] + ([0] + Unescaped(t)) == [0, 0] + Unescaped(t);
    } else {
      assert [] + t == t;
      assert [] + Unescaped(t) == Unescaped(t);
    }
  }

  lemma {:induction false} OnlyZeros(zeros: nat)
    requires zeros <= 2
    ensures Unescaped(ZeroBytes(zeros)) == ZeroBytes(zeros)
  {
    assert Unescaped([0]) == [0] + Unescaped([]);
    if zeros == 2 {
      assert Unescaped([0, 0]) == [0] + Unescaped([0]);
    }
  }

  lemma {:induction false} UnescapesFrom(s: seq<byte>, zeros: nat)
    requires zeros <= 2
    ensures Unescaped(ZeroBytes(zeros) + Escaped(s, zeros)) == ZeroBytes(zeros) + s
    decreases s
  {
    hide Unescaped;
    if s == [] {
      OnlyZeros(zeros);
      assert ZeroBytes(zeros) + [] == ZeroBytes(zeros);
    } else if zeros == 2 && s[0] <= 3 {
      EscapedByte(s);
    } else if s[0] == 0 {
      UnescapesFrom(s[1..], zeros + 1);
      assert ZeroBytes(zeros) + ([0] + Escaped(s[1..], zeros + 1)) == ZeroBytes(zeros + 1) + Escaped(s[1..], zeros + 1);
      assert ZeroBytes(zeros + 1) + s[1..] == ZeroBytes(zeros) + s;
    } else {
      UnescapesFrom(s[1..], 0);
      ZerosCopied(zeros, s[0], Escaped(s[1..], 0));
      assert ZeroBytes(0) + Escaped(s[1..], 0) == Escaped(s[1..], 0);
      assert ZeroBytes(0) + s[1..] == s[1..];
      assert [s[0]] + s[1..] == s;
    }
  }

  lemma {:induction false} EscapedByte(s: seq<byte>)
    requires s != [] && s[0] <= 3
    ensures Unescaped(ZeroBytes(2) + Escaped(s, 2)) == ZeroBytes(2) + s
    decreases s, 0
  {
    hide Unescaped;
    var z := if s[0] == 0 then 1 else 0;
    var e := Escaped(s[1..], z);
    UnescapesFrom(s[1..], z);
    assert ZeroBytes(2) + ([3, s[0]] + e) == [0, 0, 3] + ([s[0]] + e);
    UnescapedStep([s[0]] + e, [s[0]] + e);
    assert ([s[0]] + e)[1..] == e;
    assert [s[0]] + s[1..] == s;
    if s[0] == 0 {
      assert [s[0]] + e == ZeroBytes(1) + e;
    } else {
      assert ZeroBytes(0) + e == e;
      assert ZeroBytes(0) + s[1..] == s[1..];
    }
  }

  /** Removing the emulation prevention bytes undoes inserting them, on every byte string. */
  lemma {:induction false} EmulationUndone(s: seq<byte>)
    ensures Unescaped(Escaped(s, 0)) == s
  {
    UnescapesFrom(s, 0);
    assert ZeroBytes(0) + Escaped(s, 0) == Escaped(s, 0);
    assert ZeroBytes(0) + s == s;
  }

  predicate Escape(s: seq<byte>) { |s| >= 3 && s[0] == 0 && s[1] == 0 && s[2] == 3 }

  /** A 0, 0, 3 that starts in the first piece and ends in the second. */
  predicate CutThrough(a: seq<byte>, b: seq<byte>) {
    || (|a| >= 2 && a[|a| - 2] == 0 && a[|a| - 1] == 0 && b != [] && b[0] == 3)
    || (a != [] && a[|a| - 1] == 0 && |b| >= 2 && b[0] == 0 && b[1] == 3)
  }

  /** Appending in two pieces keeps the same bytes as appending at once exactly when no emulation prevention is cut
      through. */
  lemma {:induction false} TwoPiecesIff(a: seq<byte>, b: seq<byte>)
    ensures Unescaped(a + b) == Unescaped(a) + Unescaped(b) <==> !CutThrough(a, b)
    decreases a
  {
    hide Unescaped;
    if a == [] {
      assert a + b == b && [] + Unescaped(b) == Unescaped(b);
      UnescapedStops();
    } else if |a| <= 2 && Escape(a + b) {
      CutLosesOne(a, b);
    } else if Escape(a) {
      assert (a + b)[3..] == a[3..] + b;
      EscapeFirst(a);
      EscapeFirst(a + b);
      TwoPiecesIff(a[3..], b);
      Assoc([0, 0], Unescaped(a[3..]), Unescaped(b));
      Cancels([0, 0], Unescaped(a[3..] + b), Unescaped(a[3..]) + Unescaped(b));
    } else {
      assert (a + b)[1..] == a[1..] + b;
      CopyFirst(a);
      CopyFirst(a + b);
      TwoPiecesIff(a[1..], b);
      Assoc([a[0]], Unescaped(a[1..]), Unescaped(b));
      Cancels([a[0]], Unescaped(a[1..] + b), Unescaped(a[1..]) + Unescaped(b));
    }
  }

  lemma {:induction false} UnescapedStops()
    ensures Unescaped([]) == []
  {
  }

  lemma {:induction false} EscapeFirst(s: seq<byte>)
    requires Escape(s)
    ensures Unescaped(s) == [0, 0] + Unescaped(s[3..])
  {
  }

  lemma {:induction false} CopyFirst(s: seq<byte>)
    requires s != [] && !Escape(s)
    ensures Unescaped(s) == [s[0]] + Unescaped(s[1..])
  {
  }

  lemma {:induction false} Cancels(p: seq<byte>, a: seq<byte>, b: seq<byte>)
    ensures p + a == p + b <==> a == b
  {
    assert (p + a)[|p|..] == a && (p + b)[|p|..] == b;
  }

  lemma {:induction false} CutLosesOne(a: seq<byte>, b: seq<byte>)
    requires 1 <= |a| <= 2 && Escape(a + b)
    ensures |Unescaped(a + b)| + 1 == |Unescaped(a) + Unescaped(b)|
  {
    var s := a + b;
    EscapeFirst(s);
    assert s[3..] == b[3 - |a|..];
    if |a| == 2 {
      assert a == [0, 0] && b[0] == 3;
      OnlyZeros(2);
      CopyFirst(b);
    } else {
      assert a == [0] && b[0] == 0 && b[1] == 3;
      OnlyZeros(1);
      CopyFirst(b);
      CopyFirst(b[1..]);
      assert b[1..][1..] == b[2..];
    }
  }

  // ---------------------------------------------------------------- the reader

  /** The part of one byte that is read: from bit readOff on, up to its end or the end of the number. */
  method Chunk(b: byte, readOff: nat, left: nat) returns (readBuff: nat, readSize: nat)
    requires readOff < 8 && left >= 1
    ensures readSize == if left < 8 - readOff then left else 8 - readOff
    ensures readBuff == Value(ByteBits(b)[readOff..readOff + readSize])
  {
    hide Value, Pow2, ByteBits;
    readBuff, readSize := b, 8;
    ghost var n: nat := if left < 8 - readOff then left else 8 - readOff;
    SmallPowers();
    ChunkValue(b, readOff, n);
    if readOff != 0 {
      readSize := readSize - readOff;
      readBuff := readBuff % Pow2(readSize);
    }
    if left < readSize {
      readSize := left;
      readBuff := readBuff / Pow2(8 - readSize - readOff);
    } else {
      NoShift(readBuff);
    }
  }

  class BitReader {
    var data: seq<byte>
    var offset: nat

    /** The bits not read yet. */
    ghost function Rest(): seq<bool>
      reads this
    {
      if offset > 8 * |data| then [] else Bits(data)[offset..]
    }

    constructor ()
      ensures data == [] && offset == 0
    {
      data, offset := [], 0;
    }

    function Size(): (r: nat)
      reads this
      ensures r == |Rest()|
    {
      if offset > 8 * |data| then 0 else 8 * |data| - offset
    }

    method Append(input: seq<byte>)
      modifies this`data
      ensures data == old(data) + input
      ensures old(offset) <= 8 * |old(data)| ==> Rest() == old(Rest()) + Bits(input)
    {
      BitsConcat(data, input);
      data := data + input;
    }

    method AppendPreventEmulation(input: seq<byte>)
      modifies this`data
      ensures data == old(data) + Unescaped(input)
    {
      var i := 0;
      assert input[0..] == input;
      while i < |input|
        invariant 0 <= i <= |input|
        invariant data + Unescaped(input[i..]) == old(data) + Unescaped(input)
      {
        ghost var was, left := data, input[i..];
        if i + 2 < |input| && input[i] == 0 && input[i + 1] == 0 && input[i + 2] == 3 {
          data := data + [input[i], input[i + 1]];
          i := i + 2;
          assert left[3..] == input[i + 1..];
          Assoc(was, [0, 0], Unescaped(input[i + 1..]));
        } else {
          data := data + [input[i]];
          assert left[1..] == input[i + 1..];
          Assoc(was, [left[0]], Unescaped(input[i + 1..]));
        }
        i := i + 1;
      }
      assert data + [] == data;
    }

    /** peek: count bits, whole chunks of one byte at a time. */
    method Peek(count: nat) returns (retval: nat)
      ensures retval == Peeked(Rest(), count)
    {
      hide Bits, Value, Pow2, ByteBits, FourBits;
      if count > Size() {
        return 0;
      }
      retval := 0;
      var curPlace: nat := 0;
      Nothing(Bits(data), if offset > 8 * |data| then 0 else offset);
      if offset > 8 * |data| {
        return;
      }
      while curPlace < count
        invariant curPlace <= count && offset + count <= 8 * |data|
        invariant retval == Value(Bits(data)[offset..offset + curPlace]) % TWO_TO_THE_64
        decreases count - curPlace
      {
        var index := (offset + curPlace) / 8;
        var readBuff, readSize := Chunk(data[index], (offset + curPlace) % 8, count - curPlace);
        ByteSlice(data, index, (offset + curPlace) % 8, readSize);
        NextChunk(Bits(data), offset, curPlace, readSize, retval, readBuff);
        retval := (retval * Pow2(readSize) + readBuff) % TWO_TO_THE_64;
        curPlace := curPlace + readSize;
      }
      assert Bits(data)[offset..][..count] == Bits(data)[offset..offset + count];
    }

    method Skip(count: nat)
      modifies this`offset
      ensures Rest() == if count <= |old(Rest())| then old(Rest())[count..] else []
    {
      if count <= Size() {
        offset := offset + count;
      } else {
        offset := 8 * |data|;
      }
    }

    method Get(count: nat) returns (retVal: nat)
      modifies this`offset
      ensures retVal == Peeked(old(Rest()), count)
      ensures Rest() == if count <= |old(Rest())| then old(Rest())[count..] else old(Rest())
    {
      if count <= Size() {
        retVal := Peek(count);
        Skip(count);
      } else {
        return 0;
      }
    }

    /** flush: forgets the whole bytes already read, and none of the bits left. */
    method Flush()
      requires offset <= 8 * |data|
      modifies this
      ensures Rest() == old(Rest()) && offset < 8
    {
      hide Bits;
      FlushedBits(data, offset);
      data := data[offset / 8..];
      offset := offset % 8;
    }

    method Clear()
      modifies this
      ensures data == [] && Rest() == []
    {
      data, offset := [], 0;
    }

    /** peekOffset: one bit further on. */
    function PeekOffset(ahead: nat): (r: bool)
      requires offset + ahead < 8 * |data|
      reads this
      ensures r == Rest()[ahead]
    {
      var k := offset + ahead;
      BitAt(data, k / 8, k % 8);
      BitOfByte(data[k / 8], k % 8);
      data[k / 8] / Power(7 - k % 8) % 2 == 1
    }

    method GolombPeeker() returns (r: nat)
      ensures r == GolombPeeked(Rest())
    {
      hide Bits, PeekOffset, Peeked;
      var i := 0;
      while i < 64 && i < Size()
        invariant 0 <= i && LeadingZeros(Rest(), i) == LeadingZeros(Rest(), 0)
        decreases 64 - i
      {
        if PeekOffset(i) {
          r := Peek(i * 2 + 1);
          return;
        }
        i := i + 1;
      }
      return 0;
    }

    method GolombGetter() returns (r: nat)
      modifies this`offset
      ensures r == GolombPeeked(old(Rest())) && Rest() == AfterGolomb(old(Rest()))
    {
      hide Bits, PeekOffset, Peeked;
      var i := 0;
      while i < 64 && i < Size()
        invariant 0 <= i && offset == old(offset) && LeadingZeros(Rest(), i) == LeadingZeros(Rest(), 0)
        decreases 64 - i
      {
        if PeekOffset(i) {
          r := Get(i * 2 + 1);
          return;
        }
        i := i + 1;
      }
      return 0;
    }

    method GetUExpGolomb() returns (r: nat)
      modifies this`offset
      ensures r == UnsignedOf(GolombPeeked(old(Rest()))) && Rest() == AfterGolomb(old(Rest()))
    {
      hide GolombPeeked, AfterGolomb, Bits;
      var temp := GolombGetter();
      r := (temp - 1) % TWO_TO_THE_64;
      GolombSmall(old(Rest()));
    }

    method GetExpGolomb() returns (r: int)
      modifies this`offset
      ensures r == SignedOf(GolombPeeked(old(Rest()))) && Rest() == AfterGolomb(old(Rest()))
    {
      hide GolombPeeked, AfterGolomb, Bits, SignedOf;
      var temp := GolombGetter();
      var sign: int := 1 - 2 * (temp % 2);
      SignedIs(temp);
      r := temp / 2 * sign;
    }
  }

  lemma {:induction false} SignedIs(temp: nat)
    ensures temp / 2 * (1 - 2 * (temp % 2)) == SignedOf(temp)
  {
    if temp % 2 == 0 {
      assert temp / 2 * 1 == temp / 2;
    } else {
      assert temp / 2 * (-1) == -(temp / 2);
    }
  }

  /** Whole read bytes may be dropped. */
  lemma {:induction false} FlushedBits(data: seq<byte>, offset: nat)
    requires offset <= 8 * |data|
    ensures Bits(data[offset / 8..])[offset % 8..] == Bits(data)[offset..]
  {
    hide Bits;
    BitsDrop(data, offset / 8);
    assert offset == 8 * (offset / 8) + offset % 8;
    DropTwice(Bits(data), 8 * (offset / 8), offset % 8);
  }

  lemma {:induction false} DropTwice(s: seq<bool>, a: nat, b: nat)
    requires a + b <= |s|
    ensures s[a..][b..] == s[a + b..]
  {
  }

  function Power(n: nat): (r: byte)
    requires n <= 7
    ensures r >= 1
  {
    if n == 0 then 1 else if n == 1 then 2 else if n == 2 then 4 else if n == 3 then 8
    else if n == 4 then 16 else if n == 5 then 32 else if n == 6 then 64 else 128
  }

  lemma {:induction false} HighBit(b: byte, j: nat)
    requires j < 4
    ensures FourBits(b / 16)[j] == (b / Power(7 - j) % 2 == 1)
  {
  }

  lemma {:induction false} LowBit(b: byte, j: nat)
    requires j < 4
    ensures FourBits(b)[j] == (b / Power(3 - j) % 2 == 1)
  {
  }

  lemma {:induction false} BitOfByte(b: byte, j: nat)
    requires j < 8
    ensures ByteBits(b)[j] == (b / Power(7 - j) % 2 == 1)
  {
    hide Power, FourBits;
    if j < 4 {
      HighBit(b, j);
    } else {
      LowFour(b);
      LowBit(b, j - 4);
    }
  }

  lemma {:induction false} GolombSmall(rest: seq<bool>)
    ensures GolombPeeked(rest) < TWO_TO_THE_64
  {
    hide Value;
  }

  lemma {:induction false} Nothing(bits: seq<bool>, offset: nat)
    requires offset <= |bits|
    ensures Value(bits[offset..offset]) == 0 && Value([]) == 0
  {
  }

  lemma {:induction false} NoShift(x: nat)
    ensures x / Pow2(0) == x
  {
  }
}
