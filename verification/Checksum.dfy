/** The table-driven checksums against bit-by-bit polynomial division. */
module Checksum {
  import opened BitstreamBits
  import opened ChecksumDivision
  import opened ChecksumBits
  import opened ChecksumTables

  // ---------------------------------------------------------------- steps and entries

  /** The register occupies n bits, `top` is its highest. */
  ghost predicate Width(top: bv32, n: nat) {
    n > 0 && Ones(top | (top - 1), n) && forall c: bv32 :: HighBits(c, n)[0] == (c & top != 0)
  }

  lemma {:induction false} TopBits(c: bv32)
    ensures Odd(Right3(Right4(Right8(Right8(Right8(c)))))) == (c & 0x8000_0000 != 0)
    ensures Odd(Right3(Right4(Right8(c)))) == (c & 0x8000 != 0)
    ensures Odd(Right3(Right4(c))) == (c & 0x80 != 0)
  {
  }

  lemma {:induction false} FirstBit(c: bv32)
    ensures HighBits(c, 32)[0] == (c & 0x8000_0000 != 0)
    ensures HighBits(c, 16)[0] == (c & 0x8000 != 0)
    ensures HighBits(c, 8)[0] == (c & 0x80 != 0)
  {
    hide Odd, Half, Right3, Right4, Right8, Shifted;
    TopBits(c);
    HighTop(c, 1, 31);
    HighTop(c, 1, 15);
    HighTop(c, 1, 7);
    ShiftedFar(c);
    ShiftedEight(c);
    ShiftedSum(c, 8, 7);
    ShiftedEight(Right8(c));
    assert HighBits(c, 32)[0] == HighBits(c, 32)[..1][0];
    assert HighBits(c, 16)[0] == HighBits(c, 16)[..1][0];
    assert HighBits(c, 8)[0] == HighBits(c, 8)[..1][0];
  }

  lemma {:induction false} Widths()
    ensures Width(0x8000_0000, 32) && Width(0x8000, 16) && Width(0x80, 8)
  {
    hide HighBits, Ones;
    forall c: bv32 ensures HighBits(c, 32)[0] == (c & 0x8000_0000 != 0)
    {
      FirstBit(c);
    }
    forall c: bv32 ensures HighBits(c, 16)[0] == (c & 0x8000 != 0)
    {
      FirstBit(c);
    }
    forall c: bv32 ensures HighBits(c, 8)[0] == (c & 0x80 != 0)
    {
      FirstBit(c);
    }
    Masks();
  }

  lemma {:induction false} StepUpIs(poly: bv32, top: bv32, c: bv32, bit: bool)
    ensures StepUp(poly, top, c, bit)
            == (if (c & top != 0) != bit then Xor(Double(c), poly) else Double(c)) & (top | (top - 1))
  {
  }

  /** One message bit in the register is one step of the division. */
  lemma {:induction false} StepUpDivides(poly: bv32, top: bv32, n: nat, c: bv32, bit: bool)
    requires Width(top, n) && n <= 32
    ensures HighBits(StepUp(poly, top, c, bit), n) == Step(HighBits(poly, n), HighBits(c, n), bit)
  {
    hide HighBits, StepUp, Double, Xor, Ones;
    StepUpIs(poly, top, c, bit);
    HighUp(c, n);
    HighXor(Double(c), poly, n);
    HighMask(Double(c), top | (top - 1), n);
    HighMask(Xor(Double(c), poly), top | (top - 1), n);
  }

  /** Every table entry is the entry of its leading bits, one bit on. */
  ghost predicate Follows(table: nat -> bv32, poly: bv32, top: bv32) {
    table(0) == 0 && forall n: nat :: n < 256 ==> table(n) == StepUp(poly, top, table(n / 2), n % 2 == 1)
  }

  lemma {:induction false} AllFollow()
    ensures Follows(Table32, 0x04C11DB7, 0x8000_0000) && Follows(Table16, 0x8005, 0x8000) && Follows(Table8, 0x07, 0x80)
  {
    hide Table32, Table16, Table8, StepUp;
    forall n: nat | n < 256
      ensures Table32(n) == StepUp(0x04C11DB7, 0x8000_0000, Table32(n / 2), n % 2 == 1)
      ensures Table16(n) == StepUp(0x8005, 0x8000, Table16(n / 2), n % 2 == 1)
      ensures Table8(n) == StepUp(0x07, 0x80, Table8(n / 2), n % 2 == 1)
    {
      Next32(n);
      Next16(n);
      Next8(n);
    }
    Next32(0);
    Next16(0);
    Next8(0);
  }

  lemma {:induction false} IndexHalves(i: bv32)
    requires i < 256
    ensures Half(i) < 256 && i as nat < 256 && Half(i) as nat == i as nat / 2
  {
  }

  lemma {:induction false} IndexOdd(i: bv32)
    requires i < 256
    ensures Odd(i) == (i as nat % 2 == 1)
  {
  }

  /** An entry is the remainder of its index. */
  lemma {:induction false} EntryDivides(table: nat -> bv32, poly: bv32, top: bv32, n: nat, i: bv32, m: nat)
    requires Width(top, n) && 0 < n <= 32 && Follows(table, poly, top) && i < 256 && Shifted(i, m) == 0
    ensures Divided(HighBits(poly, n), Zeros(n), HighBits(i, m)) == HighBits(table(i as nat), n)
    decreases m
  {
    hide StepUp, Half, Odd, Divided, Width;
    if m == 0 {
      HighZero(n);
      DividedNothing(HighBits(poly, n), Zeros(n));
    } else {
      IndexHalves(i);
      IndexOdd(i);
      EntryDivides(table, poly, top, n, Half(i), m - 1);
      StepUpDivides(poly, top, n, table(Half(i) as nat), Odd(i));
      InParts(HighBits(poly, n), Zeros(n), HighBits(Half(i), m - 1), [Odd(i)]);
      DividedOne(HighBits(poly, n), HighBits(table(Half(i) as nat), n), Odd(i));
    }
  }

  lemma {:induction false} DividedNothing(poly: seq<bool>, c: seq<bool>)
    requires |poly| == |c| > 0
    ensures Divided(poly, c, []) == c
  {
  }

  lemma {:induction false} DividedOne(poly: seq<bool>, c: seq<bool>, bit: bool)
    requires |poly| == |c| > 0
    ensures Divided(poly, c, [bit]) == Step(poly, c, bit)
  {
    assert [bit][1..] == [];
  }

  // ---------------------------------------------------------------- one lookup is one byte

  lemma {:induction false} IndexEnds(i: bv32)
    requires i < 256
    ensures Right8(i) == 0
  {
  }

  /** The index is the message byte and the register's leading byte together: its entry, and the rest of the register
      moved up, are the register after that byte. */
  lemma {:induction false} LookupDivides(table: nat -> bv32, poly: bv32, top: bv32, n: nat, c: bv32, b: bv32, i: bv32)
    requires Width(top, n) && 8 <= n <= 32 && Follows(table, poly, top) && i < 256
    requires HighBits(i, 8) == Plus(HighBits(b, 8), HighBits(c, n)[..8])
    ensures HighBits(Xor(table(i as nat), Left8(c)), n) == Divided(HighBits(poly, n), HighBits(c, n), HighBits(b, 8))
  {
    hide HighBits, Divided, Plus, Xor, Left8, Width, Follows, Shifted, Right8;
    ManyAtOnce(HighBits(poly, n), HighBits(c, n), HighBits(b, 8));
    IndexEnds(i);
    ShiftedEight(i);
    EntryDivides(table, poly, top, n, i, 8);
    HighUpEight(c, n);
    HighXor(table(i as nat), Left8(c), n);
  }

  function Index32(c: bv32, b: bv8): bv32 { (b as bv32) ^ ((c >> 24) & 0xFF) }

  function Index16(c: bv32, b: bv8): bv32 { ((c >> 8) ^ (b as bv32)) & 0xFF }

  function Index8(c: bv32, b: bv8): bv32 { (b as bv32) ^ (c & 0xFF) }

  function IndexReflected(c: bv32, b: bv8): bv32 { ((b as bv32) ^ c) & 0xFF }

  function Wide(b: bv8): bv32 { b as bv32 }

  lemma {:induction false} IndexesFit(c: bv32, b: bv8)
    ensures Index32(c, b) < 256 && Index16(c, b) < 256 && Index8(c, b) < 256 && IndexReflected(c, b) < 256
  {
  }

  lemma {:induction false} Index32Is(c: bv32, b: bv8)
    ensures Index32(c, b) == Xor(Wide(b), Right8(Right8(Right8(c))) & 0xFF)
  {
    hide Right8;
    ThreeBytes(c);
  }

  lemma {:induction false} Index16Is(c: bv32, b: bv8)
    ensures Index16(c, b) == Xor(Wide(b), Right8(c)) & 0xFF
  {
  }

  lemma {:induction false} Index8Is(c: bv32, b: bv8)
    ensures Index8(c, b) == Xor(Wide(b), c & 0xFF)
    ensures IndexReflected(c, b) == Xor(Wide(b), c) & 0xFF
  {
  }

  lemma {:induction false} IndexBits(c: bv32, b: bv8)
    ensures HighBits(Index32(c, b), 8) == Plus(HighBits(Wide(b), 8), HighBits(c, 32)[..8])
    ensures HighBits(Index16(c, b), 8) == Plus(HighBits(Wide(b), 8), HighBits(c, 16)[..8])
    ensures HighBits(Index8(c, b), 8) == Plus(HighBits(Wide(b), 8), HighBits(c, 8)[..8])
    ensures LowBits(IndexReflected(c, b), 8) == Plus(LowBits(Wide(b), 8), LowBits(c, 32)[..8])
  {
    hide HighBits, LowBits, Index32, Index16, Index8, IndexReflected, Wide, Xor, Right8, Plus, Ones, Shifted;
    Masks();
    Index32Is(c, b);
    Index16Is(c, b);
    Index8Is(c, b);
    var far := Right8(Right8(Right8(c)));
    ShiftedFar(c);
    ShiftedEight(c);
    HighTop(c, 8, 24);
    HighTop(c, 8, 8);
    LowTop(c, 8, 24);
    HighXor(Wide(b), far & 0xFF, 8);
    HighMask(far, 0xFF, 8);
    HighXor(Wide(b), Right8(c), 8);
    HighMask(Xor(Wide(b), Right8(c)), 0xFF, 8);
    HighXor(Wide(b), c & 0xFF, 8);
    HighMask(c, 0xFF, 8);
    LowXor(Wide(b), c, 8);
    LowMask(Xor(Wide(b), c), 0xFF, 8);
    assert HighBits(c, 8)[..8] == HighBits(c, 8);
  }

  // ---------------------------------------------------------------- the reflected register

  /** An index without its lowest bit, which its entry has taken in first. */
  function Taken(i: bv32): bv32 { (i << 1) & 0xFF }

  function TakenAll(i: bv32, k: nat): bv32
    decreases k
  {
    if k == 0 then i else TakenAll(Taken(i), k - 1)
  }

  lemma {:induction false} TakenIs(i: bv32)
    requires i < 256
    ensures Taken(i) < 256 && Taken(i) == Double(i) & 0xFF
    ensures Taken(i) as nat == Twice(i as nat) && i as nat < 256
  {
  }

  lemma {:induction false} LastTaken(i: bv32)
    requires i < 256
    ensures Odd(Right3(Right4(i))) == (i as nat >= 128)
  {
  }

  lemma {:induction false} FourTaken(i: bv32)
    ensures Taken(Taken(Taken(Taken(i)))) == (i << 4) & 0xFF
  {
  }

  lemma {:induction false} AllTaken(i: bv32)
    requires i < 256
    ensures TakenAll(i, 8) == 0
  {
    hide Taken;
    var i4 := Taken(Taken(Taken(Taken(i))));
    FourTaken(i);
    FourTaken(i4);
    NothingTaken(i);
    assert TakenAll(i, 8) == TakenAll(i4, 4) == TakenAll(Taken(Taken(Taken(Taken(i4)))), 0);
  }

  lemma {:induction false} NothingTaken(i: bv32)
    ensures (((i << 4) & 0xFF) << 4) & 0xFF == 0
  {
  }

  lemma {:induction false} StepDownDivides(c: bv32, bit: bool)
    ensures LowBits(StepDown(c, bit), 32) == Step(LowBits(0xEDB88320, 32), LowBits(c, 32), bit)
  {
    hide LowBits, StepDown, Half, Odd, Xor;
    StepDownIs(c, bit);
    LowDown(c);
    LowXor(Half(c), 0xEDB88320, 32);
    LowFirst(c);
  }

  lemma {:induction false} StepDownIs(c: bv32, bit: bool)
    ensures StepDown(c, bit) == if Odd(c) != bit then Xor(Half(c), 0xEDB88320) else Half(c)
  {
  }

  lemma {:induction false} LowFirst(c: bv32)
    ensures LowBits(c, 32)[0] == Odd(c)
  {
  }

  lemma {:induction false} LowUnfolds(c: bv32, n: nat)
    ensures LowBits(c, n + 1) == [Odd(c)] + LowBits(Half(c), n)
  {
    hide Odd, Half;
  }

  /** Seven bits of an index behind a zero, and the eighth bit. */
  lemma {:induction false} TakenBits(i: bv32)
    requires i < 256
    ensures LowBits(Taken(i), 8) == [false] + LowBits(i, 7)
  {
    hide LowBits, Taken, Half, Odd, Double, Ones;
    TakenIs(i);
    Masks();
    LowMask(Double(i), 0xFF, 8);
    LowUnfolds(Double(i), 7);
    UpHalves(i);
    FewerOnes(0x7FFF_FFFF, 31, 7);
    LowMask(i, 0x7FFF_FFFF, 7);
  }

  lemma {:induction false} EighthBit(i: bv32)
    requires i < 256
    ensures LowBits(i, 8) == LowBits(i, 7) + [i as nat >= 128]
  {
    hide LowBits, Odd, Right3, Right4, Right8, Shifted;
    LowLast(i, 7);
    ShiftedEight(i);
    LastTaken(i);
  }

  lemma {:induction false} NextEntry(i: bv32)
    requires i < 256
    ensures TableReflected(0) == 0
    ensures TableReflected(i as nat) == StepDown(TableReflected(Taken(i) as nat), i as nat >= 128)
  {
    hide TableReflected, Taken, StepDown, Twice;
    TakenIs(i);
    NextReflected(i as nat);
  }

  lemma {:induction false} ReflectedEntryDivides(i: bv32, k: nat)
    requires i < 256 && TakenAll(i, k) == 0
    ensures Divided(LowBits(0xEDB88320, 32), Zeros(32), LowBits(i, 8)) == LowBits(TableReflected(i as nat), 32)
    decreases k
  {
    hide LowBits, TableReflected, Taken, StepDown, Divided;
    var poly, zero := LowBits(0xEDB88320, 32), Zeros(32);
    if k == 0 {
      LowZero(8);
      LowZero(32);
      NothingDivided(poly, 8);
      NextEntry(0);
    } else {
      TakenBits(i);
      EighthBit(i);
      TakenIs(i);
      ReflectedEntryDivides(Taken(i), k - 1);
      LeadingZero(poly, LowBits(i, 7));
      NextEntry(i);
      StepDownDivides(TableReflected(Taken(i) as nat), i as nat >= 128);
      InParts(poly, zero, LowBits(i, 7), [i as nat >= 128]);
      DividedOne(poly, LowBits(TableReflected(Taken(i) as nat), 32), i as nat >= 128);
    }
  }

  lemma {:induction false} LeadingZero(poly: seq<bool>, m: seq<bool>)
    requires poly != []
    ensures Divided(poly, Zeros(|poly|), [false] + m) == Divided(poly, Zeros(|poly|), m)
  {
    assert Step(poly, Zeros(|poly|), false) == Zeros(|poly|);
    assert ([false] + m)[1..] == m;
  }

  lemma {:induction false} ReflectedLookupDivides(c: bv32, b: bv8)
    ensures LowBits(Xor(TableReflected(IndexReflected(c, b) as nat), Right8(c)), 32)
            == Divided(LowBits(0xEDB88320, 32), LowBits(c, 32), LowBits(Wide(b), 8))
  {
    hide LowBits, TableReflected, Divided, Plus, Xor, Right8, IndexReflected, Wide, TakenAll;
    var i := IndexReflected(c, b);
    IndexesFit(c, b);
    IndexBits(c, b);
    ManyAtOnce(LowBits(0xEDB88320, 32), LowBits(c, 32), LowBits(Wide(b), 8));
    AllTaken(i);
    ReflectedEntryDivides(i, 8);
    LowDownEight(c);
    LowXor(TableReflected(i as nat), Right8(c), 32);
  }

  // ---------------------------------------------------------------- whole messages

  /** The bits of a message, the highest of each byte first. */
  function HighMessage(data: seq<bv8>): seq<bool>
    decreases |data|
  {
    if data == [] then [] else HighBits(Wide(data[0]), 8) + HighMessage(data[1..])
  }

  function LowMessage(data: seq<bv8>): seq<bool>
    decreases |data|
  {
    if data == [] then [] else LowBits(Wide(data[0]), 8) + LowMessage(data[1..])
  }

  function Crc32cNext(c: bv32, b: bv8): bv32 { Xor(Table32(Index32(c, b) as nat), Left8(c)) }

  function Crc32LENext(c: bv32, b: bv8): bv32 { Xor(TableReflected(IndexReflected(c, b) as nat), Right8(c)) }

  function Crc32Next(c: bv32, b: bv8): bv32 { Xor(TableSwapped(Index8(c, b) as nat), Right8(c)) }

  function Crc16Next(c: bv32, b: bv8): bv32 { Xor(Table16(Index16(c, b) as nat), Left8(c)) }

  function Crc8Next(c: bv32, b: bv8): bv32 { Xor(Table8(Index8(c, b) as nat), Left8(c) & 0xFF) }

  function Fold(next: (bv32, bv8) -> bv32, c: bv32, data: seq<bv8>): bv32
    decreases |data|
  {
    if data == [] then c else Fold(next, next(c, data[0]), data[1..])
  }

  lemma {:induction false} Next32Divides(c: bv32, b: bv8)
    ensures HighBits(Crc32cNext(c, b), 32) == Divided(HighBits(0x04C11DB7, 32), HighBits(c, 32), HighBits(Wide(b), 8))
  {
    hide HighBits, Table32, Divided, Plus, Xor, Left8, Index32, Wide, Follows, Width;
    IndexesFit(c, b);
    IndexBits(c, b);
    Widths();
    AllFollow();
    LookupDivides(Table32, 0x04C11DB7, 0x8000_0000, 32, c, Wide(b), Index32(c, b));
  }

  lemma {:induction false} Next16Divides(c: bv32, b: bv8)
    ensures HighBits(Crc16Next(c, b), 16) == Divided(HighBits(0x8005, 16), HighBits(c, 16), HighBits(Wide(b), 8))
  {
    hide HighBits, Table16, Divided, Plus, Xor, Left8, Index16, Wide, Follows, Width;
    IndexesFit(c, b);
    IndexBits(c, b);
    Widths();
    AllFollow();
    LookupDivides(Table16, 0x8005, 0x8000, 16, c, Wide(b), Index16(c, b));
  }

  lemma {:induction false} Next8Divides(c: bv32, b: bv8)
    ensures HighBits(Crc8Next(c, b), 8) == Divided(HighBits(0x07, 8), HighBits(c, 8), HighBits(Wide(b), 8))
  {
    hide HighBits, Table8, Divided, Plus, Xor, Left8, Index8, Wide, Follows, Width, Ones;
    IndexesFit(c, b);
    IndexBits(c, b);
    Widths();
    AllFollow();
    LookupDivides(Table8, 0x07, 0x80, 8, c, Wide(b), Index8(c, b));
    Masks();
    HighMask(Left8(c), 0xFF, 8);
    HighXor(Table8(Index8(c, b) as nat), Left8(c), 8);
    HighXor(Table8(Index8(c, b) as nat), Left8(c) & 0xFF, 8);
  }

  /** crc32c is polynomial division, for every start value and message. */
  lemma {:induction false} Crc32cDivides(c: bv32, data: seq<bv8>)
    ensures HighBits(Fold(Crc32cNext, c, data), 32)
            == Divided(HighBits(0x04C11DB7, 32), HighBits(c, 32), HighMessage(data))
    decreases |data|
  {
    hide HighBits, Crc32cNext, Divided;
    var poly := HighBits(0x04C11DB7, 32);
    if data == [] {
      DividedNothing(poly, HighBits(c, 32));
    } else {
      Next32Divides(c, data[0]);
      InParts(poly, HighBits(c, 32), HighBits(Wide(data[0]), 8), HighMessage(data[1..]));
      Crc32cDivides(Crc32cNext(c, data[0]), data[1..]);
    }
  }

  /** The low half of crc16, whose register is never cut to 16 bits, is the division by its polynomial. */
  lemma {:induction false} Crc16Divides(c: bv32, data: seq<bv8>)
    ensures HighBits(Fold(Crc16Next, c, data), 16)
            == Divided(HighBits(0x8005, 16), HighBits(c, 16), HighMessage(data))
    decreases |data|
  {
    hide HighBits, Crc16Next, Divided;
    var poly := HighBits(0x8005, 16);
    if data == [] {
      DividedNothing(poly, HighBits(c, 16));
    } else {
      Next16Divides(c, data[0]);
      InParts(poly, HighBits(c, 16), HighBits(Wide(data[0]), 8), HighMessage(data[1..]));
      Crc16Divides(Crc16Next(c, data[0]), data[1..]);
    }
  }

  lemma {:induction false} Crc8Divides(c: bv32, data: seq<bv8>)
    ensures HighBits(Fold(Crc8Next, c, data), 8) == Divided(HighBits(0x07, 8), HighBits(c, 8), HighMessage(data))
    ensures c < 256 ==> Fold(Crc8Next, c, data) < 256
    decreases |data|
  {
    hide HighBits, Crc8Next, Divided;
    var poly := HighBits(0x07, 8);
    if data == [] {
      DividedNothing(poly, HighBits(c, 8));
    } else {
      Next8Divides(c, data[0]);
      Next8Fits(c, data[0]);
      InParts(poly, HighBits(c, 8), HighBits(Wide(data[0]), 8), HighMessage(data[1..]));
      Crc8Divides(Crc8Next(c, data[0]), data[1..]);
    }
  }

  /** crc32LE is the same division as crc32c, with the bits of every byte and of the register in reverse. */
  lemma {:induction false} Crc32LEDivides(c: bv32, data: seq<bv8>)
    ensures LowBits(Fold(Crc32LENext, c, data), 32)
            == Divided(HighBits(0x04C11DB7, 32), LowBits(c, 32), LowMessage(data))
    decreases |data|
  {
    hide HighBits, LowBits, Crc32LENext, Divided;
    SamePolynomial();
    var poly := LowBits(0xEDB88320, 32);
    if data == [] {
      DividedNothing(poly, LowBits(c, 32));
    } else {
      Crc32LENextDivides(c, data[0]);
      InParts(poly, LowBits(c, 32), LowBits(Wide(data[0]), 8), LowMessage(data[1..]));
      Crc32LEDivides(Crc32LENext(c, data[0]), data[1..]);
    }
  }

  lemma {:induction false} Crc32LENextDivides(c: bv32, b: bv8)
    ensures LowBits(Crc32LENext(c, b), 32) == Divided(LowBits(0xEDB88320, 32), LowBits(c, 32), LowBits(Wide(b), 8))
  {
    hide LowBits, Divided, TableReflected, IndexReflected, Xor, Right8;
    ReflectedLookupDivides(c, b);
  }

  lemma {:induction false} EntriesFit(n: nat)
    requires n < 256
    ensures Table8(n) < 256
  {
    hide Table8;
    Next8(n);
  }

  lemma {:induction false} Next8Fits(c: bv32, b: bv8)
    ensures Crc8Next(c, b) < 256
  {
    hide Table8, Index8;
    IndexesFit(c, b);
    IndexHalves(Index8(c, b));
    EntriesFit(Index8(c, b) as nat);
  }

  /** The highest n bits of one polynomial are the lowest n of the other, and `rest` is left of that. */
  predicate Mirrored(high: bv32, low: bv32, rest: bv32, n: nat) {
    HighBits(high, n) == LowBits(low, n) && Shifted(low, n) == rest
  }

  lemma {:induction false} MirrorOne(h: bv32, h': bv32, low: bv32, rest: bv32, n: nat)
    requires Mirrored(h, low, rest, n) && Half(h') == h && Odd(h') == Odd(rest)
    ensures Mirrored(h', low, Half(rest), n + 1)
  {
    hide Half, Odd;
    LowLast(low, n);
    ShiftedSum(low, n, 1);
    assert Shifted(rest, 1) == Shifted(Half(rest), 0) == Half(rest);
  }

  lemma {:induction false} MirrorFour(h: bv32, h': bv32, low: bv32, rest: bv32, n: nat)
    requires Mirrored(h, low, rest, n) && Half(Half(Half(Half(h')))) == h
    requires Odd(Half(Half(Half(h')))) == Odd(rest) && Odd(Half(Half(h'))) == Odd(Half(rest))
    requires Odd(Half(h')) == Odd(Half(Half(rest))) && Odd(h') == Odd(Half(Half(Half(rest))))
    ensures Mirrored(h', low, Half(Half(Half(Half(rest)))), n + 4)
  {
    hide *;
    MirrorOne(h, Half(Half(Half(h'))), low, rest, n);
    MirrorOne(Half(Half(Half(h'))), Half(Half(h')), low, Half(rest), n + 1);
    MirrorOne(Half(Half(h')), Half(h'), low, Half(Half(rest)), n + 2);
    MirrorOne(Half(h'), h', low, Half(Half(Half(rest))), n + 3);
  }

  /** The constant of crc32LE is the polynomial of crc32c, written from the other end. */
  lemma {:induction false} SamePolynomial()
    ensures LowBits(0xEDB88320, 32) == HighBits(0x04C11DB7, 32)
  {
    hide Mirrored;
    assert Mirrored(0, 0xEDB88320, 0xEDB88320, 0) by { MirroredNone(0xEDB88320); }
    MirrorFour(0x0, 0x0, 0xEDB88320, 0xEDB88320, 0);
    MirrorFour(0x0, 0x4, 0xEDB88320, 0xEDB8832, 4);
    MirrorFour(0x4, 0x4C, 0xEDB88320, 0xEDB883, 8);
    MirrorFour(0x4C, 0x4C1, 0xEDB88320, 0xEDB88, 12);
    MirrorFour(0x4C1, 0x4C11, 0xEDB88320, 0xEDB8, 16);
    MirrorFour(0x4C11, 0x4C11D, 0xEDB88320, 0xEDB, 20);
    MirrorFour(0x4C11D, 0x4C11DB, 0xEDB88320, 0xED, 24);
    MirrorFour(0x4C11DB, 0x4C11DB7, 0xEDB88320, 0xE, 28);
    MirroredAll(0x04C11DB7, 0xEDB88320, 0);
  }

  lemma {:induction false} MirroredNone(low: bv32)
    ensures Mirrored(0, low, low, 0)
  {
  }

  lemma {:induction false} MirroredAll(high: bv32, low: bv32, rest: bv32)
    requires Mirrored(high, low, rest, 32)
    ensures LowBits(low, 32) == HighBits(high, 32)
  {
  }

  // ---------------------------------------------------------------- the swapped register

  lemma {:induction false} SwapXor(a: bv32, b: bv32)
    ensures Swap(Xor(a, b)) == Xor(Swap(a), Swap(b))
  {
  }

  lemma {:induction false} SwapShift(c: bv32)
    ensures Right8(Swap(c)) == Swap(Left8(c)) && Swap(Swap(c)) == c
  {
  }

  lemma {:induction false} SwapIndex(c: bv32, b: bv8)
    ensures Index8(Swap(c), b) == Index32(c, b)
  {
  }

  lemma {:induction false} SwapNext(c: bv32, b: bv8)
    ensures Crc32Next(Swap(c), b) == Swap(Crc32cNext(c, b))
  {
    hide Swap, Xor, Left8, Right8, Index8, Index32, Table32, TableSwapped;
    SwapIndex(c, b);
    SwapShift(c);
    IndexesFit(c, b);
    IndexHalves(Index32(c, b));
    EntrySwapped(Index32(c, b) as nat);
    SwapXor(Table32(Index32(c, b) as nat), Left8(c));
  }

  /** crc32 is crc32c with the bytes of start value and result in reverse, for every start value and message. */
  lemma {:induction false} Crc32IsSwapped(c: bv32, data: seq<bv8>)
    ensures Fold(Crc32Next, c, data) == Swap(Fold(Crc32cNext, Swap(c), data))
    decreases |data|
  {
    hide Swap, Crc32Next, Crc32cNext;
    SwapShift(c);
    if data != [] {
      SwapNext(Swap(c), data[0]);
      Crc32IsSwapped(Crc32Next(c, data[0]), data[1..]);
      SwapShift(Crc32cNext(Swap(c), data[0]));
    }
  }

  // ---------------------------------------------------------------- what the checksums detect

  lemma {:induction false} LastBits()
    ensures HighBits(0x04C11DB7, 32)[31] && HighBits(0x8005, 16)[15] && HighBits(0x07, 8)[7]
  {
  }

  /** Every error within as many consecutive bits as the checksum has changes it, wherever it is and whatever the
      start value: for 32 bits, */
  lemma {:induction false} Crc32cDetects(c: bv32, data: seq<bv8>, other: seq<bv8>, from: nat)
    requires DifferWithin(HighMessage(data), HighMessage(other), from, 32)
    ensures Fold(Crc32cNext, c, data) != Fold(Crc32cNext, c, other)
    ensures Fold(Crc32Next, Swap(c), data) != Fold(Crc32Next, Swap(c), other)
  {
    hide HighBits, Crc32cNext, Crc32Next, Divided, DifferWithin, Swap;
    LastBits();
    BurstDetected(HighBits(0x04C11DB7, 32), HighBits(c, 32), HighMessage(data), HighMessage(other), from);
    Crc32cDivides(c, data);
    Crc32cDivides(c, other);
    Crc32IsSwapped(Swap(c), data);
    Crc32IsSwapped(Swap(c), other);
    SwapShift(c);
    SwapShift(Fold(Crc32cNext, c, data));
    SwapShift(Fold(Crc32cNext, c, other));
  }

  /** for the reflected 32 bits, counted from the lowest bit of each byte, */
  lemma {:induction false} Crc32LEDetects(c: bv32, data: seq<bv8>, other: seq<bv8>, from: nat)
    requires DifferWithin(LowMessage(data), LowMessage(other), from, 32)
    ensures Fold(Crc32LENext, c, data) != Fold(Crc32LENext, c, other)
  {
    hide HighBits, LowBits, Crc32LENext, Divided, DifferWithin;
    LastBits();
    BurstDetected(HighBits(0x04C11DB7, 32), LowBits(c, 32), LowMessage(data), LowMessage(other), from);
    Crc32LEDivides(c, data);
    Crc32LEDivides(c, other);
  }

  /** and for 16 and 8 bits, in the low half or byte of the result. */
  lemma {:induction false} ShortCrcsDetect(c: bv32, data: seq<bv8>, other: seq<bv8>, from: nat)
    ensures DifferWithin(HighMessage(data), HighMessage(other), from, 16)
            ==> Fold(Crc16Next, c, data) & 0xFFFF != Fold(Crc16Next, c, other) & 0xFFFF
    ensures DifferWithin(HighMessage(data), HighMessage(other), from, 8)
            ==> Fold(Crc8Next, c, data) & 0xFF != Fold(Crc8Next, c, other) & 0xFF
  {
    hide HighBits, Crc16Next, Crc8Next, Divided, DifferWithin, Ones;
    LastBits();
    Masks();
    if DifferWithin(HighMessage(data), HighMessage(other), from, 16) {
      BurstDetected(HighBits(0x8005, 16), HighBits(c, 16), HighMessage(data), HighMessage(other), from);
      Crc16Divides(c, data);
      Crc16Divides(c, other);
      HighMask(Fold(Crc16Next, c, data), 0xFFFF, 16);
      HighMask(Fold(Crc16Next, c, other), 0xFFFF, 16);
    }
    if DifferWithin(HighMessage(data), HighMessage(other), from, 8) {
      BurstDetected(HighBits(0x07, 8), HighBits(c, 8), HighMessage(data), HighMessage(other), from);
      Crc8Divides(c, data);
      Crc8Divides(c, other);
      HighMask(Fold(Crc8Next, c, data), 0xFF, 8);
      HighMask(Fold(Crc8Next, c, other), 0xFF, 8);
    }
  }

  // ---------------------------------------------------------------- the loops as the code runs them

  lemma {:induction false} FoldStep(next: (bv32, bv8) -> bv32, c: bv32, data: seq<bv8>, i: nat)
    requires i < |data|
    ensures Fold(next, c, data[i..]) == Fold(next, next(c, data[i]), data[i + 1..])
  {
    assert data[i..][1..] == data[i + 1..];
  }

  lemma {:induction false} FoldEnds(next: (bv32, bv8) -> bv32, c: bv32, data: seq<bv8>)
    ensures Fold(next, c, data[|data|..]) == c && data[0..] == data
  {
  }

  method Crc32c(start: bv32, data: seq<bv8>) returns (crc: bv32)
    ensures crc == Fold(Crc32cNext, start, data)
  {
    hide *;
    crc := start;
    FoldEnds(Crc32cNext, start, data);
    for i := 0 to |data|
      invariant Fold(Crc32cNext, crc, data[i..]) == Fold(Crc32cNext, start, data)
    {
      FoldStep(Crc32cNext, crc, data, i);
      Crc32cNextIs(crc, data[i]);
      crc := Table32(Index32(crc, data[i]) as nat) ^ (crc << 8);
    }
    FoldEnds(Crc32cNext, crc, data);
  }

  lemma {:induction false} Crc32cNextIs(crc: bv32, b: bv8)
    ensures Crc32cNext(crc, b) == Table32(Index32(crc, b) as nat) ^ (crc << 8)
  {
    hide Table32, Index32;
  }

  method Crc32LE(start: bv32, data: seq<bv8>) returns (crc: bv32)
    ensures crc == Fold(Crc32LENext, start, data)
  {
    hide *;
    crc := start;
    FoldEnds(Crc32LENext, start, data);
    for i := 0 to |data|
      invariant Fold(Crc32LENext, crc, data[i..]) == Fold(Crc32LENext, start, data)
    {
      FoldStep(Crc32LENext, crc, data, i);
      Crc32LENextIs(crc, data[i]);
      crc := TableReflected(IndexReflected(crc, data[i]) as nat) ^ (crc >> 8);
    }
    FoldEnds(Crc32LENext, crc, data);
  }

  lemma {:induction false} Crc32LENextIs(crc: bv32, b: bv8)
    ensures Crc32LENext(crc, b) == TableReflected(IndexReflected(crc, b) as nat) ^ (crc >> 8)
  {
    hide TableReflected, IndexReflected;
  }

  method Crc32(start: bv32, data: seq<bv8>) returns (crc: bv32)
    ensures crc == Fold(Crc32Next, start, data)
  {
    hide *;
    crc := start;
    FoldEnds(Crc32Next, start, data);
    for i := 0 to |data|
      invariant Fold(Crc32Next, crc, data[i..]) == Fold(Crc32Next, start, data)
    {
      FoldStep(Crc32Next, crc, data, i);
      Crc32NextIs(crc, data[i]);
      crc := TableSwapped(Index8(crc, data[i]) as nat) ^ (crc >> 8);
    }
    FoldEnds(Crc32Next, crc, data);
  }

  lemma {:induction false} Crc32NextIs(crc: bv32, b: bv8)
    ensures Crc32Next(crc, b) == TableSwapped(Index8(crc, b) as nat) ^ (crc >> 8)
  {
    hide TableSwapped, Index8;
  }

  method Crc16(start: bv32, data: seq<bv8>) returns (crc: bv32)
    ensures crc == Fold(Crc16Next, start, data)
  {
    hide *;
    crc := start;
    FoldEnds(Crc16Next, start, data);
    for i := 0 to |data|
      invariant Fold(Crc16Next, crc, data[i..]) == Fold(Crc16Next, start, data)
    {
      FoldStep(Crc16Next, crc, data, i);
      Crc16NextIs(crc, data[i]);
      crc := (crc << 8) ^ Table16(Index16(crc, data[i]) as nat);
    }
    FoldEnds(Crc16Next, crc, data);
  }

  lemma {:induction false} Crc16NextIs(crc: bv32, b: bv8)
    ensures Crc16Next(crc, b) == (crc << 8) ^ Table16(Index16(crc, b) as nat)
  {
    hide Table16, Index16;
  }

  method Crc8(start: bv32, data: seq<bv8>) returns (crc: bv32)
    ensures crc == Fold(Crc8Next, start, data)
  {
    hide *;
    crc := start;
    FoldEnds(Crc8Next, start, data);
    for i := 0 to |data|
      invariant Fold(Crc8Next, crc, data[i..]) == Fold(Crc8Next, start, data)
    {
      FoldStep(Crc8Next, crc, data, i);
      Crc8NextIs(crc, data[i]);
      crc := Table8(Index8(crc, data[i]) as nat) ^ ((crc << 8) & 0xFF);
    }
    FoldEnds(Crc8Next, crc, data);
  }

  lemma {:induction false} Crc8NextIs(crc: bv32, b: bv8)
    ensures Crc8Next(crc, b) == Table8(Index8(crc, b) as nat) ^ ((crc << 8) & 0xFF)
  {
    hide Table8, Index8;
  }
}
