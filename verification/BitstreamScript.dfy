/** Scripts of writes, and the matching scripts of reads. */
module BitstreamScript {
  import opened Basics
  import opened EbmlInt
  import opened BitstreamBits
  import opened BitstreamGolomb
  import opened BitstreamReader
  import opened Bitstream

  datatype Item = Raw(value: nat, length: nat) | Unsigned(value: nat) | Signed(number: int)

  /** What a reader has to know to read an item. */
  datatype Kind = RawKind(length: nat) | UnsignedKind | SignedKind

  function KindOf(item: Item): Kind {
    match item
    case Raw(_, n) => RawKind(n)
    case Unsigned(_) => UnsignedKind
    case Signed(_) => SignedKind
  }

  function Meant(item: Item): int {
    match item
    case Raw(v, _) => v
    case Unsigned(v) => v
    case Signed(v) => v
  }

  const LARGEST_UNSIGNED: nat := 0x1_FFFF_FFFE
  const LARGEST_SIGNED: int := 0xFFFF_FFFF

  /** Items that fit the writer's window at every bit alignment. */
  predicate Fits(item: Item) {
    match item
    case Raw(v, n) => 1 <= n <= 64 && v < Pow2(n)
    case Unsigned(v) => v <= LARGEST_UNSIGNED
    case Signed(v) => -LARGEST_SIGNED <= v <= LARGEST_SIGNED
  }

  function ItemBits(item: Item): seq<bool> {
    match item
    case Raw(v, n) => BitsOf(v, n)
    case Unsigned(v) => Code(v)
    case Signed(v) => Code(Folded(v))
  }

  function ScriptBits(items: seq<Item>): seq<bool> {
    if items == [] then [] else ItemBits(items[0]) + ScriptBits(items[1..])
  }

  function ItemRead(kind: Kind, rest: seq<bool>): int {
    match kind
    case RawKind(n) => Peeked(rest, n)
    case UnsignedKind => UnsignedOf(GolombPeeked(rest))
    case SignedKind => SignedOf(GolombPeeked(rest))
  }

  function AfterItem(kind: Kind, rest: seq<bool>): seq<bool> {
    match kind
    case RawKind(n) => if n <= |rest| then rest[n..] else rest
    case _ => AfterGolomb(rest)
  }

  function Kinds(items: seq<Item>): (r: seq<Kind>)
    ensures |r| == |items|
  {
    if items == [] then [] else [KindOf(items[0])] + Kinds(items[1..])
  }

  function AllMeant(items: seq<Item>): (r: seq<int>)
    ensures |r| == |items|
  {
    if items == [] then [] else [Meant(items[0])] + AllMeant(items[1..])
  }

  predicate AllFit(items: seq<Item>) {
    items == [] || (Fits(items[0]) && AllFit(items[1..]))
  }

  function AllRead(kinds: seq<Kind>, rest: seq<bool>): seq<int> {
    if kinds == [] then [] else [ItemRead(kinds[0], rest)] + AllRead(kinds[1..], AfterItem(kinds[0], rest))
  }

  function AfterAll(kinds: seq<Kind>, rest: seq<bool>): seq<bool> {
    if kinds == [] then rest else AfterAll(kinds[1..], AfterItem(kinds[0], rest))
  }

  // ---------------------------------------------------------------- one item

  lemma {:induction false} CodeSmall(v: nat)
    requires v <= LARGEST_UNSIGNED
    ensures Digits(v + 1) <= 33
  {
    hide Digits, Pow2;
    SmallPowers();
    DigitsIff(v + 1, 33);
  }

  /** A code fits the writer's 72-bit window at the worst alignment, and so at all, exactly up to this value. */
  lemma {:induction false} CodeFitsIff(v: nat)
    requires v < UNKNOWN
    ensures 7 + |Code(v)| <= 72 <==> v <= LARGEST_UNSIGNED
  {
    hide Digits, Pow2, Code;
    CodeShape(v);
    SmallPowers();
    DigitsIff(v + 1, 33);
  }

  lemma {:induction false} RawReads(v: nat, n: nat, tail: seq<bool>)
    requires 1 <= n <= 64 && v < Pow2(n)
    ensures Peeked(BitsOf(v, n) + tail, n) == v
  {
    hide BitsOf, Value, Pow2;
    ValueOfBits(v, n);
    SmallPowers();
    PowGrows(n, 64);
    assert (BitsOf(v, n) + tail)[..n] == BitsOf(v, n);
  }

  lemma {:induction false} ItemReads(item: Item, tail: seq<bool>)
    requires Fits(item)
    ensures ItemRead(KindOf(item), ItemBits(item) + tail) == Meant(item)
    ensures AfterItem(KindOf(item), ItemBits(item) + tail) == tail
  {
    hide BitsOf, Code, GolombPeeked, AfterGolomb, Peeked, Pow2;
    match item
    case Raw(v, n) =>
      RawReads(v, n, tail);
    case Unsigned(v) =>
      CodeReads(v, tail);
    case Signed(v) =>
      CodeReads(Folded(v), tail);
      SignedUnfolds(v);
  }

  // ---------------------------------------------------------------- whole scripts

  /** Reading with the matching reads gives every value back in order, and stops right behind the last one,
      whatever bits come before (the reader is wherever it is) and after. */
  lemma {:induction false} ScriptReads(items: seq<Item>, tail: seq<bool>)
    requires AllFit(items)
    ensures AllRead(Kinds(items), ScriptBits(items) + tail) == AllMeant(items)
    ensures AfterAll(Kinds(items), ScriptBits(items) + tail) == tail
  {
    hide ItemRead, AfterItem, ItemBits, Fits;
    if items == [] {
      assert [] + tail == tail;
    } else {
      var b, rest := ItemBits(items[0]), ScriptBits(items[1..]);
      assert b + rest + tail == b + (rest + tail);
      ItemReads(items[0], rest + tail);
      ScriptReads(items[1..], tail);
      assert Kinds(items)[1..] == Kinds(items[1..]);
    }
  }

  method WriteItem(w: BitWriter, item: Item)
    requires w.Valid() && Fits(item)
    modifies w
    ensures w.Valid() && w.Contents() == old(w.Contents()) + ItemBits(item)
  {
    hide BitsOf, Code, Pow2, Digits;
    match item
    case Raw(v, n) =>
      RawBound(v, n);
      w.Append(v, n);
    case Unsigned(v) =>
      CodeSmall(v);
      w.AppendUExpGolomb(v);
    case Signed(v) =>
      CodeSmall(Folded(v));
      w.AppendExpGolomb(v);
  }

  lemma {:induction false} RawBound(v: nat, n: nat)
    requires n <= 64 && v < Pow2(n)
    ensures v < TWO_TO_THE_64
  {
    hide Pow2;
    SmallPowers();
    PowGrows(n, 64);
  }

  method WriteScript(w: BitWriter, items: seq<Item>)
    requires w.Valid() && AllFit(items)
    modifies w
    ensures w.Valid() && w.Contents() == old(w.Contents()) + ScriptBits(items)
  {
    hide ItemBits, Fits;
    var i: nat := 0;
    assert items[0..] == items;
    while i < |items|
      invariant i <= |items| && w.Valid() && AllFit(items[i..])
      invariant w.Contents() + ScriptBits(items[i..]) == old(w.Contents()) + ScriptBits(items)
    {
      ghost var was := w.Contents();
      assert items[i..][1..] == items[i + 1..];
      WriteItem(w, items[i]);
      Assoc(was, ItemBits(items[i]), ScriptBits(items[i + 1..]));
      i := i + 1;
    }
    assert w.Contents() + [] == w.Contents();
  }

  method ReadItem(r: BitReader, kind: Kind) returns (v: int)
    modifies r`offset
    ensures v == ItemRead(kind, old(r.Rest())) && r.Rest() == AfterItem(kind, old(r.Rest()))
  {
    match kind
    case RawKind(n) => v := r.Get(n);
    case UnsignedKind => v := r.GetUExpGolomb();
    case SignedKind => v := r.GetExpGolomb();
  }

  method ReadScript(r: BitReader, kinds: seq<Kind>) returns (values: seq<int>)
    modifies r`offset
    ensures values == AllRead(kinds, old(r.Rest())) && r.Rest() == AfterAll(kinds, old(r.Rest()))
  {
    hide ItemRead, AfterItem;
    values := [];
    var i: nat := 0;
    assert kinds[0..] == kinds;
    while i < |kinds|
      invariant i <= |kinds|
      invariant values + AllRead(kinds[i..], r.Rest()) == AllRead(kinds, old(r.Rest()))
      invariant AfterAll(kinds[i..], r.Rest()) == AfterAll(kinds, old(r.Rest()))
    {
      assert kinds[i..][1..] == kinds[i + 1..];
      var v := ReadItem(r, kinds[i]);
      values := values + [v];
      i := i + 1;
    }
  }

  /** The writer's output for two scripts, and where the second one starts. */
  method WriteBoth(lead: seq<Item>, items: seq<Item>) returns (bytes: seq<byte>, start: nat, ghost pad: nat)
    requires AllFit(lead) && AllFit(items)
    ensures start == |ScriptBits(lead)| && Bits(bytes) == [] + ScriptBits(lead) + ScriptBits(items) + Zeros(pad)
  {
    hide ScriptBits, AllFit, Bits, Fits;
    var w := new BitWriter();
    WriteScript(w, lead);
    start := w.bitSize;
    WriteScript(w, items);
    bytes := w.Str();
    pad := 8 * |bytes| - w.bitSize;
  }

  method ReadFrom(bytes: seq<byte>, start: nat, kinds: seq<Kind>) returns (values: seq<int>)
    requires start <= 8 * |bytes|
    ensures |Bits(bytes)| == 8 * |bytes| && values == AllRead(kinds, Bits(bytes)[start..])
  {
    hide Bits, AllRead, AfterAll;
    var r := new BitReader();
    r.Append(bytes);
    FromStart(bytes);
    r.Skip(start);
    values := ReadScript(r, kinds);
  }

  lemma {:induction false} FromStart(bytes: seq<byte>)
    ensures [] + bytes == bytes && Bits(bytes)[0..] == Bits(bytes)
  {
  }

  /** The writer's output, read back by the reader from behind any leading script, of any number of bits. */
  method WriteAndRead(lead: seq<Item>, items: seq<Item>) returns (values: seq<int>)
    requires AllFit(lead) && AllFit(items)
    ensures values == AllMeant(items)
  {
    hide ScriptBits, AllFit, Kinds, AllMeant, AllRead, AfterAll, Bits, Fits;
    ghost var pad: nat;
    var bytes, start;
    bytes, start, pad := WriteBoth(lead, items);
    StreamLayout(bytes, ScriptBits(lead), ScriptBits(items), pad);
    values := ReadFrom(bytes, start, Kinds(items));
    ScriptReads(items, Zeros(pad));
  }

  lemma {:induction false} StreamLayout(bytes: seq<byte>, lead: seq<bool>, script: seq<bool>, pad: nat)
    requires Bits(bytes) == [] + lead + script + Zeros(pad)
    ensures Bits(bytes)[|lead|..] == script + Zeros(pad) && |lead| <= |Bits(bytes)| == 8 * |bytes|
  {
  }
}
