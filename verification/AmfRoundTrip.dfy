/** What printing and parsing give back. */
module AmfRoundTrip {
  import opened Basics
  import opened AmfSpec

  /** Trees the printer can express: lengths in range, member names not empty, and only types the parser knows. */
  predicate Printable(o: Amf)
    decreases o
  {
    match o.body
    case Number(bits) => |bits| == 8
    case Date(bits) => |bits| == 8
    case Str(text) => |text| < 0x8000_0000
    case LongStr(text) => |text| < 0x8000_0000
    case XmlDoc(text) => |text| < 0x8000_0000
    case Bare(marker) => marker == NULL || marker == UNDEFINED || marker == UNSUPPORTED
    case Object(cs) => PrintableMembers(cs)
    case Typed(cs) => |o.name| <= 0xFFFF && PrintableMembers(cs)
    case EcmaArray(cs) => |cs| < 0x8000_0000 && PrintableMembers(cs)
    case StrictArray(cs) => |cs| < 0x8000_0000 && PrintableElements(cs)
    case Container(_) => false
    case _ => true
  }

  predicate PrintableMembers(cs: seq<Amf>)
    decreases cs
  {
    cs == [] || (0 < |cs[0].name| <= 0xFFFF && Printable(cs[0]) && PrintableMembers(cs[1..]))
  }

  predicate PrintableElements(cs: seq<Amf>)
    decreases cs
  {
    cs == [] || (Printable(cs[0]) && PrintableElements(cs[1..]))
  }

  /** The bytes of class names (with their lengths) that the parser never steps over. */
  function ClassNameBytes(o: Amf): nat
    decreases o
  {
    match o.body
    case Object(cs) => AllClassNameBytes(cs)
    case Typed(cs) => 2 + |o.name| + AllClassNameBytes(cs)
    case EcmaArray(cs) => AllClassNameBytes(cs)
    case StrictArray(cs) => AllClassNameBytes(cs)
    case Container(cs) => AllClassNameBytes(cs)
    case _ => 0
  }

  function AllClassNameBytes(cs: seq<Amf>): nat
    decreases cs
  {
    if cs == [] then 0 else ClassNameBytes(cs[0]) + AllClassNameBytes(cs[1..])
  }

  predicate HasTyped(o: Amf)
    decreases o
  {
    match o.body
    case Object(cs) => AnyTyped(cs)
    case Typed(_) => true
    case EcmaArray(cs) => AnyTyped(cs)
    case StrictArray(cs) => AnyTyped(cs)
    case Container(cs) => AnyTyped(cs)
    case _ => false
  }

  predicate AnyTyped(cs: seq<Amf>)
    decreases cs
  {
    cs != [] && (HasTyped(cs[0]) || AnyTyped(cs[1..]))
  }

  // ---------------------------------------------------------------- normal form

  /** What comes back for o under the name the parser gives it. */
  function Normal(o: Amf, name: seq<byte>): Amf
    decreases o
  {
    match o.body
    case Boolean(value) => Amf(name, Boolean(if value == 0 then 0 else 1))
    case Reference(n) => Amf(name, Reference(n % 0x1_0000))
    case Str(text) => Amf(name, if |text| > 0xFFFF then LongStr(text) else Str(text))
    case Object(cs) => Amf(name, Object(NormalMembers(cs)))
    case Typed(cs) => Amf(o.name, Typed(NormalMembers(cs)))
    case EcmaArray(cs) => Amf(name, EcmaArray(NormalMembers(cs)))
    case StrictArray(cs) => Amf(name, StrictArray(NormalElements(cs, ARRAY_VALUE)))
    case body => Amf(name, body)
  }

  function NormalMembers(cs: seq<Amf>): (r: seq<Amf>)
    ensures |r| == |cs|
    decreases cs
  {
    if cs == [] then [] else [Normal(cs[0], cs[0].name)] + NormalMembers(cs[1..])
  }

  function NormalElements(cs: seq<Amf>, name: seq<byte>): (r: seq<Amf>)
    ensures |r| == |cs|
    decreases cs
  {
    if cs == [] then [] else [Normal(cs[0], name)] + NormalElements(cs[1..], name)
  }

  lemma {:induction false} PrintableShaped(o: Amf)
    requires Printable(o)
    ensures Shaped(o) && |Packed(o)| >= 1
    decreases o, 1
  {
    match o.body
    case Object(cs) => PrintableMembersShaped(cs);
    case Typed(cs) => PrintableMembersShaped(cs);
    case EcmaArray(cs) => PrintableMembersShaped(cs);
    case StrictArray(cs) => PrintableElementsShaped(cs);
    case _ =>
  }

  lemma {:induction false} PrintableMembersShaped(cs: seq<Amf>)
    requires PrintableMembers(cs)
    ensures AllShaped(cs)
    decreases cs, 0
  {
    if cs != [] {
      PrintableShaped(cs[0]);
      PrintableMembersShaped(cs[1..]);
    }
  }

  lemma {:induction false} PrintableElementsShaped(cs: seq<Amf>)
    requires PrintableElements(cs)
    ensures AllShaped(cs)
    decreases cs, 0
  {
    if cs != [] {
      PrintableShaped(cs[0]);
      PrintableElementsShaped(cs[1..]);
    }
  }

  // ---------------------------------------------------------------- parsing undoes printing

  lemma {:induction false} TextFound(data: seq<byte>, i: nat, text: seq<byte>)
    requires At(data, i, text)
    ensures Text(data, i, |text|) == text
  {
  }

  lemma {:induction false} Length16Found(data: seq<byte>, i: nat, n: nat)
    requires n <= 0xFFFF && At(data, i, Be16(n))
    ensures i + 1 < |data| && Length16(data, i) == n
    ensures n > 0 ==> !(data[i] == 0 && data[i + 1] == 0)
  {
    AtIndex(data, i, Be16(n), 0);
    AtIndex(data, i, Be16(n), 1);
    Be16Exact(n);
  }

  lemma {:induction false} Length32Found(data: seq<byte>, i: nat, n: nat)
    requires n < 0x8000_0000 && At(data, i, Be32(n))
    ensures i + 3 < |data| && Length32(data, i) == Some(n)
  {
    AtIndex(data, i, Be32(n), 0);
    AtIndex(data, i, Be32(n), 1);
    AtIndex(data, i, Be32(n), 2);
    AtIndex(data, i, Be32(n), 3);
    Be32Exact(n);
  }

  lemma {:induction false} LongTextFound(data: seq<byte>, i: nat, marker: byte, text: seq<byte>)
    requires |data| < TWO_TO_THE_32 && |text| < 0x8000_0000 && At(data, i, LongText(marker, text))
    ensures data[i] == marker && LongTextAt(data, i) == Some(text)
  {
    AtIndex(data, i, LongText(marker, text), 0);
    AtSplit(data, i, [marker], Be32(|text|) + text);
    AtSplit(data, i + 1, Be32(|text|), text);
    Length32Found(data, i + 1, |text|);
    TextFound(data, i + 5, text);
  }

  lemma {:induction false} DoubleFound(data: seq<byte>, i: nat, bits: seq<byte>)
    requires |bits| == 8 && At(data, i + 1, Swap8(bits))
    ensures Double(data, i) == bits
  {
    assert data[i + 1..i + 9] == Swap8(bits);
    assert Swap8(Swap8(bits)) == bits;
  }

  predicate Leaf(o: Amf) {
    !o.body.Object? && !o.body.Typed? && !o.body.EcmaArray? && !o.body.StrictArray? && !o.body.Container?
  }

  predicate Texty(o: Amf) { o.body.Str? || o.body.LongStr? || o.body.XmlDoc? }

  lemma {:induction false} LongUndone(data: seq<byte>, i: nat, o: Amf, marker: byte, text: seq<byte>, name: seq<byte>)
    requires |data| < TWO_TO_THE_32 && |text| < 0x8000_0000 && At(data, i, LongText(marker, text))
    requires (marker == XMLDOC && o.body == XmlDoc(text)) || (marker == LONGSTRING && o.body == LongStr(text))
             || (marker == LONGSTRING && o.body == Str(text) && |text| > 0xFFFF)
    ensures ParseOne(data, i, name) == Some(Parsed(Normal(o, name), i + |text| + 5))
  {
    hide ParseMembers, ParseElements;
    LongTextFound(data, i, marker, text);
  }

  lemma {:induction false} ShortUndone(data: seq<byte>, i: nat, text: seq<byte>, name: seq<byte>)
    requires |text| <= 0xFFFF && At(data, i, [STRING] + (Be16(|text|) + text))
    ensures ParseOne(data, i, name) == Some(Parsed(Amf(name, Str(text)), i + |text| + 3))
  {
    hide ParseMembers, ParseElements;
    AtIndex(data, i, [STRING] + (Be16(|text|) + text), 0);
    AtSplit(data, i, [STRING], Be16(|text|) + text);
    AtSplit(data, i + 1, Be16(|text|), text);
    Length16Found(data, i + 1, |text|);
    TextFound(data, i + 3, text);
  }

  lemma {:induction false} TextUndone(data: seq<byte>, i: nat, o: Amf, name: seq<byte>)
    requires |data| < TWO_TO_THE_32 && Printable(o) && Texty(o) && At(data, i, Packed(o))
    ensures ParseOne(data, i, name) == Some(Parsed(Normal(o, name), i + |Packed(o)|))
  {
    hide ParseOne, At;
    match o.body
    case Str(text) =>
      if |text| > 0xFFFF {
        LongUndone(data, i, o, LONGSTRING, text, name);
      } else {
        ShortUndone(data, i, text, name);
      }
    case LongStr(text) => LongUndone(data, i, o, LONGSTRING, text, name);
    case XmlDoc(text) => LongUndone(data, i, o, XMLDOC, text, name);
  }

  lemma {:induction false} NumberUndone(data: seq<byte>, i: nat, bits: seq<byte>, name: seq<byte>)
    requires |bits| == 8 && At(data, i, [NUMBER] + Swap8(bits))
    ensures ParseOne(data, i, name) == Some(Parsed(Amf(name, Number(bits)), i + 9))
  {
    hide ParseMembers, ParseElements;
    AtIndex(data, i, [NUMBER] + Swap8(bits), 0);
    AtSplit(data, i, [NUMBER], Swap8(bits));
    DoubleFound(data, i, bits);
  }

  lemma {:induction false} DateUndone(data: seq<byte>, i: nat, bits: seq<byte>, name: seq<byte>)
    requires |bits| == 8 && At(data, i, [DATE] + (Swap8(bits) + [0, 0]))
    ensures ParseOne(data, i, name) == Some(Parsed(Amf(name, Date(bits)), i + 11))
  {
    hide ParseMembers, ParseElements;
    AtIndex(data, i, [DATE] + (Swap8(bits) + [0, 0]), 0);
    AtSplit(data, i, [DATE], Swap8(bits) + [0, 0]);
    AtSplit(data, i + 1, Swap8(bits), [0, 0]);
    DoubleFound(data, i, bits);
  }

  lemma {:induction false} BooleanUndone(data: seq<byte>, i: nat, value: byte, name: seq<byte>)
    requires At(data, i, [BOOL, value])
    ensures ParseOne(data, i, name) == Some(Parsed(Amf(name, Boolean(if value == 0 then 0 else 1)), i + 2))
  {
    hide ParseMembers, ParseElements;
    AtIndex(data, i, [BOOL, value], 0);
    AtIndex(data, i, [BOOL, value], 1);
  }

  lemma {:induction false} ReferenceUndone(data: seq<byte>, i: nat, n: nat, name: seq<byte>)
    requires At(data, i, [REFERENCE] + Be16(n))
    ensures ParseOne(data, i, name) == Some(Parsed(Amf(name, Reference(n % 0x1_0000)), i + 3))
  {
    hide ParseMembers, ParseElements, Be16;
    AtIndex(data, i, [REFERENCE] + Be16(n), 0);
    AtSplit(data, i, [REFERENCE], Be16(n));
    Be16Wraps(n);
    Length16Found(data, i + 1, n % 0x1_0000);
  }

  lemma {:induction false} Be16Wraps(n: nat)
    ensures Be16(n) == Be16(n % 0x1_0000)
  {
    assert n == n / 0x1_0000 * 0x1_0000 + n % 0x1_0000;
    assert n / 0x100 == n / 0x1_0000 * 0x100 + n % 0x1_0000 / 0x100;
  }

  lemma {:induction false} BareUndone(data: seq<byte>, i: nat, marker: byte, name: seq<byte>)
    requires At(data, i, [marker]) && (marker == NULL || marker == UNDEFINED || marker == UNSUPPORTED)
    ensures ParseOne(data, i, name) == Some(Parsed(Amf(name, Bare(marker)), i + 1))
  {
    hide ParseMembers, ParseElements;
    AtIndex(data, i, [marker], 0);
  }

  lemma {:induction false} LeafUndone(data: seq<byte>, i: nat, o: Amf, name: seq<byte>)
    requires Printable(o) && Leaf(o) && !Texty(o) && At(data, i, Packed(o))
    ensures ParseOne(data, i, name) == Some(Parsed(Normal(o, name), i + |Packed(o)|))
  {
    hide ParseOne, At, Be16, Swap8;
    match o.body
    case Number(bits) => NumberUndone(data, i, bits, name);
    case Date(bits) => DateUndone(data, i, bits, name);
    case Boolean(value) => BooleanUndone(data, i, value, name);
    case Reference(n) => ReferenceUndone(data, i, n, name);
    case Bare(marker) => BareUndone(data, i, marker, name);
  }

  // The container cases, given what the loops over the contents return.

  lemma {:induction false} ObjectUndone(data: seq<byte>, i: nat, cs: seq<Amf>, end: nat, o: Amf, name: seq<byte>)
    requires o.body == Object(cs) && i < |data| && data[i] == OBJECT
    requires ParseMembers(data, i + 1, true) == Some(Parsed(NormalMembers(cs), end))
    ensures ParseOne(data, i, name) == Some(Parsed(Normal(o, name), end + 3))
  {
  }

  lemma {:induction false} EcmaUndone(data: seq<byte>, i: nat, cs: seq<Amf>, end: nat, o: Amf, name: seq<byte>)
    requires o.body == EcmaArray(cs) && i < |data| && data[i] == ECMA_ARRAY
    requires ParseMembers(data, i + 5, true) == Some(Parsed(NormalMembers(cs), end))
    ensures ParseOne(data, i, name) == Some(Parsed(Normal(o, name), end + 3))
  {
  }

  lemma {:induction false} StrictUndone(data: seq<byte>, i: nat, cs: seq<Amf>, end: nat, o: Amf, name: seq<byte>)
    requires o.body == StrictArray(cs) && i + 4 < |data| && data[i] == STRICT_ARRAY
    requires Length32(data, i + 1) == Some(|cs|)
    requires ParseElements(data, i + 5, |cs|) == Some(Parsed(NormalElements(cs, ARRAY_VALUE), end))
    ensures ParseOne(data, i, name) == Some(Parsed(Normal(o, name), end))
  {
  }

  lemma {:induction false} MembersLayout(data: seq<byte>, i: nat, cs: seq<Amf>)
    requires cs != [] && AllShaped(cs) && At(data, i, PackedMembers(cs) + END_OF_MEMBERS)
    ensures var c := cs[0];
            && At(data, i, Be16(|c.name|)) && At(data, i + 2, c.name) && At(data, i + 2 + |c.name|, Packed(c))
            && At(data, i + 2 + |c.name| + |Packed(c)|, PackedMembers(cs[1..]) + END_OF_MEMBERS)
    ensures |PackedMembers(cs)| == 2 + |cs[0].name| + |Packed(cs[0])| + |PackedMembers(cs[1..])|
  {
    hide Packed, At;
    var c, rest := cs[0], PackedMembers(cs[1..]);
    FourParts(Be16(|c.name|), c.name, Packed(c), rest, END_OF_MEMBERS);
    AtSplit(data, i, Be16(|c.name|), c.name + (Packed(c) + (rest + END_OF_MEMBERS)));
    AtSplit(data, i + 2, c.name, Packed(c) + (rest + END_OF_MEMBERS));
    AtSplit(data, i + 2 + |c.name|, Packed(c), rest + END_OF_MEMBERS);
  }

  lemma {:induction false} FourParts(a: seq<byte>, b: seq<byte>, c: seq<byte>, d: seq<byte>, e: seq<byte>)
    ensures (a + (b + (c + d))) + e == a + (b + (c + (d + e)))
  {
    assert (a + (b + (c + d))) + e == a + ((b + (c + d)) + e);
    assert (b + (c + d)) + e == b + ((c + d) + e);
    assert (c + d) + e == c + (d + e);
  }

  lemma {:induction false} MemberUndone(data: seq<byte>, i: nat, cs: seq<Amf>, mid: nat, end: nat)
    requires cs != [] && i + 1 < |data| && !(data[i] == 0 && data[i + 1] == 0)
    requires MemberName(data, i, true) == Some(cs[0].name)
    requires ParseOne(data, i + |cs[0].name| + 2, cs[0].name) == Some(Parsed(Normal(cs[0], cs[0].name), mid))
    requires ParseMembers(data, mid, true) == Some(Parsed(NormalMembers(cs[1..]), end))
    ensures ParseMembers(data, i, true) == Some(Parsed(NormalMembers(cs), end))
  {
    hide ParseOne, Normal, MemberName;
  }

  /** The parser stands at a printed value without typed objects: it returns that value's normal form and
      stops right behind it, whatever follows. */
  lemma {:induction false} ParseUndoesPack(data: seq<byte>, i: nat, o: Amf, name: seq<byte>)
    requires |data| < TWO_TO_THE_32 && Printable(o) && !HasTyped(o) && Shaped(o) && At(data, i, Packed(o))
    ensures ParseOne(data, i, name) == Some(Parsed(Normal(o, name), i + |Packed(o)|))
    decreases o, 1
  {
    hide ParseOne, Normal;
    PrintableShaped(o);
    match o.body
    case Object(cs) => ObjectCase(data, i, o, name);
    case EcmaArray(cs) => EcmaCase(data, i, o, name);
    case StrictArray(cs) => StrictCase(data, i, o, name);
    case Str(_) => TextUndone(data, i, o, name);
    case LongStr(_) => TextUndone(data, i, o, name);
    case XmlDoc(_) => TextUndone(data, i, o, name);
    case _ => LeafUndone(data, i, o, name);
  }

  lemma {:induction false} ObjectCase(data: seq<byte>, i: nat, o: Amf, name: seq<byte>)
    requires |data| < TWO_TO_THE_32 && Printable(o) && !HasTyped(o) && Shaped(o) && At(data, i, Packed(o))
    requires o.body.Object?
    ensures ParseOne(data, i, name) == Some(Parsed(Normal(o, name), i + |Packed(o)|))
    decreases o, 0
  {
    hide ParseOne, ParseMembers, ParseElements, Normal, NormalMembers, NormalElements;
    var cs := o.body.contents;
    AtIndex(data, i, Packed(o), 0);
    AtSplit(data, i, [OBJECT], PackedMembers(cs) + END_OF_MEMBERS);
    MembersUndone(data, i + 1, cs);
    ObjectUndone(data, i, cs, i + 1 + |PackedMembers(cs)|, o, name);
  }

  lemma {:induction false} EcmaCase(data: seq<byte>, i: nat, o: Amf, name: seq<byte>)
    requires |data| < TWO_TO_THE_32 && Printable(o) && !HasTyped(o) && Shaped(o) && At(data, i, Packed(o))
    requires o.body.EcmaArray?
    ensures ParseOne(data, i, name) == Some(Parsed(Normal(o, name), i + |Packed(o)|))
    decreases o, 0
  {
    hide ParseOne, ParseMembers, ParseElements, Normal, NormalMembers, NormalElements;
    var cs := o.body.contents;
    AtIndex(data, i, Packed(o), 0);
    AtSplit(data, i, [ECMA_ARRAY], Be32(|cs|) + (PackedMembers(cs) + END_OF_MEMBERS));
    AtSplit(data, i + 1, Be32(|cs|), PackedMembers(cs) + END_OF_MEMBERS);
    MembersUndone(data, i + 5, cs);
    EcmaUndone(data, i, cs, i + 5 + |PackedMembers(cs)|, o, name);
  }

  lemma {:induction false} StrictCase(data: seq<byte>, i: nat, o: Amf, name: seq<byte>)
    requires |data| < TWO_TO_THE_32 && Printable(o) && !HasTyped(o) && Shaped(o) && At(data, i, Packed(o))
    requires o.body.StrictArray?
    ensures ParseOne(data, i, name) == Some(Parsed(Normal(o, name), i + |Packed(o)|))
    decreases o, 0
  {
    hide ParseOne, ParseMembers, ParseElements, Normal, NormalMembers, NormalElements;
    var cs := o.body.contents;
    AtIndex(data, i, Packed(o), 0);
    AtSplit(data, i, [STRICT_ARRAY], Be32(|cs|) + PackedElements(cs));
    AtSplit(data, i + 1, Be32(|cs|), PackedElements(cs));
    Length32Found(data, i + 1, |cs|);
    ElementsUndone(data, i + 5, cs);
    StrictUndone(data, i, cs, i + 5 + |PackedElements(cs)|, o, name);
  }

  lemma {:induction false} EndUndone(data: seq<byte>, i: nat)
    requires At(data, i, END_OF_MEMBERS)
    ensures ParseMembers(data, i, true) == Some(Parsed([], i))
  {
    hide ParseOne;
    AtIndex(data, i, END_OF_MEMBERS, 0);
    AtIndex(data, i, END_OF_MEMBERS, 1);
  }

  lemma {:induction false} MembersUndone(data: seq<byte>, i: nat, cs: seq<Amf>)
    requires |data| < TWO_TO_THE_32 && PrintableMembers(cs) && !AnyTyped(cs) && AllShaped(cs)
    requires At(data, i, PackedMembers(cs) + END_OF_MEMBERS)
    ensures ParseMembers(data, i, true) == Some(Parsed(NormalMembers(cs), i + |PackedMembers(cs)|))
    decreases cs, 0
  {
    hide ParseOne, ParseMembers, Normal, Packed, At, Be16, Text, Length16;
    if cs == [] {
      assert PackedMembers(cs) + END_OF_MEMBERS == END_OF_MEMBERS;
      EndUndone(data, i);
    } else {
      var c := cs[0];
      var start := i + |c.name| + 2;
      var mid := start + |Packed(c)|;
      MembersLayout(data, i, cs);
      Length16Found(data, i, |c.name|);
      TextFound(data, i + 2, c.name);
      ParseUndoesPack(data, start, c, c.name);
      MembersUndone(data, mid, cs[1..]);
      MemberUndone(data, i, cs, mid, mid + |PackedMembers(cs[1..])|);
    }
  }

  lemma {:induction false} ElementsUndone(data: seq<byte>, i: nat, cs: seq<Amf>)
    requires |data| < TWO_TO_THE_32 && PrintableElements(cs) && !AnyTyped(cs) && AllShaped(cs)
    requires At(data, i, PackedElements(cs))
    ensures ParseElements(data, i, |cs|) == Some(Parsed(NormalElements(cs, ARRAY_VALUE), i + |PackedElements(cs)|))
    decreases cs, 0
  {
    hide ParseOne, Normal;
    if cs != [] {
      var mid := i + |Packed(cs[0])|;
      AtSplit(data, i, Packed(cs[0]), PackedElements(cs[1..]));
      ParseUndoesPack(data, i, cs[0], ARRAY_VALUE);
      ElementsUndone(data, mid, cs[1..]);
    }
  }
}
