/** The bytes of the AMF0 format (sections 2.2 to 2.18 of the AMF 0 specification), in plain numbers. */
module AmfWire {
  import opened Basics
  import opened AmfSpec
  import opened AmfCodec
  import opened AmfAccounting

  // ---------------------------------------------------------------- what is printed

  /** A marker, n in two big-endian bytes, then the rest. */
  predicate Short(p: seq<byte>, marker: nat, n: nat, rest: seq<byte>) {
    && |p| == 3 + |rest| && p[0] as nat == marker && p[3..] == rest
    && (n < 0x1_0000 ==> p[1] as nat * 256 + p[2] as nat == n)
  }

  /** A marker, n in four big-endian bytes, then the rest. */
  predicate Long(p: seq<byte>, marker: nat, n: nat, rest: seq<byte>) {
    && |p| == 5 + |rest| && p[0] as nat == marker && p[5..] == rest
    && (n < 0x1_0000_0000 ==>
          p[1] as nat * 0x100_0000 + p[2] as nat * 0x1_0000 + p[3] as nat * 0x100 + p[4] as nat == n)
  }

  lemma {:induction false} ShortIs(marker: byte, n: nat, rest: seq<byte>)
    ensures Short([marker] + (Be16(n) + rest), marker as nat, n, rest)
  {
    if n < 0x1_0000 {
      Be16Exact(n);
    }
  }

  lemma {:induction false} LongIs(marker: byte, n: nat, rest: seq<byte>)
    ensures Long([marker] + (Be32(n) + rest), marker as nat, n, rest)
  {
    if n < 0x1_0000_0000 {
      Be32Exact(n);
    }
  }

  /** Numbers, dates, booleans, references and the types without data. */
  lemma {:induction false} ScalarBytes(o: Amf)
    requires Shaped(o)
    ensures o.body.Number? ==> var b := o.body.bits; Packed(o) == [0x00, b[7], b[6], b[5], b[4], b[3], b[2], b[1], b[0]]
    ensures o.body.Date? ==> var b := o.body.bits; Packed(o) == [0x0B, b[7], b[6], b[5], b[4], b[3], b[2], b[1], b[0], 0, 0]
    ensures o.body.Boolean? ==> Packed(o) == [0x01, o.body.value]
    ensures o.body.Reference? ==> Short(Packed(o), 0x07, o.body.number, [])
    ensures o.body.Bare? ==> Packed(o) == [o.body.marker]
  {
    if o.body.Reference? {
      assert Be16(o.body.number) + [] == Be16(o.body.number);
      ShortIs(0x07, o.body.number, []);
    }
  }

  /** Strings, long strings and XML documents; a string over 65535 bytes is printed as a long one. */
  lemma {:induction false} TextBytes(o: Amf)
    requires Shaped(o)
    ensures o.body.Str? && |o.body.text| <= 0xFFFF ==> Short(Packed(o), 0x02, |o.body.text|, o.body.text)
    ensures o.body.Str? && |o.body.text| > 0xFFFF ==> Long(Packed(o), 0x0C, |o.body.text|, o.body.text)
    ensures o.body.LongStr? ==> Long(Packed(o), 0x0C, |o.body.text|, o.body.text)
    ensures o.body.XmlDoc? ==> Long(Packed(o), 0x0F, |o.body.text|, o.body.text)
  {
    if o.body.Str? || o.body.LongStr? || o.body.XmlDoc? {
      hide Short, Long;
      ShortIs(0x02, |o.body.text|, o.body.text);
      LongIs(0x0C, |o.body.text|, o.body.text);
      LongIs(0x0F, |o.body.text|, o.body.text);
    }
  }

  /** Objects, typed objects, both kinds of array, and the container, which is only its contents. Named members end with
      0, 0, 9; a typed object's class name comes first. */
  lemma {:induction false} HolderBytes(o: Amf)
    requires Shaped(o)
    ensures o.body.Object? ==> Packed(o) == [0x03] + PackedMembers(o.body.contents) + [0, 0, 9]
    ensures o.body.Typed? ==> Short(Packed(o), 0x10, |o.name|, o.name + PackedMembers(o.body.contents) + [0, 0, 9])
    ensures o.body.EcmaArray? ==> Long(Packed(o), 0x08, |o.body.contents|, PackedMembers(o.body.contents) + [0, 0, 9])
    ensures o.body.StrictArray? ==> Long(Packed(o), 0x0A, |o.body.contents|, PackedElements(o.body.contents))
    ensures o.body.Container? ==> Packed(o) == PackedElements(o.body.contents)
  {
    hide PackedMembers, PackedElements, Short, Long;
    match o.body
    case Typed(cs) =>
      var rest := o.name + PackedMembers(cs) + [0, 0, 9];
      ShortIs(0x10, |o.name|, rest);
      assert Be16(|o.name|) + o.name + (PackedMembers(cs) + END_OF_MEMBERS) == Be16(|o.name|) + rest;
    case EcmaArray(cs) => LongIs(0x08, |cs|, PackedMembers(cs) + [0, 0, 9]);
    case StrictArray(cs) => LongIs(0x0A, |cs|, PackedElements(cs));
    case _ =>
  }

  /** A named member is the length of its name in two big-endian bytes, its name, and its value. */
  lemma {:induction false} MemberBytes(cs: seq<Amf>)
    requires AllShaped(cs) && cs != []
    ensures var p, n := PackedMembers(cs), |cs[0].name|;
            && |p| >= 2 + n && (n < 0x1_0000 ==> p[0] as nat * 256 + p[1] as nat == n)
            && p[2..] == cs[0].name + Packed(cs[0]) + PackedMembers(cs[1..])
    ensures PackedElements(cs) == Packed(cs[0]) + PackedElements(cs[1..])
    ensures PackedMembers([]) == [] && PackedElements([]) == []
  {
    hide Packed;
    var n := |cs[0].name|;
    if n < 0x1_0000 {
      Be16Exact(n);
    }
    assert PackedMembers(cs) == Be16(n) + (cs[0].name + (Packed(cs[0]) + PackedMembers(cs[1..])));
  }

  /** The first byte of everything printed but the container. */
  lemma {:induction false} MarkerIs(o: Amf)
    requires Shaped(o) && !o.body.Container?
    ensures |Packed(o)| >= 1
    ensures Packed(o)[0] as nat ==
            match o.body
            case Number(_) => 0x00
            case Boolean(_) => 0x01
            case Str(text) => if |text| > 65535 then 0x0C else 0x02
            case Object(_) => 0x03
            case Reference(_) => 0x07
            case EcmaArray(_) => 0x08
            case StrictArray(_) => 0x0A
            case Date(_) => 0x0B
            case LongStr(_) => 0x0C
            case XmlDoc(_) => 0x0F
            case Typed(_) => 0x10
            case Bare(marker) => marker as nat
  {
    hide PackedMembers, PackedElements;
    ScalarBytes(o);
    TextBytes(o);
    HolderBytes(o);
  }

  // ---------------------------------------------------------------- what is parsed

  /** The n bytes at `start`, or as many of them as there are. */
  function Piece(data: seq<byte>, start: nat, n: nat): seq<byte>
    requires start <= |data|
  {
    data[start..if start + n < |data| then start + n else |data|]
  }

  /** The eight bytes behind position i, last one first; a number that is cut short is zero. */
  function Eight(data: seq<byte>, i: nat): seq<byte> {
    if i + 9 <= |data| then
      [data[i + 8], data[i + 7], data[i + 6], data[i + 5], data[i + 4], data[i + 3], data[i + 2], data[i + 1]]
    else [0, 0, 0, 0, 0, 0, 0, 0]
  }

  lemma {:induction false} ScalarParsed(data: seq<byte>, i: nat, name: seq<byte>)
    requires i < |data|
    ensures data[i] == 0x00 ==> ParseOne(data, i, name) == Some(Parsed(Amf(name, Number(Eight(data, i))), i + 9))
    ensures data[i] == 0x0B ==> ParseOne(data, i, name) == Some(Parsed(Amf(name, Date(Eight(data, i))), i + 11))
    ensures data[i] == 0x01 && i + 2 <= |data| ==>
              ParseOne(data, i, name) == Some(Parsed(Amf(name, Boolean(if data[i + 1] == 0 then 0 else 1)), i + 2))
    ensures data[i] == 0x07 && i + 3 <= |data| ==>
              ParseOne(data, i, name)
              == Some(Parsed(Amf(name, Reference(data[i + 1] as nat * 256 + data[i + 2] as nat)), i + 3))
    ensures data[i] == 0x05 || data[i] == 0x06 || data[i] == 0x0D ==>
              ParseOne(data, i, name) == Some(Parsed(Amf(name, Bare(data[i])), i + 1))
  {
    hide ParseMembers, ParseElements, LongTextAt, Text;
    if data[i] == 0x00 || data[i] == 0x0B {
      assert Double(data, i) == Eight(data, i);
    }
  }

  lemma {:induction false} PieceIs(data: seq<byte>, start: nat, n: nat)
    requires start <= |data|
    ensures Text(data, start, n) == Piece(data, start, n)
  {
    if start + n >= |data| {
      assert data[start..] == data[start..|data|];
    }
  }

  /** A string that runs past the end of the data is cut off there. */
  lemma {:induction false} StringParsed(data: seq<byte>, i: nat, name: seq<byte>)
    requires i + 3 <= |data| && data[i] == 0x02
    ensures var text := Piece(data, i + 3, data[i + 1] as nat * 256 + data[i + 2] as nat);
            ParseOne(data, i, name) == Some(Parsed(Amf(name, Str(text)), i + 3 + |text|))
  {
    hide ParseMembers, ParseElements, Double, LongTextAt, Text, Piece;
    PieceIs(data, i + 3, data[i + 1] as nat * 256 + data[i + 2] as nat);
  }

  /** So is a long string or an XML document; its length has to fit a signed 32-bit number. */
  lemma {:induction false} LongParsed(data: seq<byte>, i: nat, name: seq<byte>)
    requires i + 5 <= |data| && (data[i] == 0x0C || data[i] == 0x0F) && data[i + 1] < 0x80
    ensures var n := data[i + 1] as nat * 0x100_0000 + data[i + 2] as nat * 0x1_0000 + data[i + 3] as nat * 0x100
                     + data[i + 4] as nat;
            i + 5 + n < 0x1_0000_0000 ==>
              var text := Piece(data, i + 5, n);
              ParseOne(data, i, name)
              == Some(Parsed(Amf(name, if data[i] == 0x0C then LongStr(text) else XmlDoc(text)), i + 5 + |text|))
  {
    hide ParseMembers, ParseElements, Double, Text, Piece;
    PieceIs(data, i + 5, data[i + 1] as nat * 0x100_0000 + data[i + 2] as nat * 0x1_0000 + data[i + 3] as nat * 0x100
                         + data[i + 4] as nat);
  }

  /** Holders hand their contents to the member and element loops; what is behind those is skipped as 0, 0, 9. */
  lemma {:induction false} HolderParsed(data: seq<byte>, i: nat, name: seq<byte>)
    requires i < |data| && ParseOne(data, i, name).Some?
    ensures data[i] == 0x03 ==>
              var m := ParseMembers(data, i + 1, true);
              m.Some? && ParseOne(data, i, name) == Some(Parsed(Amf(name, Object(m.value.value)), m.value.next + 3))
    ensures data[i] == 0x08 ==>
              var m := ParseMembers(data, i + 5, true);
              m.Some? && ParseOne(data, i, name) == Some(Parsed(Amf(name, EcmaArray(m.value.value)), m.value.next + 3))
    ensures data[i] == 0x10 && i + 3 <= |data| ==>
              var m, own := ParseMembers(data, i + 1, false), Piece(data, i + 3, data[i + 1] as nat * 256 + data[i + 2] as nat);
              m.Some? && ParseOne(data, i, name) == Some(Parsed(Amf(own, Typed(m.value.value)), m.value.next + 3))
    ensures data[i] == 0x0A && i + 5 <= |data| ==>
              var n := data[i + 1] as nat * 0x100_0000 + data[i + 2] as nat * 0x1_0000 + data[i + 3] as nat * 0x100
                       + data[i + 4] as nat;
              var m := ParseElements(data, i + 5, n);
              m.Some? && ParseOne(data, i, name) == Some(Parsed(Amf(name, StrictArray(m.value.value)), m.value.next))
  {
    hide ParseOne, ParseMembers, ParseElements, Piece;
    if data[i] == 0x03 || data[i] == 0x08 {
      NamedParsed(data, i, name);
    } else if data[i] == 0x10 && i + 3 <= |data| {
      TypedParsed(data, i, name);
    } else if data[i] == 0x0A && i + 5 <= |data| {
      CountedParsed(data, i, name);
    }
  }

  lemma {:induction false} NamedParsed(data: seq<byte>, i: nat, name: seq<byte>)
    requires i < |data| && ParseOne(data, i, name).Some? && (data[i] == 0x03 || data[i] == 0x08)
    ensures var m := ParseMembers(data, if data[i] == 0x03 then i + 1 else i + 5, true);
            && m.Some?
            && ParseOne(data, i, name)
               == Some(Parsed(Amf(name, if data[i] == 0x03 then Object(m.value.value) else EcmaArray(m.value.value)), m.value.next + 3))
  {
    hide ParseMembers, ParseElements, LongTextAt, Double, Text;
  }

  lemma {:induction false} TypedParsed(data: seq<byte>, i: nat, name: seq<byte>)
    requires i + 3 <= |data| && ParseOne(data, i, name).Some? && data[i] == 0x10
    ensures var m, own := ParseMembers(data, i + 1, false), Piece(data, i + 3, data[i + 1] as nat * 256 + data[i + 2] as nat);
            m.Some? && ParseOne(data, i, name) == Some(Parsed(Amf(own, Typed(m.value.value)), m.value.next + 3))
  {
    PieceIs(data, i + 3, data[i + 1] as nat * 256 + data[i + 2] as nat);
    hide ParseMembers, ParseElements, LongTextAt, Double, Text, Piece;
  }

  lemma {:induction false} CountedParsed(data: seq<byte>, i: nat, name: seq<byte>)
    requires i + 5 <= |data| && ParseOne(data, i, name).Some? && data[i] == 0x0A
    ensures var n := data[i + 1] as nat * 0x100_0000 + data[i + 2] as nat * 0x1_0000 + data[i + 3] as nat * 0x100
                     + data[i + 4] as nat;
            var m := ParseElements(data, i + 5, n);
            m.Some? && ParseOne(data, i, name) == Some(Parsed(Amf(name, StrictArray(m.value.value)), m.value.next))
  {
    hide ParseMembers, ParseElements, LongTextAt, Double, Text;
  }

  /** One turn of the member loop: it ends at two zero bytes or with fewer than two bytes left; otherwise a name of the
      length in these two bytes, cut off at the end of the data except in a typed object, and a value. */
  lemma {:induction false} MemberParsed(data: seq<byte>, i: nat, cutOff: bool)
    ensures i + 2 > |data| || (data[i] == 0 && data[i + 1] == 0) ==> ParseMembers(data, i, cutOff) == Some(Parsed([], i))
    ensures i + 2 <= |data| && !(data[i] == 0 && data[i + 1] == 0) && ParseMembers(data, i, cutOff).Some? ==>
              var n := data[i] as nat * 256 + data[i + 1] as nat;
              var name := Piece(data, i + 2, n);
              && (cutOff || i + 2 + n <= |data|) && ParseOne(data, i + 2 + |name|, name).Some?
              && var first := ParseOne(data, i + 2 + |name|, name).value;
                 ParseMembers(data, first.next, cutOff).Some?
                 && var rest := ParseMembers(data, first.next, cutOff).value;
                    ParseMembers(data, i, cutOff) == Some(Parsed([first.value] + rest.value, rest.next))
  {
    hide ParseOne, ParseMembers, Text, Piece;
    if i + 2 > |data| || (data[i] == 0 && data[i + 1] == 0) {
      NoMember(data, i, cutOff);
    } else if ParseMembers(data, i, cutOff).Some? {
      var start, first, rest := MembersUnfold(data, i, cutOff);
      assert MemberName(data, i, cutOff).Some?;
      NameIs(data, i, cutOff);
    }
  }

  lemma {:induction false} NoMember(data: seq<byte>, i: nat, cutOff: bool)
    requires i + 2 > |data| || (data[i] == 0 && data[i + 1] == 0)
    ensures ParseMembers(data, i, cutOff) == Some(Parsed([], i))
  {
    hide ParseOne;
  }

  lemma {:induction false} NameIs(data: seq<byte>, i: nat, cutOff: bool)
    requires i + 2 <= |data| && MemberName(data, i, cutOff).Some?
    ensures var n := data[i] as nat * 256 + data[i + 1] as nat;
            MemberName(data, i, cutOff) == Some(Piece(data, i + 2, n)) && (cutOff || i + 2 + n <= |data|)
  {
    PieceIs(data, i + 2, data[i] as nat * 256 + data[i + 1] as nat);
  }

  /** Everything else is an error that ends the parse: an empty container of the name "error". */
  lemma {:induction false} OthersFail(data: seq<byte>, i: nat, name: seq<byte>)
    requires i < |data|
    requires data[i] == 0x04 || data[i] == 0x09 || data[i] == 0x0E || data[i] >= 0x11
    ensures ParseOne(data, i, name)
            == Some(Parsed(Amf([101, 114, 114, 111, 114], Container([])), |data|))
  {
  }

  /** The members of a strict array are called "arrVal", the objects of the whole data nothing. */
  lemma {:induction false} ElementsNamed(data: seq<byte>, i: nat, n: nat, k: nat)
    requires ParseElements(data, i, n).Some? && k < |ParseElements(data, i, n).value.value|
    ensures |ParseElements(data, i, n).value.value| == n
    ensures var o := ParseElements(data, i, n).value.value[k];
            o.body.Typed? || o.body.Container? || o.name == [97, 114, 114, 86, 97, 108]
    decreases n
  {
    hide ParseOne;
    NameGiven(data, i, ARRAY_VALUE);
    var first := ParseOne(data, i, ARRAY_VALUE).value;
    if n > 1 {
      NoneLeft(data, first.next);
      ElementsNamed(data, first.next, n - 1, if k > 0 then k - 1 else 0);
    } else {
      NoneLeft(data, first.next);
    }
  }

  lemma {:induction false} NoneLeft(data: seq<byte>, i: nat)
    ensures ParseElements(data, i, 0) == Some(Parsed([], i))
  {
  }

  // ---------------------------------------------------------------- what printing does to the object

  /** No string in the tree is longer than 65535 bytes, unless it is a long string already. */
  predicate Narrow(o: Amf)
    decreases o
  {
    match o.body
    case Str(text) => |text| <= 0xFFFF
    case Object(cs) => AllNarrow(cs)
    case Typed(cs) => AllNarrow(cs)
    case EcmaArray(cs) => AllNarrow(cs)
    case StrictArray(cs) => AllNarrow(cs)
    case Container(cs) => AllNarrow(cs)
    case _ => true
  }

  predicate AllNarrow(cs: seq<Amf>)
    decreases cs
  {
    cs == [] || (Narrow(cs[0]) && AllNarrow(cs[1..]))
  }

  /** Printing turns exactly the strings over 65535 bytes into long strings: afterwards there are none, and a tree
      without any stays as it is. */
  lemma {:induction false} WidenedIs(o: Amf)
    ensures Narrow(Widened(o)) && (Widened(o) == o <==> Narrow(o)) && Widened(o).name == o.name
    decreases o, 1
  {
    match o.body
    case Object(cs) => AllWidenedAre(cs);
    case Typed(cs) => AllWidenedAre(cs);
    case EcmaArray(cs) => AllWidenedAre(cs);
    case StrictArray(cs) => AllWidenedAre(cs);
    case Container(cs) => AllWidenedAre(cs);
    case _ =>
  }

  lemma {:induction false} AllWidenedAre(cs: seq<Amf>)
    ensures AllNarrow(AllWidened(cs)) && (AllWidened(cs) == cs <==> AllNarrow(cs))
    decreases cs, 0
  {
    hide Widened, Narrow;
    if cs != [] {
      WidenedIs(cs[0]);
      AllWidenedAre(cs[1..]);
      OneAndRest(Widened(cs[0]), AllWidened(cs[1..]), cs);
    }
  }

  lemma {:induction false} OneAndRest(first: Amf, rest: seq<Amf>, cs: seq<Amf>)
    requires cs != []
    ensures ([first] + rest)[0] == first && ([first] + rest)[1..] == rest
    ensures [first] + rest == cs <==> first == cs[0] && rest == cs[1..]
  {
    assert cs == [cs[0]] + cs[1..];
    assert ([first] + rest)[1..] == rest;
  }
}
