/** Byte accounting of the parser on arbitrary data, and exactly which trees survive a round trip. */
module AmfAccounting {
  import opened Basics
  import opened AmfSpec
  import opened AmfRoundTrip

  /** No container inside (nothing was cut short by the end of the data or an unknown type), and no typed
      object directly among named members, where its class name would hide the member name. */
  predicate Clean(o: Amf)
    decreases o
  {
    match o.body
    case Object(cs) => MembersClean(cs)
    case Typed(cs) => MembersClean(cs)
    case EcmaArray(cs) => MembersClean(cs)
    case StrictArray(cs) => ElementsClean(cs)
    case Container(_) => false
    case _ => true
  }

  predicate MembersClean(cs: seq<Amf>)
    decreases cs
  {
    cs == [] || (Clean(cs[0]) && !cs[0].body.Typed? && MembersClean(cs[1..]))
  }

  predicate ElementsClean(cs: seq<Amf>)
    decreases cs
  {
    cs == [] || (Clean(cs[0]) && ElementsClean(cs[1..]))
  }

  // ---------------------------------------------------------------- accounting

  /** Printing the parsed value takes the bytes parsed, plus the class names the parser did not step over. */
  predicate Balanced(o: Amf, bytes: int) {
    Shaped(o) && |Packed(o)| == bytes + ClassNameBytes(o)
  }

  predicate MembersBalanced(cs: seq<Amf>, bytes: int) {
    AllShaped(cs) && |PackedMembers(cs)| == bytes + AllClassNameBytes(cs)
  }

  predicate ElementsBalanced(cs: seq<Amf>, bytes: int) {
    AllShaped(cs) && |PackedElements(cs)| == bytes + AllClassNameBytes(cs)
  }

  lemma {:induction false} LeafBalanced(data: seq<byte>, i: nat, name: seq<byte>)
    requires ParseOne(data, i, name).Some? && Clean(ParseOne(data, i, name).value.value)
    requires data[i] !in {OBJECT, TYPED_OBJ, ECMA_ARRAY, STRICT_ARRAY}
    ensures i < |data| && Balanced(ParseOne(data, i, name).value.value, ParseOne(data, i, name).value.next - i)
  {
    hide ParseMembers, ParseElements, Text, LongTextAt, Double, Length16;
    if data[i] == STRING {
      LeafText(data, i);
    }
  }

  lemma {:induction false} LeafText(data: seq<byte>, i: nat)
    requires i + 2 < |data|
    ensures |Text(data, i + 3, Length16(data, i + 1))| <= 0xFFFF
  {
  }

  lemma {:induction false} ObjectBalanced(cs: seq<Amf>, bytes: int, name: seq<byte>)
    requires MembersBalanced(cs, bytes)
    ensures Balanced(Amf(name, Object(cs)), bytes + 4)
    ensures Balanced(Amf(name, EcmaArray(cs)), bytes + 8)
    ensures Balanced(Amf(name, Typed(cs)), bytes + 4)
  {
    hide PackedMembers, Be16, Be32;
  }

  lemma {:induction false} StrictBalanced(cs: seq<Amf>, bytes: int, name: seq<byte>)
    requires ElementsBalanced(cs, bytes)
    ensures Balanced(Amf(name, StrictArray(cs)), bytes + 5)
  {
    hide PackedElements, Be32;
  }

  lemma {:induction false} ParseBalanced(data: seq<byte>, i: nat, name: seq<byte>)
    requires ParseOne(data, i, name).Some? && Clean(ParseOne(data, i, name).value.value)
    ensures i < |data| && Balanced(ParseOne(data, i, name).value.value, ParseOne(data, i, name).value.next - i)
    decreases Remaining(data, i), 0, 0
  {
    hide Balanced, MembersBalanced, ElementsBalanced, Text, ParseMembers, ParseElements;
    assert i < |data|;
    var m := data[i];
    if m == OBJECT {
      MembersParseBalanced(data, i + 1, true);
      var r := ParseMembers(data, i + 1, true).value;
      ObjectBalanced(r.value, r.next - (i + 1), name);
    } else if m == TYPED_OBJ {
      MembersParseBalanced(data, i + 1, false);
      var r := ParseMembers(data, i + 1, false).value;
      ObjectBalanced(r.value, r.next - (i + 1), ParseOne(data, i, name).value.value.name);
    } else if m == ECMA_ARRAY {
      MembersParseBalanced(data, i + 5, true);
      var r := ParseMembers(data, i + 5, true).value;
      ObjectBalanced(r.value, r.next - (i + 5), name);
    } else if m == STRICT_ARRAY {
      var n := Length32(data, i + 1).value;
      ElementsParseBalanced(data, i + 5, n);
      var r := ParseElements(data, i + 5, n).value;
      StrictBalanced(r.value, r.next - (i + 5), name);
    } else {
      LeafBalanced(data, i, name);
    }
  }

  lemma {:induction false} MemberJoins(c: Amf, rest: seq<Amf>, a: int, b: int)
    requires Balanced(c, a) && MembersBalanced(rest, b)
    ensures MembersBalanced([c] + rest, |c.name| + 2 + a + b)
  {
    hide Packed, ClassNameBytes, Be16;
    assert ([c] + rest)[1..] == rest;
  }

  lemma {:induction false} ElementJoins(c: Amf, rest: seq<Amf>, a: int, b: int)
    requires Balanced(c, a) && ElementsBalanced(rest, b)
    ensures ElementsBalanced([c] + rest, a + b)
  {
    hide Packed, ClassNameBytes;
    assert ([c] + rest)[1..] == rest;
  }

  lemma {:induction false} CleanJoins(c: Amf, rest: seq<Amf>)
    ensures MembersClean([c] + rest) <==> Clean(c) && !c.body.Typed? && MembersClean(rest)
    ensures ElementsClean([c] + rest) <==> Clean(c) && ElementsClean(rest)
  {
    hide Clean;
    assert ([c] + rest)[1..] == rest;
  }

  /** A clean object carries the name its container gave it, unless it is a typed object. */
  lemma {:induction false} NameKept(data: seq<byte>, i: nat, name: seq<byte>)
    requires ParseOne(data, i, name).Some? && Clean(ParseOne(data, i, name).value.value)
    ensures !ParseOne(data, i, name).value.value.body.Typed? ==> ParseOne(data, i, name).value.value.name == name
  {
    hide ParseMembers, ParseElements, Text, LongTextAt, Double;
  }

  predicate AtEnd(data: seq<byte>, i: nat) {
    i + 1 >= |data| || (data[i] == 0 && data[i + 1] == 0)
  }

  /** One turn of the member loop: the member, and what the loop finds after it. */
  lemma {:induction false} MembersUnfold(data: seq<byte>, i: nat, cutOff: bool)
      returns (start: nat, first: Parsed<Amf>, rest: Parsed<seq<Amf>>)
    requires !AtEnd(data, i) && ParseMembers(data, i, cutOff).Some?
    ensures var name := MemberName(data, i, cutOff);
      && name.Some? && start == i + |name.value| + 2
      && ParseOne(data, start, name.value) == Some(first)
      && ParseMembers(data, first.next, cutOff) == Some(rest)
      && ParseMembers(data, i, cutOff) == Some(Parsed([first.value] + rest.value, rest.next))
    ensures i + 1 < |data| && first.next >= start
  {
    hide ParseOne, Text, Length16;
    var name := MemberName(data, i, cutOff).value;
    start := i + |name| + 2;
    first := ParseOne(data, start, name).value;
    rest := ParseMembers(data, first.next, cutOff).value;
  }

  lemma {:induction false} NoMembersBalanced(data: seq<byte>, i: nat, cutOff: bool)
    requires AtEnd(data, i)
    ensures ParseMembers(data, i, cutOff) == Some(Parsed([], i)) && MembersBalanced([], 0)
  {
    hide ParseOne, MemberName;
  }

  lemma {:induction false} MembersParseBalanced(data: seq<byte>, i: nat, cutOff: bool)
    requires ParseMembers(data, i, cutOff).Some? && MembersClean(ParseMembers(data, i, cutOff).value.value)
    ensures MembersBalanced(ParseMembers(data, i, cutOff).value.value, ParseMembers(data, i, cutOff).value.next - i)
    decreases Remaining(data, i), 1, 0
  {
    hide *;
    if AtEnd(data, i) {
      NoMembersBalanced(data, i, cutOff);
    } else {
      var start, first, rest := MembersUnfold(data, i, cutOff);
      var name := MemberName(data, i, cutOff).value;
      CleanJoins(first.value, rest.value);
      NameKept(data, start, name);
      RemainingFalls(data, i, start, first.next);
      ParseBalanced(data, start, name);
      MembersParseBalanced(data, first.next, cutOff);
      MemberJoins(first.value, rest.value, first.next - start, rest.next - first.next);
    }
  }

  lemma {:induction false} RemainingFalls(data: seq<byte>, i: nat, j: nat, k: nat)
    requires i < |data| && i < j <= k
    ensures Remaining(data, j) < Remaining(data, i) && Remaining(data, k) < Remaining(data, i)
  {
  }

  lemma {:induction false} ElementsParseBalanced(data: seq<byte>, i: nat, n: nat)
    requires ParseElements(data, i, n).Some? && ElementsClean(ParseElements(data, i, n).value.value)
    ensures ElementsBalanced(ParseElements(data, i, n).value.value, ParseElements(data, i, n).value.next - i)
    decreases Remaining(data, i), 1, n
  {
    hide ParseOne, Balanced, Packed;
    if n > 0 {
      hide ElementsBalanced, ElementsClean;
      var first := ParseOne(data, i, ARRAY_VALUE).value;
      var rest := ParseElements(data, first.next, n - 1).value;
      CleanJoins(first.value, rest.value);
      ParseBalanced(data, i, ARRAY_VALUE);
      ElementsParseBalanced(data, first.next, n - 1);
      ElementJoins(first.value, rest.value, first.next - i, rest.next - first.next);
    }
  }

  lemma {:induction false} ParseAllBalanced(data: seq<byte>, i: nat)
    requires ParseAll(data, i).Some? && ElementsClean(ParseAll(data, i).value.value)
    ensures ElementsBalanced(ParseAll(data, i).value.value, ParseAll(data, i).value.next - i)
    ensures ParseAll(data, i).value.next >= |data|
    decreases Remaining(data, i)
  {
    hide ParseOne, Balanced, Packed;
    if i < |data| {
      hide ElementsBalanced, ElementsClean;
      var first := ParseOne(data, i, []).value;
      var rest := ParseAll(data, first.next).value;
      CleanJoins(first.value, rest.value);
      ParseBalanced(data, i, []);
      ParseAllBalanced(data, first.next);
      ElementJoins(first.value, rest.value, first.next - i, rest.next - first.next);
    }
  }

  // ---------------------------------------------------------------- the normal form keeps the size

  predicate SameSize(a: Amf, b: Amf) {
    Shaped(a) && Shaped(b) && |Packed(a)| == |Packed(b)| && ClassNameBytes(a) == ClassNameBytes(b)
  }

  predicate SameMembersSize(a: seq<Amf>, b: seq<Amf>) {
    && AllShaped(a) && AllShaped(b) && |a| == |b|
    && |PackedMembers(a)| == |PackedMembers(b)| && AllClassNameBytes(a) == AllClassNameBytes(b)
  }

  predicate SameElementsSize(a: seq<Amf>, b: seq<Amf>) {
    && AllShaped(a) && AllShaped(b) && |a| == |b|
    && |PackedElements(a)| == |PackedElements(b)| && AllClassNameBytes(a) == AllClassNameBytes(b)
  }

  lemma {:induction false} NormalSize(o: Amf, name: seq<byte>)
    requires Printable(o)
    ensures SameSize(o, Normal(o, name))
    decreases o, 1
  {
    hide PackedMembers, PackedElements, NormalMembers, NormalElements, AllShaped, AllClassNameBytes;
    match o.body
    case Object(cs) => NormalMembersSize(cs);
    case Typed(cs) => NormalMembersSize(cs);
    case EcmaArray(cs) => NormalMembersSize(cs);
    case StrictArray(cs) => NormalElementsSize(cs, ARRAY_VALUE);
    case _ =>
  }

  lemma {:induction false} NormalMembersSize(cs: seq<Amf>)
    requires PrintableMembers(cs)
    ensures SameMembersSize(cs, NormalMembers(cs))
    decreases cs, 0
  {
    hide Packed, Normal, Printable, Shaped, ClassNameBytes;
    if cs != [] {
      NormalSize(cs[0], cs[0].name);
      NormalMembersSize(cs[1..]);
      NormalNames(cs[0]);
      assert NormalMembers(cs)[1..] == NormalMembers(cs[1..]);
    }
  }

  lemma {:induction false} NormalNames(c: Amf)
    ensures Normal(c, c.name).name == c.name
  {
    hide NormalMembers, NormalElements;
  }

  lemma {:induction false} NormalElementsSize(cs: seq<Amf>, name: seq<byte>)
    requires PrintableElements(cs)
    ensures SameElementsSize(cs, NormalElements(cs, name))
    decreases cs, 0
  {
    hide Packed, Normal, Printable, Shaped, ClassNameBytes;
    if cs != [] {
      NormalSize(cs[0], name);
      NormalElementsSize(cs[1..], name);
      assert NormalElements(cs, name)[1..] == NormalElements(cs[1..], name);
    }
  }

  /** Cleanness of a tree and of its normal form is the same. */
  lemma {:induction false} NormalClean(o: Amf, name: seq<byte>)
    ensures Clean(Normal(o, name)) <==> Clean(o)
    decreases o, 1
  {
    match o.body
    case Object(cs) => NormalMembersClean(cs);
    case Typed(cs) => NormalMembersClean(cs);
    case EcmaArray(cs) => NormalMembersClean(cs);
    case StrictArray(cs) => NormalElementsClean(cs, ARRAY_VALUE);
    case _ =>
  }

  lemma {:induction false} NormalMembersClean(cs: seq<Amf>)
    ensures MembersClean(NormalMembers(cs)) <==> MembersClean(cs)
    decreases cs, 0
  {
    if cs != [] {
      NormalClean(cs[0], cs[0].name);
      NormalMembersClean(cs[1..]);
      assert NormalMembers(cs)[1..] == NormalMembers(cs[1..]);
      assert Normal(cs[0], cs[0].name).body.Typed? <==> cs[0].body.Typed?;
    }
  }

  lemma {:induction false} NormalElementsClean(cs: seq<Amf>, name: seq<byte>)
    ensures ElementsClean(NormalElements(cs, name)) <==> ElementsClean(cs)
    decreases cs, 0
  {
    if cs != [] {
      NormalClean(cs[0], name);
      NormalElementsClean(cs[1..], name);
      assert NormalElements(cs, name)[1..] == NormalElements(cs[1..], name);
    }
  }

  lemma {:induction false} TypedHasBytes(o: Amf)
    ensures HasTyped(o) ==> ClassNameBytes(o) > 0
    decreases o, 1
  {
    match o.body
    case Object(cs) => AnyTypedHasBytes(cs);
    case EcmaArray(cs) => AnyTypedHasBytes(cs);
    case StrictArray(cs) => AnyTypedHasBytes(cs);
    case Container(cs) => AnyTypedHasBytes(cs);
    case _ =>
  }

  lemma {:induction false} AnyTypedHasBytes(cs: seq<Amf>)
    ensures AnyTyped(cs) ==> AllClassNameBytes(cs) > 0
    decreases cs, 0
  {
    if cs != [] {
      TypedHasBytes(cs[0]);
      AnyTypedHasBytes(cs[1..]);
    }
  }

  // ---------------------------------------------------------------- the round trip

  /** parse of a packed container gives the container's objects back, in normal form. */
  predicate RoundTrips(cs: seq<Amf>)
    requires AllShaped(cs)
  {
    ParseAll(PackedElements(cs), 0).Some? && ParseAll(PackedElements(cs), 0).value.value == NormalElements(cs, [])
  }

  lemma {:induction false} AllUndone(data: seq<byte>, i: nat, cs: seq<Amf>)
    requires |data| < TWO_TO_THE_32 && PrintableElements(cs) && !AnyTyped(cs) && AllShaped(cs)
    requires At(data, i, PackedElements(cs)) && i + |PackedElements(cs)| == |data|
    ensures ParseAll(data, i) == Some(Parsed(NormalElements(cs, []), |data|))
    decreases cs
  {
    hide ParseOne, Normal, Packed, Printable;
    if cs != [] {
      PrintableShaped(cs[0]);
      AtSplit(data, i, Packed(cs[0]), PackedElements(cs[1..]));
      ParseUndoesPack(data, i, cs[0], []);
      AllUndone(data, i + |Packed(cs[0])|, cs[1..]);
    }
  }

  /** Every printable tree without typed objects survives, named members and all. */
  lemma {:induction false} UntypedRoundTrips(cs: seq<Amf>)
    requires PrintableElements(cs) && AllShaped(cs) && |PackedElements(cs)| < TWO_TO_THE_32 && !AnyTyped(cs)
    ensures RoundTrips(cs)
  {
    AtStart(PackedElements(cs), []);
    AllUndone(PackedElements(cs), 0, cs);
  }

  /** A parsed object carries the name it was given, unless it is a typed object or an error. */
  lemma {:induction false} NameGiven(data: seq<byte>, i: nat, name: seq<byte>)
    requires ParseOne(data, i, name).Some?
    ensures var o := ParseOne(data, i, name).value.value; o.name == name || o.body.Typed? || o.body.Container?
  {
    hide ParseMembers, ParseElements, Text, LongTextAt, Double, Length16;
  }

  /** The type byte of a printed value; none for the container. */
  function Kind(body: Body): nat {
    match body
    case Number(_) => NUMBER as nat
    case Date(_) => DATE as nat
    case Boolean(_) => BOOL as nat
    case Reference(_) => REFERENCE as nat
    case Str(_) => STRING as nat
    case LongStr(_) => LONGSTRING as nat
    case XmlDoc(_) => XMLDOC as nat
    case Bare(marker) => marker as nat
    case Object(_) => OBJECT as nat
    case Typed(_) => TYPED_OBJ as nat
    case EcmaArray(_) => ECMA_ARRAY as nat
    case StrictArray(_) => STRICT_ARRAY as nat
    case Container(_) => 256
  }

  lemma {:induction false} KindParsed(data: seq<byte>, i: nat, name: seq<byte>)
    requires ParseOne(data, i, name).Some?
    ensures var o := ParseOne(data, i, name).value.value;
            o.body.Container? || (i < |data| && Kind(o.body) == data[i] as nat)
  {
    hide ParseMembers, ParseElements, Text, LongTextAt, Double, Length16;
  }

  /** What the parser takes for the type of a typed object's first member: the high byte of that member's name length,
      or of the end mark. */
  function MistakenKind(cs: seq<Amf>): nat { if cs == [] then 0 else |cs[0].name| / 256 }

  lemma {:induction false} TailStarts(data: seq<byte>, i: nat, cs: seq<Amf>)
    requires AllShaped(cs) && PrintableMembers(cs) && At(data, i, PackedMembers(cs) + END_OF_MEMBERS)
    ensures i < |data| && data[i] as nat == MistakenKind(cs)
  {
    hide Packed, At;
    var tail := PackedMembers(cs) + END_OF_MEMBERS;
    AtFits(data, i, tail);
    AtIndex(data, i, tail, 0);
    assert data[i] == tail[0];
    if cs == [] {
      assert tail == END_OF_MEMBERS;
    } else {
      var n := |cs[0].name|;
      assert n <= 0xFFFF && tail[0] == Be16(n)[0];
      assert Be16(n)[0] as nat == n / 256;
    }
  }

  /** The parser stands at a typed object with a class name: its first member bears that name, and the type that the
      bytes behind the name announce. */
  lemma {:induction false} TypedFirst(data: seq<byte>, i: nat, o: Amf, name: seq<byte>)
    requires Printable(o) && Shaped(o) && o.body.Typed? && o.name != [] && At(data, i, Packed(o))
    requires ParseOne(data, i, name).Some?
    ensures ParseOne(data, i, name).value.value.body.Typed? && ParseOne(data, i, name).value.value.body.contents != []
    ensures (var f := ParseOne(data, i, name).value.value.body.contents[0];
             || f.body.Container?
             || (Kind(f.body) == MistakenKind(o.body.contents) && (f.name == o.name || f.body.Typed?)))
  {
    hide ParseOne, ParseMembers, PackedMembers, MemberName, Kind, MistakenKind;
    var tail := PackedMembers(o.body.contents) + END_OF_MEMBERS;
    AtIndex(data, i, Packed(o), 0);
    assert Be16(|o.name|) + o.name + tail == Be16(|o.name|) + (o.name + tail);
    AtSplit(data, i, [TYPED_OBJ], Be16(|o.name|) + (o.name + tail));
    AtSplit(data, i + 1, Be16(|o.name|), o.name + tail);
    AtSplit(data, i + 3, o.name, tail);
    Length16Found(data, i + 1, |o.name|);
    TypedUnfold(data, i, name);
    TailStarts(data, i + 3 + |o.name|, o.body.contents);
    assert MemberName(data, i + 1, false) == Some(o.name) by { NameFound(data, i + 1, o.name); }
    var start, first, rest := MembersUnfold(data, i + 1, false);
    NameGiven(data, start, o.name);
    KindParsed(data, start, o.name);
  }

  lemma {:induction false} NameFound(data: seq<byte>, i: nat, name: seq<byte>)
    requires i + 1 < |data| && Length16(data, i) == |name| && At(data, i + 2, name)
    ensures MemberName(data, i, false) == Some(name)
  {
  }

  lemma {:induction false} TypedUnfold(data: seq<byte>, i: nat, name: seq<byte>)
    requires i < |data| && data[i] == TYPED_OBJ && ParseOne(data, i, name).Some?
    ensures i + 2 < |data| && ParseMembers(data, i + 1, false).Some?
    ensures ParseOne(data, i, name).value.value.body == Typed(ParseMembers(data, i + 1, false).value.value)
  {
    hide ParseMembers, Text, Length16;
  }

  /** A typed object without a class name seems to have no members. */
  lemma {:induction false} NamelessIsEmpty(data: seq<byte>, i: nat, o: Amf, name: seq<byte>)
    requires Printable(o) && Shaped(o) && o.body.Typed? && o.name == [] && At(data, i, Packed(o))
    requires ParseOne(data, i, name).Some?
    ensures ParseOne(data, i, name).value.value.body == Typed([])
  {
    hide ParseOne, ParseMembers, PackedMembers, MemberName;
    var tail := PackedMembers(o.body.contents) + END_OF_MEMBERS;
    AtIndex(data, i, Packed(o), 0);
    assert Be16(|o.name|) + o.name + tail == Be16(0) + tail;
    AtSplit(data, i, [TYPED_OBJ], Be16(0) + tail);
    AtSplit(data, i + 1, Be16(0), tail);
    AtIndex(data, i + 1, Be16(0), 0);
    AtIndex(data, i + 1, Be16(0), 1);
    TypedUnfold(data, i, name);
    assert AtEnd(data, i + 1);
    NoMembersBalanced(data, i + 1, false);
  }

  /** No coincidence can save this typed object: the first member that the parser finds in it differs from its own, in
      name or in type. For names below 256 bytes it would have to be a number named like the class. */
  predicate LosesFirst(o: Amf)
    requires o.body.Typed?
  {
    var cs := o.body.contents;
    if o.name == [] then cs != []
    else cs == [] || Kind(Normal(cs[0], cs[0].name).body) != MistakenKind(cs)
         || (cs[0].name != o.name && !cs[0].body.Typed?)
  }

  /** Wherever such a typed object stands, and whatever follows it, it does not come back. */
  lemma {:induction false} TypedIsLost(data: seq<byte>, i: nat, o: Amf, name: seq<byte>)
    requires Printable(o) && Shaped(o) && o.body.Typed? && LosesFirst(o) && At(data, i, Packed(o))
    ensures ParseOne(data, i, name).None? || ParseOne(data, i, name).value.value != Normal(o, name)
  {
    hide ParseOne, Kind, MistakenKind;
    var cs := o.body.contents;
    if ParseOne(data, i, name).Some? {
      if o.name == [] {
        NamelessIsEmpty(data, i, o, name);
      } else {
        TypedFirst(data, i, o, name);
        if cs != [] {
          NormalNames(cs[0]);
          assert Printable(cs[0]) && !cs[0].body.Container?;
        }
      }
    }
  }

  // ---------------------------------------------------------------- whole trees with such an object

  /** The first typed object, in the order of printing, is one that no coincidence can save. */
  predicate LosesTyped(o: Amf)
    decreases o
  {
    match o.body
    case Object(cs) => LosesOne(cs)
    case Typed(_) => LosesFirst(o)
    case EcmaArray(cs) => LosesOne(cs)
    case StrictArray(cs) => LosesOne(cs)
    case _ => false
  }

  predicate LosesOne(cs: seq<Amf>)
    decreases cs
  {
    cs != [] && if HasTyped(cs[0]) then LosesTyped(cs[0]) else LosesOne(cs[1..])
  }

  lemma {:induction false} ValueIsLost(data: seq<byte>, i: nat, o: Amf, name: seq<byte>)
    requires |data| < TWO_TO_THE_32 && Printable(o) && Shaped(o) && LosesTyped(o) && At(data, i, Packed(o))
    ensures ParseOne(data, i, name).None? || ParseOne(data, i, name).value.value != Normal(o, name)
    decreases o, 1
  {
    match o.body
    case Typed(_) => TypedIsLost(data, i, o, name);
    case Object(_) => ObjectIsLost(data, i, o, name);
    case EcmaArray(_) => EcmaIsLost(data, i, o, name);
    case StrictArray(_) => StrictIsLost(data, i, o, name);
    case _ =>
  }

  lemma {:induction false} ObjectIsLost(data: seq<byte>, i: nat, o: Amf, name: seq<byte>)
    requires |data| < TWO_TO_THE_32 && Printable(o) && Shaped(o) && LosesTyped(o) && At(data, i, Packed(o))
    requires o.body.Object?
    ensures ParseOne(data, i, name).None? || ParseOne(data, i, name).value.value != Normal(o, name)
    decreases o, 0
  {
    hide ParseMembers, NormalMembers, PackedMembers, Text;
    var cs := o.body.contents;
    AtIndex(data, i, Packed(o), 0);
    AtSplit(data, i, [OBJECT], PackedMembers(cs) + END_OF_MEMBERS);
    MembersAreLost(data, i + 1, cs);
  }

  lemma {:induction false} EcmaIsLost(data: seq<byte>, i: nat, o: Amf, name: seq<byte>)
    requires |data| < TWO_TO_THE_32 && Printable(o) && Shaped(o) && LosesTyped(o) && At(data, i, Packed(o))
    requires o.body.EcmaArray?
    ensures ParseOne(data, i, name).None? || ParseOne(data, i, name).value.value != Normal(o, name)
    decreases o, 0
  {
    hide ParseMembers, NormalMembers, PackedMembers, Text;
    var cs := o.body.contents;
    AtIndex(data, i, Packed(o), 0);
    AtSplit(data, i, [ECMA_ARRAY], Be32(|cs|) + (PackedMembers(cs) + END_OF_MEMBERS));
    AtSplit(data, i + 1, Be32(|cs|), PackedMembers(cs) + END_OF_MEMBERS);
    MembersAreLost(data, i + 5, cs);
  }

  lemma {:induction false} StrictIsLost(data: seq<byte>, i: nat, o: Amf, name: seq<byte>)
    requires |data| < TWO_TO_THE_32 && Printable(o) && Shaped(o) && LosesTyped(o) && At(data, i, Packed(o))
    requires o.body.StrictArray?
    ensures ParseOne(data, i, name).None? || ParseOne(data, i, name).value.value != Normal(o, name)
    decreases o, 0
  {
    hide ParseElements, NormalElements, PackedElements, Text;
    var cs := o.body.contents;
    AtIndex(data, i, Packed(o), 0);
    AtSplit(data, i, [STRICT_ARRAY], Be32(|cs|) + PackedElements(cs));
    AtSplit(data, i + 1, Be32(|cs|), PackedElements(cs));
    Length32Found(data, i + 1, |cs|);
    ElementsAreLost(data, i + 5, cs);
  }

  lemma {:induction false} MembersAreLost(data: seq<byte>, i: nat, cs: seq<Amf>)
    requires |data| < TWO_TO_THE_32 && PrintableMembers(cs) && AllShaped(cs) && LosesOne(cs)
    requires At(data, i, PackedMembers(cs) + END_OF_MEMBERS)
    ensures ParseMembers(data, i, true).None? || ParseMembers(data, i, true).value.value != NormalMembers(cs)
    decreases cs, 0
  {
    hide ParseOne, ParseMembers, Normal, Packed, PackedMembers, At, Be16, Text, Length16;
    var c := cs[0];
    MembersLayout(data, i, cs);
    Length16Found(data, i, |c.name|);
    TextFound(data, i + 2, c.name);
    if ParseMembers(data, i, true).Some? {
      assert !AtEnd(data, i) by { NameIsThere(data, i, c.name); }
      var start, first, rest := MembersUnfold(data, i, true);
      if HasTyped(c) {
        ValueIsLost(data, start, c, c.name);
      } else {
        ParseUndoesPack(data, start, c, c.name);
        MembersAreLost(data, first.next, cs[1..]);
      }
      assert ([first.value] + rest.value)[0] == first.value && ([first.value] + rest.value)[1..] == rest.value;
      assert NormalMembers(cs)[0] == Normal(c, c.name) && NormalMembers(cs)[1..] == NormalMembers(cs[1..]);
    }
  }

  lemma {:induction false} NameIsThere(data: seq<byte>, i: nat, name: seq<byte>)
    requires i + 1 < |data| && Length16(data, i) == |name| && name != []
    ensures !AtEnd(data, i)
  {
  }

  lemma {:induction false} ElementsAreLost(data: seq<byte>, i: nat, cs: seq<Amf>)
    requires |data| < TWO_TO_THE_32 && PrintableElements(cs) && AllShaped(cs) && LosesOne(cs)
    requires At(data, i, PackedElements(cs))
    ensures ParseElements(data, i, |cs|).None?
            || ParseElements(data, i, |cs|).value.value != NormalElements(cs, ARRAY_VALUE)
    decreases cs, 0
  {
    hide ParseOne, Normal, Packed;
    var mid := i + |Packed(cs[0])|;
    AtSplit(data, i, Packed(cs[0]), PackedElements(cs[1..]));
    if HasTyped(cs[0]) {
      ValueIsLost(data, i, cs[0], ARRAY_VALUE);
    } else {
      ParseUndoesPack(data, i, cs[0], ARRAY_VALUE);
      ElementsAreLost(data, mid, cs[1..]);
    }
    assert NormalElements(cs, ARRAY_VALUE)[1..] == NormalElements(cs[1..], ARRAY_VALUE);
  }

  lemma {:induction false} TreeIsLost(data: seq<byte>, i: nat, cs: seq<Amf>)
    requires |data| < TWO_TO_THE_32 && PrintableElements(cs) && AllShaped(cs) && LosesOne(cs)
    requires At(data, i, PackedElements(cs))
    ensures ParseAll(data, i).None? || ParseAll(data, i).value.value != NormalElements(cs, [])
    decreases cs
  {
    hide ParseOne, Normal, Packed;
    PrintableShaped(cs[0]);
    AtSplit(data, i, Packed(cs[0]), PackedElements(cs[1..]));
    if HasTyped(cs[0]) {
      ValueIsLost(data, i, cs[0], []);
    } else {
      ParseUndoesPack(data, i, cs[0], []);
      TreeIsLost(data, i + |Packed(cs[0])|, cs[1..]);
    }
    assert NormalElements(cs, [])[1..] == NormalElements(cs[1..], []);
  }

  // ---------------------------------------------------------------- which trees survive

  /** No named member is a typed object, or the first typed object cannot be saved by a coincidence. */
  predicate Decided(cs: seq<Amf>) { ElementsClean(cs) || !AnyTyped(cs) || LosesOne(cs) }

  /** Exactly the trees without any typed object survive printing and parsing: the parser reads a class name but never
      steps over it. */
  lemma {:induction false} RoundTripIff(cs: seq<Amf>)
    requires PrintableElements(cs) && Decided(cs) && AllShaped(cs) && |PackedElements(cs)| < TWO_TO_THE_32
    ensures RoundTrips(cs) <==> !AnyTyped(cs)
  {
    hide ParseAll, Packed, PackedElements, NormalElements, Printable, ElementsClean, AnyTyped, LosesOne;
    var data := PackedElements(cs);
    AtStart(data, []);
    if !AnyTyped(cs) {
      AllUndone(data, 0, cs);
    } else if ElementsClean(cs) {
      AnyTypedHasBytes(cs);
      NormalElementsSize(cs, []);
      NormalElementsClean(cs, []);
      if RoundTrips(cs) {
        ParseAllBalanced(data, 0);
      }
    } else {
      TreeIsLost(data, 0, cs);
    }
  }
}
