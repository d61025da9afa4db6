/** A tree with typed objects that survives printing and parsing all the same. */
module AmfCoincidence {
  import opened Basics
  import opened AmfSpec
  import opened AmfRoundTrip
  import opened AmfAccounting

  /** Nine bytes whose last two are the length that the parser reads next. */
  const CLASS: seq<byte> := [97, 98, 99, 100, 101, 102, 103, 0, 15]
  const INNER: seq<byte> := [16]

  /** What the parser takes for the number: the name's length and the first seven bytes of the name. */
  const BITS: seq<byte> := [103, 102, 101, 100, 99, 98, 97, 9]

  /** The first member is a number named like the class, which leaves the parser a name too far behind; the name it
      reads next is long enough to catch up, and to skip the second typed object's class name as well. */
  const INNER_OBJECT := Amf(INNER, Typed([Amf(INNER, Bare(NULL))]))
  const SURVIVOR := Amf(CLASS, Typed([Amf(CLASS, Number(BITS)), INNER_OBJECT]))

  // ---------------------------------------------------------------- its bytes

  const INNER_BYTES: seq<byte> := [16, 0, 1, 16, 0, 1, 16, 5, 0, 0, 9]

  const NUMBER_BYTES: seq<byte> := [0, 9, 97, 98, 99, 100, 101, 102, 103]

  lemma {:induction false} NumberPacked()
    ensures Shaped(Amf(CLASS, Number(BITS))) && Packed(Amf(CLASS, Number(BITS))) == NUMBER_BYTES
  {
  }

  lemma {:induction false} NoMembers()
    ensures AllShaped([]) && PackedMembers([]) == []
  {
  }

  lemma {:induction false} MemberPacked(m: Amf, rest: seq<Amf>)
    requires Shaped(m) && AllShaped(rest)
    ensures AllShaped([m] + rest)
    ensures PackedMembers([m] + rest) == Be16(|m.name|) + (m.name + (Packed(m) + PackedMembers(rest)))
  {
    hide Packed, Shaped, Be16;
    assert ([m] + rest)[1..] == rest;
  }

  lemma {:induction false} TypedPacked(name: seq<byte>, cs: seq<Amf>)
    requires AllShaped(cs)
    ensures Shaped(Amf(name, Typed(cs)))
    ensures Packed(Amf(name, Typed(cs))) == [16] + (Be16(|name|) + name + (PackedMembers(cs) + END_OF_MEMBERS))
  {
    hide PackedMembers, AllShaped, Be16;
  }

  lemma {:induction false} InnerPacked()
    ensures Shaped(INNER_OBJECT) && Packed(INNER_OBJECT) == INNER_BYTES
  {
    var m := Amf(INNER, Bare(NULL));
    assert Shaped(m) && Packed(m) == [5];
    hide Packed, Shaped, PackedMembers, AllShaped;
    NoMembers();
    MemberPacked(m, []);
    assert [m] + [] == [m];
    TypedPacked(INNER, [m]);
  }

  lemma {:induction false} SurvivorPacked()
    ensures Shaped(SURVIVOR)
    ensures Packed(SURVIVOR) == [16] + ([0, 9] + CLASS + (([0, 9] + (CLASS + (NUMBER_BYTES
                                + ([0, 1] + (INNER + (INNER_BYTES + [])))))) + END_OF_MEMBERS))
  {
    hide Packed, Shaped, PackedMembers;
    var first := Amf(CLASS, Number(BITS));
    NumberPacked();
    InnerPacked();
    NoMembers();
    MemberPacked(INNER_OBJECT, []);
    assert [INNER_OBJECT] + [] == [INNER_OBJECT];
    MemberPacked(first, [INNER_OBJECT]);
    assert [first] + [INNER_OBJECT] == [first, INNER_OBJECT];
    TypedPacked(CLASS, [first, INNER_OBJECT]);
  }

  // ---------------------------------------------------------------- what the parser sees

  /** The bytes, and the pieces that the parser reads as one. */
  predicate Stream(data: seq<byte>) {
    && |data| == 49
    && data[0] == TYPED_OBJ && data[1] == 0 && data[2] == 9 && data[3..12] == CLASS
    && data[12] == NUMBER && data[13..21] == [9, 97, 98, 99, 100, 101, 102, 103]
    && data[21] == 0 && data[22] == 15
    && data[38] == TYPED_OBJ && data[39] == 0 && data[40] == 1 && data[41..42] == INNER
    && data[42] == NULL && data[43] == 0 && data[44] == 0 && data[46] == 0 && data[47] == 0
  }

  lemma {:induction false} Regroup(c: seq<byte>, n: seq<byte>, i: seq<byte>, t: seq<byte>, e: seq<byte>)
    ensures [16] + ([0, 9] + c + (([0, 9] + (c + (n + ([0, 1] + (i + (t + [])))))) + e))
            == ([16] + ([0, 9] + c)) + (([0, 9] + c) + ((n + ([0, 1] + i)) + (t + e)))
  {
    var inner := [0, 1] + (i + t);
    assert t + [] == t;
    Assoc([0, 1], i, t);
    Assoc(n, [0, 1] + i, t);
    Assoc(n + ([0, 1] + i), t, e);
    Assoc([0, 9], c, n + inner);
    Assoc([0, 9] + c, n + inner, e);
    Assoc([16], [0, 9] + c, ([0, 9] + c) + ((n + inner) + e));
  }

  lemma {:induction false} PiecesAreStream()
    ensures Stream(([16] + ([0, 9] + CLASS))
                   + (([0, 9] + CLASS) + ((NUMBER_BYTES + ([0, 1] + INNER)) + (INNER_BYTES + END_OF_MEMBERS))))
  {
    var a, b := [16] + ([0, 9] + CLASS), [0, 9] + CLASS;
    var c, d := NUMBER_BYTES + ([0, 1] + INNER), INNER_BYTES + END_OF_MEMBERS;
    var data := a + (b + (c + d));
    assert |a| == 12 && |b| == 11 && |c| == 12 && |d| == 14;
    assert forall k :: 0 <= k < 12 ==> data[k] == a[k];
    assert forall k :: 0 <= k < 11 ==> data[12 + k] == b[k];
    assert forall k :: 0 <= k < 14 ==> data[35 + k] == d[k];
    assert data[3..12] == a[3..] == CLASS;
    assert b[1] == 9 && b[2] == 97 && b[3] == 98 && b[4] == 99 && b[5] == 100 && b[6] == 101 && b[7] == 102 && b[8] == 103;
    assert b[1..9] == [9, 97, 98, 99, 100, 101, 102, 103];
    assert data[13..21] == b[1..9] == [9, 97, 98, 99, 100, 101, 102, 103];
    assert data[12] == b[0] && data[21] == b[9] && data[22] == b[10];
    assert data[38] == d[3] && data[39] == d[4] && data[40] == d[5] && data[41] == d[6] && data[42] == d[7];
    assert data[43] == d[8] && data[44] == d[9] && data[46] == d[11] && data[47] == d[12];
    assert data[0] == a[0] && data[1] == a[1] && data[2] == a[2];
  }

  lemma {:induction false} SurvivorIsStream()
    ensures Shaped(SURVIVOR) && Stream(Packed(SURVIVOR))
  {
    hide Packed, Stream;
    SurvivorPacked();
    Regroup(CLASS, NUMBER_BYTES, INNER, INNER_BYTES, END_OF_MEMBERS);
    PiecesAreStream();
  }

  /** One turn of the member loop. */
  lemma {:induction false} MemberRead(data: seq<byte>, i: nat, name: seq<byte>, first: Parsed<Amf>,
                                      rest: Parsed<seq<Amf>>)
    requires !AtEnd(data, i) && MemberName(data, i, false) == Some(name)
    requires ParseOne(data, i + |name| + 2, name) == Some(first) && ParseMembers(data, first.next, false) == Some(rest)
    ensures ParseMembers(data, i, false) == Some(Parsed([first.value] + rest.value, rest.next))
  {
    hide ParseOne, MemberName;
  }

  lemma {:induction false} NullParsed(data: seq<byte>)
    requires Stream(data)
    ensures ParseOne(data, 42, INNER) == Some(Parsed(Amf(INNER, Bare(NULL)), 43))
    ensures ParseMembers(data, 43, false) == Some(Parsed([], 43))
    ensures ParseMembers(data, 46, false) == Some(Parsed([], 46))
  {
  }

  lemma {:induction false} InnerMembersParsed(data: seq<byte>)
    requires Stream(data)
    ensures ParseMembers(data, 39, false) == Some(Parsed([Amf(INNER, Bare(NULL))], 43))
  {
    hide ParseOne, ParseMembers;
    NullParsed(data);
    assert MemberName(data, 39, false) == Some(INNER);
    MemberRead(data, 39, INNER, Parsed(Amf(INNER, Bare(NULL)), 43), Parsed([], 43));
    assert [Amf(INNER, Bare(NULL))] + [] == [Amf(INNER, Bare(NULL))];
  }

  lemma {:induction false} InnerParsed(data: seq<byte>, name: seq<byte>)
    requires Stream(data)
    ensures ParseOne(data, 38, name) == Some(Parsed(INNER_OBJECT, 46))
  {
    hide ParseMembers;
    InnerMembersParsed(data);
    assert Text(data, 41, 1) == INNER;
  }

  lemma {:induction false} LastMemberParsed(data: seq<byte>)
    requires Stream(data)
    ensures ParseMembers(data, 21, false) == Some(Parsed([INNER_OBJECT], 46))
  {
    hide ParseOne, ParseMembers;
    var name := data[23..38];
    assert MemberName(data, 21, false) == Some(name);
    InnerParsed(data, name);
    NullParsed(data);
    MemberRead(data, 21, name, Parsed(INNER_OBJECT, 46), Parsed([], 46));
    assert [INNER_OBJECT] + [] == [INNER_OBJECT];
  }

  lemma {:induction false} NumberParsed(data: seq<byte>)
    requires Stream(data)
    ensures ParseOne(data, 12, CLASS) == Some(Parsed(Amf(CLASS, Number(BITS)), 21))
  {
    hide ParseMembers, ParseElements;
    assert Double(data, 12) == Swap8(data[13..21]);
  }

  lemma {:induction false} MembersParsed(data: seq<byte>)
    requires Stream(data)
    ensures ParseMembers(data, 1, false) == Some(Parsed([Amf(CLASS, Number(BITS)), INNER_OBJECT], 46))
  {
    hide ParseOne, ParseMembers;
    assert MemberName(data, 1, false) == Some(CLASS);
    NumberParsed(data);
    LastMemberParsed(data);
    MemberRead(data, 1, CLASS, Parsed(Amf(CLASS, Number(BITS)), 21), Parsed([INNER_OBJECT], 46));
    assert [Amf(CLASS, Number(BITS))] + [INNER_OBJECT] == [Amf(CLASS, Number(BITS)), INNER_OBJECT];
  }

  lemma {:induction false} SurvivorParsed(data: seq<byte>)
    requires Stream(data)
    ensures ParseAll(data, 0) == Some(Parsed([SURVIVOR], 49))
  {
    hide ParseMembers;
    MembersParsed(data);
    assert Text(data, 3, 9) == CLASS;
    assert ParseOne(data, 0, []) == Some(Parsed(SURVIVOR, 49));
    assert ParseAll(data, 49) == Some(Parsed([], 49));
    assert [SURVIVOR] + [] == [SURVIVOR];
  }

  /** Normal form and printability of one member and the rest. */
  lemma {:induction false} OneMember(m: Amf, rest: seq<Amf>)
    ensures NormalMembers([m] + rest) == [Normal(m, m.name)] + NormalMembers(rest)
    ensures PrintableMembers([m] + rest) <==> 0 < |m.name| <= 0xFFFF && Printable(m) && PrintableMembers(rest)
    ensures NormalMembers([]) == [] && PrintableMembers([])
  {
    hide Normal, Printable;
    assert ([m] + rest)[1..] == rest;
  }

  lemma {:induction false} OnlyElement(m: Amf)
    ensures NormalElements([m], []) == [Normal(m, [])]
    ensures (PrintableElements([m]) <==> Printable(m)) && (HasTyped(m) ==> AnyTyped([m]))
  {
    hide Normal, Printable, HasTyped;
    assert [m][1..] == [];
  }

  lemma {:induction false} InnerAsMeant()
    ensures Normal(INNER_OBJECT, INNER) == INNER_OBJECT && Printable(INNER_OBJECT)
  {
    var m := Amf(INNER, Bare(NULL));
    OneMember(m, []);
    assert [m] + [] == [m];
    hide NormalMembers, PrintableMembers;
    assert Normal(m, INNER) == m && Printable(m);
    assert [m] + NormalMembers([]) == [m];
  }

  lemma {:induction false} SurvivorAsMeant()
    ensures Normal(SURVIVOR, []) == SURVIVOR && Printable(SURVIVOR) && HasTyped(SURVIVOR)
  {
    var first := Amf(CLASS, Number(BITS));
    InnerAsMeant();
    OneMember(INNER_OBJECT, []);
    assert [INNER_OBJECT] + [] == [INNER_OBJECT];
    OneMember(first, [INNER_OBJECT]);
    assert [first] + [INNER_OBJECT] == [first, INNER_OBJECT];
    hide NormalMembers, PrintableMembers;
    assert Normal(first, CLASS) == first && Printable(first);
  }

  lemma {:induction false} SurvivorIsNormal()
    ensures NormalElements([SURVIVOR], []) == [SURVIVOR]
  {
    hide *;
    SurvivorAsMeant();
    OnlyElement(SURVIVOR);
  }

  lemma {:induction false} SurvivorPrintable()
    ensures PrintableElements([SURVIVOR]) && AnyTyped([SURVIVOR])
  {
    hide *;
    SurvivorAsMeant();
    OnlyElement(SURVIVOR);
  }

  /** Typed objects do not always get lost: this tree comes back as it was, so the condition on the tree in the round
      trip theorem cannot be dropped. */
  lemma {:induction false} SomeTypedSurvive()
    ensures AllShaped([SURVIVOR]) && PrintableElements([SURVIVOR]) && AnyTyped([SURVIVOR]) && RoundTrips([SURVIVOR])
  {
    hide Packed, ParseAll, NormalElements, Stream;
    SurvivorIsStream();
    var data := Packed(SURVIVOR);
    SurvivorParsed(data);
    SurvivorIsNormal();
    SurvivorPrintable();
    assert [SURVIVOR][1..] == [] && PackedElements([SURVIVOR]) == data + [] == data;
  }
}
