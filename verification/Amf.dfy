/** The printer and the parser as the code runs them: a growing buffer, and a cursor moved through the data. */
module AmfCodec {
  import opened Basics
  import opened AmfSpec
  import opened AmfRoundTrip
  import opened AmfAccounting

  // ---------------------------------------------------------------- printing

  /** What printing leaves behind: strings too long for a 16-bit length have become long strings. */
  function Widened(o: Amf): Amf
    decreases o
  {
    match o.body
    case Str(text) => Amf(o.name, if |text| > 0xFFFF then LongStr(text) else Str(text))
    case Object(cs) => Amf(o.name, Object(AllWidened(cs)))
    case Typed(cs) => Amf(o.name, Typed(AllWidened(cs)))
    case EcmaArray(cs) => Amf(o.name, EcmaArray(AllWidened(cs)))
    case StrictArray(cs) => Amf(o.name, StrictArray(AllWidened(cs)))
    case Container(cs) => Amf(o.name, Container(AllWidened(cs)))
    case _ => o
  }

  function AllWidened(cs: seq<Amf>): (r: seq<Amf>)
    ensures |r| == |cs|
    decreases cs
  {
    if cs == [] then [] else [Widened(cs[0])] + AllWidened(cs[1..])
  }

  /** Printing changes the object, but not what it prints: a second print gives the same bytes. */
  lemma {:induction false} PrintsTheSameAgain(o: Amf)
    requires Shaped(o)
    ensures Shaped(Widened(o)) && Packed(Widened(o)) == Packed(o) && Widened(Widened(o)) == Widened(o)
    decreases o, 1
  {
    match o.body
    case Object(cs) => AllPrintTheSame(cs);
    case Typed(cs) => AllPrintTheSame(cs);
    case EcmaArray(cs) => AllPrintTheSame(cs);
    case StrictArray(cs) => AllPrintTheSame(cs);
    case Container(cs) => AllPrintTheSame(cs);
    case _ =>
  }

  lemma {:induction false} AllPrintTheSame(cs: seq<Amf>)
    requires AllShaped(cs)
    ensures AllShaped(AllWidened(cs)) && AllWidened(AllWidened(cs)) == AllWidened(cs)
    ensures PackedMembers(AllWidened(cs)) == PackedMembers(cs) && PackedElements(AllWidened(cs)) == PackedElements(cs)
    decreases cs, 0
  {
    hide Packed, Shaped;
    if cs != [] {
      PrintsTheSameAgain(cs[0]);
      AllPrintTheSame(cs[1..]);
      assert AllWidened(cs)[1..] == AllWidened(cs[1..]);
    }
  }

  method PackLength16(r: seq<byte>, n: nat) returns (r': seq<byte>)
    ensures r' == r + Be16(n)
  {
    r' := r + [n / 256 % 256];
    r' := r' + [n % 256];
  }

  method PackLength32(r: seq<byte>, n: nat) returns (r': seq<byte>)
    ensures r' == r + Be32(n)
  {
    r' := r + [n / 0x100_0000 % 256];
    r' := r' + [n / 0x1_0000 % 256];
    r' := r' + [n / 0x100 % 256];
    r' := r' + [n % 256];
  }

  method PackDouble(r: seq<byte>, bits: seq<byte>) returns (r': seq<byte>)
    requires |bits| == 8
    ensures r' == r + Swap8(bits)
  {
    r' := r + [bits[7]] + [bits[6]] + [bits[5]] + [bits[4]];
    r' := r' + [bits[3]] + [bits[2]] + [bits[1]] + [bits[0]];
  }

  lemma {:induction false} NextMember(cs: seq<Amf>, k: nat)
    requires k < |cs| && AllShaped(cs[k..])
    ensures Shaped(cs[k]) && AllShaped(cs[k + 1..])
    ensures PackedMembers(cs[k..])
            == Be16(|cs[k].name|) + (cs[k].name + (Packed(cs[k]) + PackedMembers(cs[k + 1..])))
    ensures AllWidened(cs[k..]) == [Widened(cs[k])] + AllWidened(cs[k + 1..])
  {
    hide Packed, Widened, Shaped, Be16;
    assert cs[k..][1..] == cs[k + 1..];
  }

  lemma {:induction false} FourParts(a: seq<byte>, b: seq<byte>, c: seq<byte>, d: seq<byte>, e: seq<byte>)
    ensures a + b + c + d + e == a + (b + (c + (d + e)))
  {
  }

  method PackMembers(cs: seq<Amf>) returns (r: seq<byte>, after: seq<Amf>)
    requires AllShaped(cs)
    ensures r == PackedMembers(cs) && after == AllWidened(cs)
    decreases cs, 0
  {
    hide Packed, Widened, Shaped, Be16;
    r, after := [], [];
    var k := 0;
    assert cs[0..] == cs;
    while k < |cs|
      invariant k <= |cs| && AllShaped(cs[k..])
      invariant r + PackedMembers(cs[k..]) == PackedMembers(cs)
      invariant after + AllWidened(cs[k..]) == AllWidened(cs)
    {
      ghost var before := r;
      NextMember(cs, k);
      hide PackedMembers, AllWidened, AllShaped;
      r := PackLength16(r, |cs[k].name|);
      r := r + cs[k].name;
      var p, w := Pack(cs[k]);
      FourParts(before, Be16(|cs[k].name|), cs[k].name, p, PackedMembers(cs[k + 1..]));
      r := r + p;
      after := after + [w];
      k := k + 1;
    }
  }

  method PackElements(cs: seq<Amf>) returns (r: seq<byte>, after: seq<Amf>)
    requires AllShaped(cs)
    ensures r == PackedElements(cs) && after == AllWidened(cs)
    decreases cs, 0
  {
    hide Packed, Widened, Shaped;
    r, after := [], [];
    var k := 0;
    while k < |cs|
      invariant k <= |cs| && AllShaped(cs[k..])
      invariant r + PackedElements(cs[k..]) == PackedElements(cs)
      invariant after + AllWidened(cs[k..]) == AllWidened(cs)
    {
      assert cs[k..][1..] == cs[k + 1..];
      var p, w := Pack(cs[k]);
      Assoc(r, p, PackedElements(cs[k + 1..]));
      r := r + p;
      after := after + [w];
      k := k + 1;
    }
  }

  method PackLong(marker: byte, text: seq<byte>) returns (r: seq<byte>)
    ensures r == LongText(marker, text)
  {
    r := [marker];
    r := PackLength32(r, |text|);
    r := r + text;
  }

  /** Object::Pack, which may also change the object's type. */
  method Pack(o: Amf) returns (r: seq<byte>, after: Amf)
    requires Shaped(o)
    ensures r == Packed(o) && after == Widened(o)
    decreases o, 1
  {
    hide PackedMembers, PackedElements, AllWidened, Be16, Be32, Swap8, LongText;
    r, after := [], o;
    match o.body
    case Number(bits) =>
      r := PackDouble([NUMBER], bits);
    case Date(bits) =>
      r := PackDouble([DATE], bits);
      r := r + [0];
      r := r + [0];
    case Boolean(value) =>
      r := [BOOL, value];
    case Reference(n) =>
      r := PackLength16([REFERENCE], n);
    case Str(text) =>
      if |text| > 0xFFFF {
        after := Amf(o.name, LongStr(text));
        r := PackLong(LONGSTRING, text);
      } else {
        r := PackLength16([STRING], |text|);
        r := r + text;
      }
    case LongStr(text) =>
      r := PackLong(LONGSTRING, text);
    case XmlDoc(text) =>
      r := PackLong(XMLDOC, text);
    case Bare(marker) =>
      r := [marker];
    case Object(cs) =>
      var p, w := PackMembers(cs);
      r, after := [OBJECT] + p + END_OF_MEMBERS, Amf(o.name, Object(w));
    case Typed(cs) =>
      r := PackLength16([TYPED_OBJ], |o.name|);
      r := r + o.name;
      var p, w := PackMembers(cs);
      r, after := r + p + END_OF_MEMBERS, Amf(o.name, Typed(w));
    case EcmaArray(cs) =>
      r := PackLength32([ECMA_ARRAY], |cs|);
      var p, w := PackMembers(cs);
      r, after := r + p + END_OF_MEMBERS, Amf(o.name, EcmaArray(w));
    case StrictArray(cs) =>
      r := PackLength32([STRICT_ARRAY], |cs|);
      var p, w := PackElements(cs);
      r, after := r + p, Amf(o.name, StrictArray(w));
    case Container(cs) =>
      var p, w := PackElements(cs);
      r, after := p, Amf(o.name, Container(w));
  }

  // ---------------------------------------------------------------- parsing

  /** What a loop that has already collected `done` returns, when the rest returns r. */
  function After(done: seq<Amf>, r: Option<Parsed<seq<Amf>>>): Option<Parsed<seq<Amf>>> {
    match r
    case None => None
    case Some(p) => Some(Parsed(done + p.value, p.next))
  }

  lemma {:induction false} AfterOne(done: seq<Amf>, first: Amf, r: Option<Parsed<seq<Amf>>>)
    ensures After(done + [first], r) == After(done, After([first], r))
  {
    if r.Some? {
      assert (done + [first]) + r.value.value == done + ([first] + r.value.value);
    }
  }

  lemma {:induction false} AfterNone(done: seq<Amf>, r: Option<Parsed<seq<Amf>>>, i: nat)
    ensures After([], r) == r && After(done, Some(Parsed([], i))) == Some(Parsed(done, i))
  {
    assert done + [] == done;
    if r.Some? {
      assert [] + r.value.value == r.value.value;
    }
  }

  /** Cutting the length first gives the same text as cutting the text. */
  lemma {:induction false} CutText(data: seq<byte>, start: nat, n: nat, m: nat)
    requires start <= |data| && m == (if n + start >= |data| then |data| - start else n)
    ensures Text(data, start, n) == data[start..start + m] && |Text(data, start, n)| == m
  {
  }

  method TakeName(data: seq<byte>, i: nat, cutOff: bool) returns (ok: bool, name: seq<byte>)
    requires i + 1 < |data|
    ensures ok <==> MemberName(data, i, cutOff).Some?
    ensures ok ==> MemberName(data, i, cutOff) == Some(name) && i + |name| + 2 <= |data|
  {
    var n := Length16(data, i);
    if cutOff && n + i + 2 >= |data| {
      n := |data| - i - 2;
    }
    ok, name := n + i + 2 <= |data|, [];
    if ok {
      name := data[i + 2..i + 2 + n];
    }
    if cutOff {
      CutText(data, i + 2, Length16(data, i), n);
    }
  }

  lemma {:induction false} MembersTurn(data: seq<byte>, i: nat, cutOff: bool, name: seq<byte>, first: Amf, next: nat)
    requires !AtEnd(data, i) && MemberName(data, i, cutOff) == Some(name)
    requires ParseOne(data, i + |name| + 2, name) == Some(Parsed(first, next))
    ensures ParseMembers(data, i, cutOff) == After([first], ParseMembers(data, next, cutOff))
  {
    hide ParseOne, MemberName;
  }

  lemma {:induction false} MembersStop(data: seq<byte>, i: nat, cutOff: bool)
    ensures AtEnd(data, i) ==> ParseMembers(data, i, cutOff) == Some(Parsed([], i))
    ensures !AtEnd(data, i) && MemberName(data, i, cutOff).None? ==> ParseMembers(data, i, cutOff).None?
    ensures !AtEnd(data, i) && MemberName(data, i, cutOff).Some?
            && ParseOne(data, i + |MemberName(data, i, cutOff).value| + 2, MemberName(data, i, cutOff).value).None?
            ==> ParseMembers(data, i, cutOff).None?
  {
    hide ParseOne, MemberName;
  }

  /** `while (i + 1 < len && data[i] + data[i + 1] != 0)`: named members up to the end marker.
      ok is false where the code would leave the data or overflow. */
  method TakeMembers(data: seq<byte>, from: nat, cutOff: bool) returns (ok: bool, contents: seq<Amf>, i: nat)
    ensures ok <==> ParseMembers(data, from, cutOff).Some?
    ensures ok ==> ParseMembers(data, from, cutOff) == Some(Parsed(contents, i))
    decreases Remaining(data, from), 1, 0
  {
    hide ParseOne, ParseMembers, MemberName;
    ok, contents, i := true, [], from;
    AfterNone([], ParseMembers(data, from, cutOff), 0);
    while i + 1 < |data| && data[i] as nat + data[i + 1] as nat != 0
      invariant from <= i
      invariant ParseMembers(data, from, cutOff) == After(contents, ParseMembers(data, i, cutOff))
      decreases Remaining(data, i)
    {
      MembersStop(data, i, cutOff);
      var named, name := TakeName(data, i, cutOff);
      if !named {
        return false, contents, i;
      }
      RemainingFalls(data, i, i + 2 + |name|, i + 2 + |name|);
      var taken, first, next := TakeOne(data, i + 2 + |name|, name);
      if !taken {
        return false, contents, i;
      }
      RemainingFalls(data, i, next, next);
      MembersTurn(data, i, cutOff, name, first, next);
      AfterOne(contents, first, ParseMembers(data, next, cutOff));
      contents, i := contents + [first], next;
    }
    MembersStop(data, i, cutOff);
    AfterNone(contents, None, i);
  }

  /** `while (tmpi > 0)`: the elements of a strict array. */
  method TakeElements(data: seq<byte>, from: nat, count: nat) returns (ok: bool, contents: seq<Amf>, i: nat)
    ensures ok <==> ParseElements(data, from, count).Some?
    ensures ok ==> ParseElements(data, from, count) == Some(Parsed(contents, i))
    decreases Remaining(data, from), 1, count
  {
    hide ParseOne;
    ok, contents, i := true, [], from;
    var left: nat := count;
    AfterNone([], ParseElements(data, from, count), 0);
    while left > 0
      invariant from <= i && left <= count
      invariant ParseElements(data, from, count) == After(contents, ParseElements(data, i, left))
      decreases left
    {
      var taken, first, next := TakeOne(data, i, ARRAY_VALUE);
      if !taken {
        return false, contents, i;
      }
      AfterOne(contents, first, ParseElements(data, next, left - 1));
      contents, i := contents + [first], next;
      left := left - 1;
    }
    AfterNone(contents, None, i);
  }

  method TakeDouble(data: seq<byte>, i: nat) returns (bits: seq<byte>)
    ensures bits == Double(data, i)
  {
    if i + 8 < |data| {
      bits := [data[i + 8], data[i + 7], data[i + 6], data[i + 5], data[i + 4], data[i + 3], data[i + 2], data[i + 1]];
    } else {
      bits := ZERO_DOUBLE;
    }
  }

  method TakeLongText(data: seq<byte>, i: nat) returns (ok: bool, text: seq<byte>)
    ensures ok <==> LongTextAt(data, i).Some?
    ensures ok ==> LongTextAt(data, i) == Some(text)
  {
    ok, text := false, [];
    if i + 4 < |data| && data[i + 1] < 0x80 {
      var n := Join32(data[i + 1], data[i + 2], data[i + 3], data[i + 4]);
      if n + i + 5 < TWO_TO_THE_32 {
        if n + i + 5 >= |data| {
          n := |data| - i - 5;
        }
        CutText(data, i + 5, Join32(data[i + 1], data[i + 2], data[i + 3], data[i + 4]), n);
        ok, text := true, data[i + 5..i + 5 + n];
      }
    }
  }

  /** parseOne: the object at position i, and the position after it. */
  method TakeOne(data: seq<byte>, i: nat, name: seq<byte>) returns (ok: bool, o: Amf, next: nat)
    ensures ok <==> ParseOne(data, i, name).Some?
    ensures ok ==> ParseOne(data, i, name) == Some(Parsed(o, next))
    decreases Remaining(data, i), 0, 0
  {
    hide ParseMembers, ParseElements, LongTextAt, Double, Text;
    ok, o, next := true, Amf([], Container([])), i;
    if i >= |data| {
      return;
    }
    var marker := data[i];
    if marker == NUMBER {
      var bits := TakeDouble(data, i);
      o, next := Amf(name, Number(bits)), i + 9;
    } else if marker == DATE {
      var bits := TakeDouble(data, i);
      o, next := Amf(name, Date(bits)), i + 11;
    } else if marker == BOOL {
      if i + 1 >= |data| {
        return false, o, next;
      }
      next := i + 2;
      o := Amf(name, Boolean(if data[next - 1] == 0 then 0 else 1));
    } else if marker == REFERENCE {
      if i + 2 >= |data| {
        return false, o, next;
      }
      o, next := Amf(name, Reference(Join16(data[i + 1], data[i + 2]))), i + 3;
    } else if marker == XMLDOC || marker == LONGSTRING {
      var taken, text := TakeLongText(data, i);
      if !taken {
        return false, o, next;
      }
      o, next := Amf(name, if marker == XMLDOC then XmlDoc(text) else LongStr(text)), i + |text| + 5;
    } else if marker == STRING {
      if i + 2 >= |data| {
        return false, o, next;
      }
      var n: nat := Join16(data[i + 1], data[i + 2]);
      if n + i + 3 >= |data| {
        n := |data| - i - 3;
      }
      CutText(data, i + 3, Length16(data, i + 1), n);
      o, next := Amf(name, Str(data[i + 3..i + 3 + n])), i + n + 3;
    } else if marker == NULL || marker == UNDEFINED || marker == UNSUPPORTED {
      o, next := Amf(name, Bare(marker)), i + 1;
    } else if marker == OBJECT {
      var taken, contents, end := TakeMembers(data, i + 1, true);
      ok, o, next := taken, Amf(name, Object(contents)), end + 3;
    } else if marker == TYPED_OBJ {
      if i + 2 >= |data| {
        return false, o, next;
      }
      var n: nat := Join16(data[i + 1], data[i + 2]);
      if n + i + 3 >= |data| {
        n := |data| - i - 3;
      }
      CutText(data, i + 3, Length16(data, i + 1), n);
      var className := data[i + 3..i + 3 + n];
      var taken, contents, end := TakeMembers(data, i + 1, false);
      ok, o, next := taken, Amf(className, Typed(contents)), end + 3;
    } else if marker == ECMA_ARRAY {
      var taken, contents, end := TakeMembers(data, i + 5, true);
      ok, o, next := taken, Amf(name, EcmaArray(contents)), end + 3;
    } else if marker == STRICT_ARRAY {
      if i + 4 >= |data| || data[i + 1] >= 0x80 {
        return false, o, next;
      }
      var taken, contents, end := TakeElements(data, i + 5, Join32(data[i + 1], data[i + 2], data[i + 3], data[i + 4]));
      ok, o, next := taken, Amf(name, StrictArray(contents)), end;
    } else {
      o, next := Amf(ERROR_NAME, Container([])), |data|;
    }
  }

  /** parse: all objects in the data. The exit for a cursor that stands still is never taken. */
  method ParseData(data: seq<byte>) returns (ok: bool, contents: seq<Amf>)
    ensures ok <==> ParseAll(data, 0).Some?
    ensures ok ==> ParseAll(data, 0).value.value == contents
  {
    hide ParseOne;
    ok, contents := true, [];
    var i, j := 0, 0;
    AfterNone([], ParseAll(data, 0), 0);
    while i < |data|
      invariant i == j
      invariant ParseAll(data, 0) == After(contents, ParseAll(data, i))
      decreases Remaining(data, i)
    {
      var taken, first, next := TakeOne(data, i, []);
      if !taken {
        return false, contents;
      }
      AfterOne(contents, first, ParseAll(data, next));
      contents, i := contents + [first], next;
      if i > j {
        j := i;
      } else {
        assert false;
      }
    }
    AfterNone(contents, None, i);
  }

  /** The code on the code's own output. */
  method PrintAndParse(cs: seq<Amf>) returns (ok: bool, back: seq<Amf>)
    requires PrintableElements(cs) && AllShaped(cs) && !AnyTyped(cs) && |PackedElements(cs)| < TWO_TO_THE_32
    ensures ok && back == NormalElements(cs, [])
  {
    var r, _ := PackElements(cs);
    AtStart(r, []);
    AllUndone(r, 0, cs);
    ok, back := ParseData(r);
  }
}
