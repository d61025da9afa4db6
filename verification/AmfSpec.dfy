/** AMF0 values, their printed form, and the parser as a function of the bytes. */
module AmfSpec {
  import opened Basics

  const NUMBER: byte := 0x00
  const BOOL: byte := 0x01
  const STRING: byte := 0x02
  const OBJECT: byte := 0x03
  const MOVIECLIP: byte := 0x04
  const NULL: byte := 0x05
  const UNDEFINED: byte := 0x06
  const REFERENCE: byte := 0x07
  const ECMA_ARRAY: byte := 0x08
  const OBJ_END: byte := 0x09
  const STRICT_ARRAY: byte := 0x0A
  const DATE: byte := 0x0B
  const LONGSTRING: byte := 0x0C
  const UNSUPPORTED: byte := 0x0D
  const RECORDSET: byte := 0x0E
  const XMLDOC: byte := 0x0F
  const TYPED_OBJ: byte := 0x10
  const UPGRADE: byte := 0x11

  /** The type, payload and children of an object. Doubles are their 8 bytes in memory order; the
      container is the artificial type that prints only its contents. */
  datatype Body =
    | Number(bits: seq<byte>)
    | Date(bits: seq<byte>)
    | Boolean(value: byte)
    | Reference(number: nat)
    | Str(text: seq<byte>)
    | LongStr(text: seq<byte>)
    | XmlDoc(text: seq<byte>)
    | Bare(marker: byte)       // null, undefined, unsupported and the types without data
    | Object(contents: seq<Amf>)
    | Typed(contents: seq<Amf>)
    | EcmaArray(contents: seq<Amf>)
    | StrictArray(contents: seq<Amf>)
    | Container(contents: seq<Amf>)

  /** An object and its name in the container; a typed object's name is its class name. */
  datatype Amf = Amf(name: seq<byte>, body: Body)

  function Swap8(b: seq<byte>): (r: seq<byte>)
    requires |b| == 8
    ensures |r| == 8
  {
    [b[7], b[6], b[5], b[4], b[3], b[2], b[1], b[0]]
  }

  const END_OF_MEMBERS: seq<byte> := [0, 0, 9]

  /** Doubles have 8 bytes. */
  predicate Shaped(o: Amf)
    decreases o
  {
    match o.body
    case Number(bits) => |bits| == 8
    case Date(bits) => |bits| == 8
    case Object(cs) => AllShaped(cs)
    case Typed(cs) => AllShaped(cs)
    case EcmaArray(cs) => AllShaped(cs)
    case StrictArray(cs) => AllShaped(cs)
    case Container(cs) => AllShaped(cs)
    case _ => true
  }

  predicate AllShaped(cs: seq<Amf>)
    decreases cs
  {
    cs == [] || (Shaped(cs[0]) && AllShaped(cs[1..]))
  }

  // ---------------------------------------------------------------- printing

  function LongText(marker: byte, text: seq<byte>): seq<byte> { [marker] + (Be32(|text|) + text) }

  /** Object::Pack */
  function Packed(o: Amf): seq<byte>
    requires Shaped(o)
    decreases o
  {
    match o.body
    case Number(bits) => [NUMBER] + Swap8(bits)
    case Date(bits) => [DATE] + (Swap8(bits) + [0, 0])
    case Boolean(value) => [BOOL, value]
    case Reference(n) => [REFERENCE] + Be16(n)
    case Str(text) => if |text| > 0xFFFF then LongText(LONGSTRING, text) else [STRING] + (Be16(|text|) + text)
    case LongStr(text) => LongText(LONGSTRING, text)
    case XmlDoc(text) => LongText(XMLDOC, text)
    case Bare(marker) => [marker]
    case Object(cs) => [OBJECT] + (PackedMembers(cs) + END_OF_MEMBERS)
    case Typed(cs) => [TYPED_OBJ] + (Be16(|o.name|) + o.name + (PackedMembers(cs) + END_OF_MEMBERS))
    case EcmaArray(cs) => [ECMA_ARRAY] + (Be32(|cs|) + (PackedMembers(cs) + END_OF_MEMBERS))
    case StrictArray(cs) => [STRICT_ARRAY] + (Be32(|cs|) + PackedElements(cs))
    case Container(cs) => PackedElements(cs)
  }

  function PackedMembers(cs: seq<Amf>): seq<byte>
    requires AllShaped(cs)
    decreases cs
  {
    if cs == [] then [] else Be16(|cs[0].name|) + (cs[0].name + (Packed(cs[0]) + PackedMembers(cs[1..])))
  }

  function PackedElements(cs: seq<Amf>): seq<byte>
    requires AllShaped(cs)
    decreases cs
  {
    if cs == [] then [] else Packed(cs[0]) + PackedElements(cs[1..])
  }

  // ---------------------------------------------------------------- parsing

  /** A parsed object and the position after it. */
  datatype Parsed<T> = Parsed(value: T, next: nat)

  const ARRAY_VALUE: seq<byte> := [97, 114, 114, 86, 97, 108]   // "arrVal"
  const ERROR_NAME: seq<byte> := [101, 114, 114, 111, 114]      // "error"
  const ZERO_DOUBLE: seq<byte> := [0, 0, 0, 0, 0, 0, 0, 0]

  function Remaining(data: seq<byte>, i: nat): nat { if i < |data| then |data| - i else 0 }

  function Double(data: seq<byte>, i: nat): (r: seq<byte>)
    ensures |r| == 8
  {
    if i + 8 < |data| then Swap8(data[i + 1..i + 9]) else ZERO_DOUBLE
  }

  function Length16(data: seq<byte>, i: nat): nat
    requires i + 1 < |data|
  {
    Join16(data[i], data[i + 1])
  }

  /** A 32-bit length; none when it does not fit a signed int. */
  function Length32(data: seq<byte>, i: nat): Option<nat>
    requires i + 3 < |data|
  {
    if data[i] >= 0x80 then None
    else Some(Join32(data[i], data[i + 1], data[i + 2], data[i + 3]))
  }

  /** The text of n bytes at `start`, cut off at the end of the data. */
  function Text(data: seq<byte>, start: nat, n: nat): (r: seq<byte>)
    requires start <= |data|
    ensures |r| <= n
  {
    if start + n >= |data| then data[start..] else data[start..start + n]
  }

  function LongTextAt(data: seq<byte>, i: nat): Option<seq<byte>> {
    if i + 4 >= |data| then None
    else match Length32(data, i + 1)
      case None => None
      case Some(n) => if n + i + 5 >= TWO_TO_THE_32 then None else Some(Text(data, i + 5, n))
  }

  /** parseOne; None where the code would read outside the data or overflow an int. */
  function ParseOne(data: seq<byte>, i: nat, name: seq<byte>): (r: Option<Parsed<Amf>>)
    ensures r.Some? ==> r.value.next >= i && (i < |data| ==> r.value.next > i)
    decreases Remaining(data, i), 0, 0
  {
    if i >= |data| then Some(Parsed(Amf([], Container([])), i))
    else
      var marker := data[i];
      if marker == NUMBER then Some(Parsed(Amf(name, Number(Double(data, i))), i + 9))
      else if marker == DATE then Some(Parsed(Amf(name, Date(Double(data, i))), i + 11))
      else if marker == BOOL then
        if i + 1 >= |data| then None
        else Some(Parsed(Amf(name, Boolean(if data[i + 1] == 0 then 0 else 1)), i + 2))
      else if marker == REFERENCE then
        if i + 2 >= |data| then None else Some(Parsed(Amf(name, Reference(Length16(data, i + 1))), i + 3))
      else if marker == XMLDOC then
        match LongTextAt(data, i)
        case None => None
        case Some(text) => Some(Parsed(Amf(name, XmlDoc(text)), i + |text| + 5))
      else if marker == LONGSTRING then
        match LongTextAt(data, i)
        case None => None
        case Some(text) => Some(Parsed(Amf(name, LongStr(text)), i + |text| + 5))
      else if marker == STRING then
        if i + 2 >= |data| then None
        else
          var text := Text(data, i + 3, Length16(data, i + 1));
          Some(Parsed(Amf(name, Str(text)), i + |text| + 3))
      else if marker == NULL || marker == UNDEFINED || marker == UNSUPPORTED then
        Some(Parsed(Amf(name, Bare(marker)), i + 1))
      else if marker == OBJECT then
        match ParseMembers(data, i + 1, true)
        case None => None
        case Some(m) => Some(Parsed(Amf(name, Object(m.value)), m.next + 3))
      else if marker == TYPED_OBJ then
        if i + 2 >= |data| then None
        else
          // The class name is read, but the position is not moved past it.
          var className := Text(data, i + 3, Length16(data, i + 1));
          match ParseMembers(data, i + 1, false)
          case None => None
          case Some(m) => Some(Parsed(Amf(className, Typed(m.value)), m.next + 3))
      else if marker == ECMA_ARRAY then
        match ParseMembers(data, i + 5, true)
        case None => None
        case Some(m) => Some(Parsed(Amf(name, EcmaArray(m.value)), m.next + 3))
      else if marker == STRICT_ARRAY then
        if i + 4 >= |data| then None
        else match Length32(data, i + 1)
          case None => None
          case Some(n) =>
            match ParseElements(data, i + 5, n)
            case None => None
            case Some(m) => Some(Parsed(Amf(name, StrictArray(m.value)), m.next))
      else Some(Parsed(Amf(ERROR_NAME, Container([])), |data|))
  }

  /** The name of the next member; None where the code reads past the data without cutting off. */
  function MemberName(data: seq<byte>, i: nat, cutOff: bool): Option<seq<byte>>
    requires i + 1 < |data|
  {
    var n := Length16(data, i);
    if cutOff then Some(Text(data, i + 2, n))
    else if i + 2 + n > |data| then None
    else Some(data[i + 2..i + 2 + n])
  }

  /** The loop over named members, up to a zero length or the end of the data. */
  function ParseMembers(data: seq<byte>, i: nat, cutOff: bool): (r: Option<Parsed<seq<Amf>>>)
    ensures r.Some? ==> r.value.next >= i
    decreases Remaining(data, i), 1, 0
  {
    if i + 1 >= |data| || (data[i] == 0 && data[i + 1] == 0) then Some(Parsed([], i))
    else match MemberName(data, i, cutOff)
      case None => None
      case Some(name) =>
        match ParseOne(data, i + |name| + 2, name)
        case None => None
        case Some(first) =>
          match ParseMembers(data, first.next, cutOff)
          case None => None
          case Some(rest) => Some(Parsed([first.value] + rest.value, rest.next))
  }

  function ParseElements(data: seq<byte>, i: nat, n: nat): (r: Option<Parsed<seq<Amf>>>)
    ensures r.Some? ==> r.value.next >= i
    decreases Remaining(data, i), 1, n
  {
    if n == 0 then Some(Parsed([], i))
    else match ParseOne(data, i, ARRAY_VALUE)
      case None => None
      case Some(first) =>
        match ParseElements(data, first.next, n - 1)
        case None => None
        case Some(rest) => Some(Parsed([first.value] + rest.value, rest.next))
  }

  /** The loop of parse: objects until the data is used up. */
  function ParseAll(data: seq<byte>, i: nat): Option<Parsed<seq<Amf>>>
    decreases Remaining(data, i)
  {
    if i >= |data| then Some(Parsed([], i))
    else match ParseOne(data, i, [])
      case None => None
      case Some(first) =>
        match ParseAll(data, first.next)
        case None => None
        case Some(rest) => Some(Parsed([first.value] + rest.value, rest.next))
  }
}
