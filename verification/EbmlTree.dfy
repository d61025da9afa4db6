/** EBML elements: reading heads, stepping over children and searching, against trees of known-size elements. */
module EbmlTree {
  import opened Basics
  import opened EbmlInt

  /** The identifiers whose payload is a list of elements. */
  const MASTERS: set<nat> := {
    0x0A45DFA3, 0x08538067, 0x0F43B675, 0x014D9B74, 0x0549A966, 0x0654AE6B, 0x0C53BB6B, 0xDBB, 0x2E, 0x60, 0x61,
    0x20, 0x3B, 0x37, 0x15B0, 0x0254C367, 0x3373, 0x23C0, 0x43A770, 0x3A770, 0x0941A469, 0x21A7, 0x5B9, 0x36, 0x0,
    0x27C8
  }

  predicate IsMaster(id: nat) { id in MASTERS }

  // ---------------------------------------------------------------- reading one element

  predicate HeadReadable(data: seq<byte>, i: nat) {
    Readable(data, i) && Readable(data, i + ReadSize(data[i]))
  }

  /** getID, which keeps 32 bits. */
  function GetID(data: seq<byte>, i: nat): nat
    requires Readable(data, i)
  {
    ReadInt(data, i) % TWO_TO_THE_32
  }

  function GetPayloadLen(data: seq<byte>, i: nat): nat
    requires HeadReadable(data, i)
  {
    ReadInt(data, i + ReadSize(data[i]))
  }

  function GetHeaderLen(data: seq<byte>, i: nat): (r: nat)
    requires HeadReadable(data, i)
    ensures 2 <= r <= 16 && i + r <= |data|
  {
    ReadSize(data[i]) + ReadSize(data[i + ReadSize(data[i])])
  }

  /** getOuterLen; in minimal mode an element of unknown size is only its head. */
  function GetOuterLen(data: seq<byte>, i: nat, minimal: bool): nat
    requires HeadReadable(data, i)
  {
    if minimal && GetPayloadLen(data, i) == UNKNOWN then GetHeaderLen(data, i)
    else (GetPayloadLen(data, i) + GetHeaderLen(data, i)) % TWO_TO_THE_64
  }

  /** needBytes: how many bytes must be there before more can be read. Nothing at or beyond i + avail is looked at. */
  function NeedBytes(data: seq<byte>, i: nat, avail: nat, minimal: bool): nat
    requires i + avail <= |data|
  {
    if avail < 2 then 2
    else
      var idLen := ReadSize(data[i]);
      if avail < idLen + 1 then idLen + 1
      else
        var headLen := idLen + ReadSize(data[i + idLen]);
        if avail < headLen then headLen
        else if minimal && IsMaster(GetID(data, i)) then headLen
        else if ReadInt(data, i + idLen) == UNKNOWN then headLen
        else headLen + ReadInt(data, i + idLen)
  }

  // ---------------------------------------------------------------- searching

  /** Unsized: the search met an element of unknown size, whose end the code does not know. */
  datatype Search = Found(at: nat) | Missing | Unsized

  /** The element at i is complete, or its size is unknown. */
  predicate Whole(data: seq<byte>, i: nat) {
    && HeadReadable(data, i)
    && (GetPayloadLen(data, i) == UNKNOWN || i + GetHeaderLen(data, i) + GetPayloadLen(data, i) <= |data|)
  }

  function Reach(data: seq<byte>, i: nat): nat
    requires Whole(data, i)
  {
    GetHeaderLen(data, i) + if GetPayloadLen(data, i) == UNKNOWN then 0 else GetPayloadLen(data, i)
  }

  lemma {:induction false} NeededIsWhole(data: seq<byte>, i: nat, avail: nat)
    requires i + avail <= |data| && NeedBytes(data, i, avail, false) <= avail
    ensures Whole(data, i) && Reach(data, i) <= avail
  {
  }

  lemma {:induction false} OuterIsReach(data: seq<byte>, i: nat)
    requires Whole(data, i) && GetPayloadLen(data, i) != UNKNOWN
    ensures GetOuterLen(data, i, false) == Reach(data, i) == GetHeaderLen(data, i) + GetPayloadLen(data, i)
  {
    hide FromBe, ReadSize;
  }

  /** findChild on any bytes: every read it makes lies within the element. */
  function FindChild(data: seq<byte>, i: nat, id: nat): Search
    requires Whole(data, i)
    decreases Reach(data, i), 0
  {
    if GetID(data, i) == id then Found(i)
    else if !IsMaster(GetID(data, i)) then Missing
    else if GetPayloadLen(data, i) == UNKNOWN then Unsized
    else FindAmong(data, i + GetHeaderLen(data, i), i + Reach(data, i), id)
  }

  /** The loop over the elements between two positions. */
  function FindAmong(data: seq<byte>, from: nat, end: nat, id: nat): Search
    requires from <= end <= |data|
    decreases end - from, 1
  {
    if from == end || NeedBytes(data, from, end - from, false) > end - from then Missing
    else
      NeededIsWhole(data, from, end - from);
      var f := FindChild(data, from, id);
      if f != Missing then f
      else if GetPayloadLen(data, from) == UNKNOWN then Unsized
      else FindAmong(data, from + Reach(data, from), end, id)
  }

  // ---------------------------------------------------------------- trees and their serialisation

  datatype Elem = Leaf(id: nat, payload: seq<byte>) | Master(id: nat, children: seq<Elem>)

  /** What appendElemHead emits. */
  function HeadBytes(id: nat, size: nat): seq<byte> { UniBytes(id) + UniBytes(size) }

  function Payload(e: Elem): seq<byte>
    decreases e, 0
  {
    match e
    case Leaf(_, payload) => payload
    case Master(_, children) => AllBytes(children)
  }

  function Bytes(e: Elem): seq<byte>
    decreases e, 1
  {
    HeadBytes(e.id, |Payload(e)|) + Payload(e)
  }

  function AllBytes(cs: seq<Elem>): seq<byte>
    decreases cs
  {
    if cs == [] then [] else Bytes(cs[0]) + AllBytes(cs[1..])
  }

  /** Elements with a 32-bit identifier and a known size; a master is one exactly by its identifier. */
  predicate Valid(e: Elem)
    decreases e
  {
    && e.id < TWO_TO_THE_32 && (e.Master? <==> IsMaster(e.id)) && |Payload(e)| <= MAX_VALUE
    && (e.Master? ==> AllValid(e.children))
  }

  predicate AllValid(cs: seq<Elem>)
    decreases cs
  {
    cs == [] || (Valid(cs[0]) && AllValid(cs[1..]))
  }

  function HeadLen(e: Elem): (r: nat)
    requires Valid(e)
    ensures r == WriteSize(e.id) + WriteSize(|Payload(e)|)
  {
    |HeadBytes(e.id, |Payload(e)|)|
  }

  // ---------------------------------------------------------------- heads read back

  /** A serialised element is read with its own identifier, sizes and length, whatever follows. */
  lemma {:induction false} ElementReads(data: seq<byte>, i: nat, e: Elem)
    requires Valid(e) && At(data, i, Bytes(e))
    ensures Whole(data, i) && GetID(data, i) == e.id && GetPayloadLen(data, i) == |Payload(e)|
    ensures GetHeaderLen(data, i) == HeadLen(e) && At(data, i + HeadLen(e), Payload(e))
    ensures GetOuterLen(data, i, false) == GetOuterLen(data, i, true) == Reach(data, i) == |Bytes(e)|
  {
    hide ReadInt, ReadSize, WriteSize, UniBytes, Payload, At;
    AtSplit(data, i, HeadBytes(e.id, |Payload(e)|), Payload(e));
    AtSplit(data, i, UniBytes(e.id), UniBytes(|Payload(e)|));
    UniBytesRead(data, i, e.id);
    UniBytesRead(data, i + |UniBytes(e.id)|, |Payload(e)|);
    assert At(data, i + HeadLen(e), Payload(e));
    AtFits(data, i + HeadLen(e), Payload(e));
  }

  /** With a whole element at hand needBytes is its outer length; with less it always asks for more, and never
      for more than the element has. */
  lemma {:induction false} NeedBytesExact(data: seq<byte>, i: nat, e: Elem, avail: nat)
    requires Valid(e) && At(data, i, Bytes(e)) && i + avail <= |data|
    ensures avail >= |Bytes(e)| ==> NeedBytes(data, i, avail, false) == |Bytes(e)|
    ensures avail < |Bytes(e)| ==> avail < NeedBytes(data, i, avail, false) <= |Bytes(e)|
  {
    hide Bytes, Payload, UniBytes, WriteSize, ReadInt;
    ElementReads(data, i, e);
  }

  /** In minimal mode a master needs only its head. */
  lemma {:induction false} NeedBytesMinimal(data: seq<byte>, i: nat, e: Elem, avail: nat)
    requires Valid(e) && At(data, i, Bytes(e)) && HeadLen(e) <= avail && i + avail <= |data|
    ensures NeedBytes(data, i, avail, true) == if e.Master? then HeadLen(e) else |Bytes(e)|
  {
    hide Bytes, Payload, UniBytes, WriteSize, ReadInt;
    ElementReads(data, i, e);
    BytesLen(e);
  }

  lemma {:induction false} BytesLen(e: Elem)
    requires Valid(e)
    ensures |Bytes(e)| == HeadLen(e) + |Payload(e)| && HeadLen(e) >= 2
  {
  }

  // ---------------------------------------------------------------- stepping visits exactly the children

  /** The positions a reader visits that steps by getOuterLen from `from` to `end`; None if it would run past. */
  function Steps(data: seq<byte>, from: nat, end: nat): Option<seq<nat>>
    requires from <= end <= |data|
    decreases end - from
  {
    if from == end then Some([])
    else if NeedBytes(data, from, end - from, false) > end - from then None
    else
      NeededIsWhole(data, from, end - from);
      var n := GetOuterLen(data, from, false);
      if n == 0 || from + n > end then None
      else match Steps(data, from + n, end)
        case None => None
        case Some(rest) => Some([from] + rest)
  }

  function Positions(cs: seq<Elem>, from: nat): (r: seq<nat>)
    ensures |r| == |cs|
    decreases cs
  {
    if cs == [] then [] else [from] + Positions(cs[1..], from + |Bytes(cs[0])|)
  }

  lemma {:induction false} PositionsHold(data: seq<byte>, from: nat, cs: seq<Elem>, k: nat)
    requires At(data, from, AllBytes(cs)) && k < |cs|
    ensures At(data, Positions(cs, from)[k], Bytes(cs[k]))
    decreases cs
  {
    hide Bytes, At;
    AtSplit(data, from, Bytes(cs[0]), AllBytes(cs[1..]));
    if k > 0 {
      PositionsHold(data, from + |Bytes(cs[0])|, cs[1..], k - 1);
    }
  }

  lemma {:induction false} StepsVisitChildren(data: seq<byte>, from: nat, cs: seq<Elem>)
    requires AllValid(cs) && At(data, from, AllBytes(cs))
    ensures from + |AllBytes(cs)| <= |data|
    ensures Steps(data, from, from + |AllBytes(cs)|) == Some(Positions(cs, from))
    decreases cs
  {
    hide Bytes, NeedBytes, GetOuterLen, At, IsMaster, GetHeaderLen, GetPayloadLen, GetID, HeadLen, Whole, Reach;
    AtFits(data, from, AllBytes(cs));
    if cs != [] {
      var n := |Bytes(cs[0])|;
      AtSplit(data, from, Bytes(cs[0]), AllBytes(cs[1..]));
      ElementReads(data, from, cs[0]);
      BytesLen(cs[0]);
      NeedBytesExact(data, from, cs[0], |AllBytes(cs)|);
      StepsVisitChildren(data, from + n, cs[1..]);
    }
  }

  // ---------------------------------------------------------------- the search finds the first in pre-order

  /** An element's identifier and position. */
  datatype Place = Place(id: nat, at: nat)

  function Preorder(e: Elem, at: nat): seq<Place>
    requires Valid(e)
    decreases e
  {
    [Place(e.id, at)] + if e.Master? then PreorderAll(e.children, at + HeadLen(e)) else []
  }

  function PreorderAll(cs: seq<Elem>, at: nat): seq<Place>
    requires AllValid(cs)
    decreases cs
  {
    if cs == [] then [] else Preorder(cs[0], at) + PreorderAll(cs[1..], at + |Bytes(cs[0])|)
  }

  function First(places: seq<Place>, id: nat): Search {
    if places == [] then Missing
    else if places[0].id == id then Found(places[0].at)
    else First(places[1..], id)
  }

  lemma {:induction false} FirstOfBoth(a: seq<Place>, b: seq<Place>, id: nat)
    ensures First(a + b, id) == if First(a, id) != Missing then First(a, id) else First(b, id)
  {
    if a == [] {
      assert a + b == b;
    } else {
      assert (a + b)[1..] == a[1..] + b;
      FirstOfBoth(a[1..], b, id);
    }
  }

  /** The first place with the identifier: it is in the list, and none before it has the identifier. */
  lemma {:induction false} FirstIsFirst(places: seq<Place>, id: nat) returns (k: nat)
    ensures k <= |places| && forall j :: 0 <= j < k ==> places[j].id != id
    ensures First(places, id) == if k < |places| then Found(places[k].at) else Missing
    ensures k < |places| ==> places[k].id == id
  {
    k := 0;
    if places != [] && places[0].id != id {
      var j := FirstIsFirst(places[1..], id);
      k := j + 1;
    }
  }

  /** On a serialised tree, findChild returns the first element with the identifier in pre-order, or none. */
  lemma {:induction false} FindsFirst(data: seq<byte>, i: nat, e: Elem, id: nat)
    requires Valid(e) && At(data, i, Bytes(e))
    ensures Whole(data, i) && FindChild(data, i, id) == First(Preorder(e, i), id)
    decreases e, 1
  {
    hide Bytes, At, GetID, GetPayloadLen, GetHeaderLen, Reach, FindAmong, PreorderAll, IsMaster;
    ElementReads(data, i, e);
    BytesLen(e);
    if e.id != id && e.Master? {
      var h := HeadLen(e);
      FindsFirstAmong(data, i + h, e.children, id);
      assert Preorder(e, i)[1..] == PreorderAll(e.children, i + h);
    }
  }

  lemma {:induction false} FindsFirstAmong(data: seq<byte>, from: nat, cs: seq<Elem>, id: nat)
    requires AllValid(cs) && At(data, from, AllBytes(cs))
    ensures from + |AllBytes(cs)| <= |data|
    ensures FindAmong(data, from, from + |AllBytes(cs)|, id) == First(PreorderAll(cs, from), id)
    decreases cs, 0
  {
    hide Bytes, NeedBytes, GetPayloadLen, Reach, At, FindChild, Preorder, First, IsMaster, GetOuterLen, GetHeaderLen,
      GetID, HeadLen, Whole;
    AtFits(data, from, AllBytes(cs));
    if cs == [] {
      assert First([], id) == Missing by { NoneFirst(id); }
    } else {
      var n := |Bytes(cs[0])|;
      AtSplit(data, from, Bytes(cs[0]), AllBytes(cs[1..]));
      ElementReads(data, from, cs[0]);
      BytesLen(cs[0]);
      NeedBytesExact(data, from, cs[0], |AllBytes(cs)|);
      FindsFirst(data, from, cs[0], id);
      FindsFirstAmong(data, from + n, cs[1..], id);
      FirstOfBoth(Preorder(cs[0], from), PreorderAll(cs[1..], from + n), id);
    }
  }

  lemma {:induction false} NoneFirst(id: nat)
    ensures First([], id) == Missing
  {
  }

  // ---------------------------------------------------------------- the search as the code runs it

  method FindChildIn(data: seq<byte>, i: nat, id: nat) returns (r: Search)
    requires Whole(data, i)
    ensures r == FindChild(data, i, id)
    decreases Reach(data, i)
  {
    hide ReadInt, ReadSize, IsMaster, GetPayloadLen, GetHeaderLen, GetOuterLen, Reach, NeedBytes, GetID;
    if GetID(data, i) == id {
      return Found(i);
    }
    if !IsMaster(GetID(data, i)) {
      return Missing;
    }
    var payLen := GetPayloadLen(data, i);
    if payLen == UNKNOWN {
      return Unsized;
    }
    OuterIsReach(data, i);
    var payDat := i + GetHeaderLen(data, i);
    var offset := 0;
    while offset < payLen
      invariant offset <= payLen
      invariant FindAmong(data, payDat, payDat + payLen, id) == FindAmong(data, payDat + offset, payDat + payLen, id)
    {
      if NeedBytes(data, payDat + offset, payLen - offset, false) > payLen - offset {
        break;
      }
      NeededIsWhole(data, payDat + offset, payLen - offset);
      var f := FindChildIn(data, payDat + offset, id);
      if f != Missing {
        return f;
      }
      if GetPayloadLen(data, payDat + offset) == UNKNOWN {
        return Unsized;
      }
      OuterIsReach(data, payDat + offset);
      offset := offset + GetOuterLen(data, payDat + offset, false);
    }
    return Missing;
  }
}
