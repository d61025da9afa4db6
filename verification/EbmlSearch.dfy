/** Reading and searching bytes that are not one whole serialised tree: heads in parts, unknown sizes, a cut-off end. */
module EbmlSearch {
  import opened Basics
  import opened EbmlInt
  import opened EbmlTree
  import opened EbmlWriter

  /** needBytes asks for the two bytes an element has at least, then for the first byte of the size, then for the rest
      of the head, then for the payload. */
  lemma {:induction false} NeedBytesStages(data: seq<byte>, i: nat, e: Elem, avail: nat)
    requires Valid(e) && At(data, i, Bytes(e)) && i + avail <= |data|
    ensures var n := |UniBytes(e.id)|; var m := |UniBytes(|Payload(e)|)|;
            NeedBytes(data, i, avail, false)
            == if avail < 2 then 2 else if avail < n + 1 then n + 1 else if avail < n + m then n + m
               else n + m + |Payload(e)|
  {
    hide Bytes, Payload, UniBytes, WriteSize, ReadInt;
    ElementReads(data, i, e);
    Parts(e);
    HeadReads(data, i, e.id, |Payload(e)|, Payload(e));
  }

  lemma {:induction false} Parts(e: Elem)
    requires Valid(e)
    ensures Bytes(e) == HeadBytes(e.id, |Payload(e)|) + Payload(e) && e.id < TWO_TO_THE_32 && |Payload(e)| <= MAX_VALUE
  {
  }

  /** A head that stands in the data is read, whatever its size says about what follows. */
  lemma {:induction false} HeadReads(data: seq<byte>, i: nat, id: nat, size: nat, rest: seq<byte>)
    requires id < TWO_TO_THE_32 && At(data, i, HeadBytes(id, size) + rest)
    ensures HeadReadable(data, i) && GetID(data, i) == id && ReadSize(data[i]) == |UniBytes(id)|
    ensures GetPayloadLen(data, i) == if size <= MAX_VALUE then size else UNKNOWN
    ensures GetHeaderLen(data, i) == |HeadBytes(id, size)| && At(data, i + |HeadBytes(id, size)|, rest)
    ensures i + |HeadBytes(id, size)| + |rest| <= |data|
  {
    hide ReadInt, ReadSize, WriteSize, UniBytes, At;
    AtSplit(data, i, HeadBytes(id, size), rest);
    AtSplit(data, i, UniBytes(id), UniBytes(size));
    UniBytesRead(data, i, id);
    UniBytesRead(data, i + |UniBytes(id)|, size);
    AtFits(data, i + |HeadBytes(id, size)|, rest);
  }

  /** With an unknown size nothing but the head is asked for, in either mode, and in minimal mode that is all there is.
      In the other mode the outer length wraps around to one byte less than the head. */
  lemma {:induction false} UnknownSize(data: seq<byte>, i: nat, id: nat, avail: nat, minimal: bool)
    requires id < TWO_TO_THE_32 && At(data, i, UniBytes(id) + [0xFF]) && |UniBytes(id)| + 1 <= avail && i + avail <= |data|
    ensures NeedBytes(data, i, avail, minimal) == |UniBytes(id)| + 1
    ensures Whole(data, i) && GetPayloadLen(data, i) == UNKNOWN && GetOuterLen(data, i, true) == |UniBytes(id)| + 1
    ensures GetOuterLen(data, i, false) == |UniBytes(id)|
  {
    hide UniBytes, ReadInt, WriteSize, At;
    assert UniBytes(MAX_VALUE + 1) == [0xFF] by {
      EmptySize();
    }
    Rightmost(UniBytes(id) + [0xFF]);
    HeadReads(data, i, id, MAX_VALUE + 1, []);
  }

  lemma {:induction false} EmptySize()
    ensures UniBytes(MAX_VALUE + 1) == [0xFF]
  {
  }

  lemma {:induction false} Rightmost(s: seq<byte>)
    ensures s + [] == s
  {
  }

  /** A search into a master of unknown size stops there; any other element of unknown size only offers itself. */
  lemma {:induction false} UnknownSearched(data: seq<byte>, i: nat, id: nat, wanted: nat)
    requires id < TWO_TO_THE_32 && At(data, i, UniBytes(id) + [0xFF])
    ensures Whole(data, i)
    ensures FindChild(data, i, wanted) == if id == wanted then Found(i) else if IsMaster(id) then Unsized else Missing
  {
    hide UniBytes, ReadInt, ReadSize, WriteSize, IsMaster, At;
    EmptySize();
    Rightmost(UniBytes(id) + [0xFF]);
    HeadReads(data, i, id, MAX_VALUE + 1, []);
  }

  /** On any data: an element that is found has the identifier and begins within the one searched. */
  lemma {:induction false} FoundHasId(data: seq<byte>, i: nat, id: nat)
    requires Whole(data, i)
    ensures match FindChild(data, i, id)
            case Found(at) => i <= at < i + Reach(data, i) && Readable(data, at) && GetID(data, at) == id
            case _ => true
    decreases Reach(data, i), 0
  {
    hide GetID, IsMaster, ReadInt, Readable, ReadSize, NeedBytes;
    if GetID(data, i) != id && IsMaster(GetID(data, i)) && GetPayloadLen(data, i) != UNKNOWN {
      FoundAmongHasId(data, i + GetHeaderLen(data, i), i + Reach(data, i), id);
    }
  }

  lemma {:induction false} FoundAmongHasId(data: seq<byte>, from: nat, end: nat, id: nat)
    requires from <= end <= |data|
    ensures match FindAmong(data, from, end, id)
            case Found(at) => from <= at < end && Readable(data, at) && GetID(data, at) == id
            case _ => true
    decreases end - from, 1
  {
    hide GetID, IsMaster, ReadInt, Readable, ReadSize, NeedBytes, GetPayloadLen, GetHeaderLen;
    if from != end && NeedBytes(data, from, end - from, false) <= end - from {
      NeededIsWhole(data, from, end - from);
      FoundHasId(data, from, id);
      if GetPayloadLen(data, from) != UNKNOWN {
        FoundAmongHasId(data, from + Reach(data, from), end, id);
      }
    }
  }

  // ---------------------------------------------------------------- a cut-off end

  /** The end of a payload that no element fits into: reading its first element would need more than there is. */
  predicate CutOff(tail: seq<byte>) { NeedBytes(tail, 0, |tail|, false) > |tail| }

  lemma {:induction false} Within(data: seq<byte>, i: nat, tail: seq<byte>, a: nat, b: nat)
    requires At(data, i, tail) && a <= b <= |tail|
    ensures data[i + a..i + b] == tail[a..b]
  {
    forall k | 0 <= k < b - a
      ensures data[i + a..i + b][k] == tail[a..b][k]
    {
      AtIndex(data, i, tail, a + k);
    }
  }

  /** What is needed depends only on the bytes that are there. */
  lemma {:induction false} NeedIsLocal(data: seq<byte>, i: nat, tail: seq<byte>)
    requires At(data, i, tail)
    ensures i + |tail| <= |data| && NeedBytes(data, i, |tail|, false) == NeedBytes(tail, 0, |tail|, false)
  {
    hide FromBe, Marker;
    if |tail| >= 2 {
      AtIndex(data, i, tail, 0);
      var n := ReadSize(tail[0]);
      if |tail| >= n + 1 {
        AtIndex(data, i, tail, n);
        var m := ReadSize(tail[n]);
        if |tail| >= n + m {
          Within(data, i, tail, n, n + m);
        }
      }
    }
  }

  /** A search of an element whose payload is cut off, or ends in rubbish: the whole children are searched in order,
      each to its depth, and the rest is ignored. */
  lemma {:induction false} CutOffSearched(data: seq<byte>, i: nat, id: nat, cs: seq<Elem>, tail: seq<byte>, wanted: nat)
    requires id < TWO_TO_THE_32 && IsMaster(id) && AllValid(cs) && |AllBytes(cs) + tail| <= MAX_VALUE
    requires tail == [] || CutOff(tail)
    requires At(data, i, HeadBytes(id, |AllBytes(cs) + tail|) + (AllBytes(cs) + tail))
    ensures Whole(data, i)
    ensures FindChild(data, i, wanted)
            == if id == wanted then Found(i)
               else First(PreorderAll(cs, i + |HeadBytes(id, |AllBytes(cs) + tail|)|), wanted)
  {
    hide HeadBytes, IsMaster, At, GetID, GetHeaderLen, GetPayloadLen, AllBytes, PreorderAll, First, CutOff, FindAmong;
    var payload := AllBytes(cs) + tail;
    HeadReads(data, i, id, |payload|, payload);
    CutOffAmong(data, i + |HeadBytes(id, |payload|)|, cs, tail, wanted);
  }

  lemma {:induction false} CutOffAmong(data: seq<byte>, from: nat, cs: seq<Elem>, tail: seq<byte>, wanted: nat)
    requires AllValid(cs) && (tail == [] || CutOff(tail)) && At(data, from, AllBytes(cs) + tail)
    ensures from + |AllBytes(cs) + tail| <= |data|
    ensures FindAmong(data, from, from + |AllBytes(cs) + tail|, wanted) == First(PreorderAll(cs, from), wanted)
    decreases cs
  {
    hide Bytes, NeedBytes, GetPayloadLen, Reach, At, FindChild, Preorder, First, IsMaster, GetOuterLen, GetHeaderLen,
      GetID, HeadLen, Whole;
    AtFits(data, from, AllBytes(cs) + tail);
    if cs == [] {
      assert AllBytes(cs) + tail == tail;
      NoneFirst(wanted);
      NeedIsLocal(data, from, tail);
    } else {
      var n := |Bytes(cs[0])|;
      Assoc(Bytes(cs[0]), AllBytes(cs[1..]), tail);
      AtSplit(data, from, Bytes(cs[0]), AllBytes(cs[1..]) + tail);
      ElementReads(data, from, cs[0]);
      BytesLen(cs[0]);
      NeedBytesExact(data, from, cs[0], |AllBytes(cs) + tail|);
      FindsFirst(data, from, cs[0], wanted);
      CutOffAmong(data, from + n, cs[1..], tail, wanted);
      FirstOfBoth(Preorder(cs[0], from), PreorderAll(cs[1..], from + n), wanted);
    }
  }

  // ---------------------------------------------------------------- values

  /** getValUInt of any serialised element: nothing is 0, up to eight bytes are the number, more are 0. */
  lemma {:induction false} UIntOfAny(data: seq<byte>, i: nat, e: Elem)
    requires Valid(e) && At(data, i, Bytes(e))
    ensures Whole(data, i) && GetPayloadLen(data, i) != UNKNOWN
    ensures GetValUInt(data, i) == if |Payload(e)| > 8 then 0 else FromBe(Payload(e))
  {
    hide Bytes, FromBe, GetID, GetPayloadLen, GetHeaderLen, HeadLen, ReadSize, Payload, Valid;
    Parts(e);
    ElementReads(data, i, e);
  }
}
