/** The Matroska writers: what they emit, the sizes they declare and the sizes they predict. */
module EbmlWriter {
  import opened Basics
  import opened EbmlInt
  import opened EbmlTree

  const EID_EBML := 0x0A45DFA3
  const EID_EBMLVERSION := 0x286
  const EID_EBMLREADVERSION := 0x2F7
  const EID_EBMLMAXIDLENGTH := 0x2F2
  const EID_EBMLMAXSIZELENGTH := 0x2F3
  const EID_DOCTYPE := 0x282
  const EID_DOCTYPEVERSION := 0x287
  const EID_DOCTYPEREADVERSION := 0x285
  const EID_INFO := 0x0549A966
  const EID_TIMECODESCALE := 0xAD7B1
  const EID_DURATION := 0x489
  const EID_DATEUTC := 0x461
  const EID_MUXINGAPP := 0xD80
  const EID_WRITINGAPP := 0x1741
  const EID_SIMPLEBLOCK := 0x23
  const EID_SEEK := 0xDBB
  const EID_SEEKID := 0x13AB
  const EID_SEEKPOSITION := 0x13AC
  const EID_CUEPOINT := 0x3B
  const EID_CUETIME := 0x33
  const EID_CUETRACKPOSITIONS := 0x37
  const EID_CUETRACK := 0x77
  const EID_CUECLUSTERPOSITION := 0x71
  const EID_CUERELATIVEPOSITION := 0x70

  const MATROSKA: seq<byte> := [109, 97, 116, 114, 111, 115, 107, 97]

  /** Milliseconds from 1970 to 2001, where Matroska dates start. */
  const DATE_ORIGIN: int := 978307200000

  // ---------------------------------------------------------------- predicted sizes

  function SizeElemHead(id: nat, size: nat): nat {
    WriteSize(id) + if WriteSize(size) != 0 then WriteSize(size) else 1
  }

  function SizeUInt(val: nat): (r: nat)
    ensures 1 <= r <= 8
  {
    if val >= 0x100_0000_0000_0000 then 8
    else if val >= 0x1_0000_0000_0000 then 7
    else if val >= 0x100_0000_0000 then 6
    else if val >= 0x1_0000_0000 then 5
    else if val >= 0x100_0000 then 4
    else if val >= 0x1_0000 then 3
    else if val >= 0x100 then 2
    else 1
  }

  function SizeElemUInt(id: nat, val: nat): nat { SizeElemHead(id, SizeUInt(val)) + SizeUInt(val) }

  function SizeInt(val: int): (r: nat)
    ensures 1 <= r <= 8
  {
    SizeUInt(if val < 0 then -val else val)
  }

  function SizeElemInt(id: nat, val: int): nat { SizeElemHead(id, SizeInt(val)) + SizeInt(val) }

  function SizeElemID(id: nat, val: nat): nat { SizeElemHead(id, WriteSize(val)) + WriteSize(val) }

  /** A double is its 4 bytes when a float can hold it, else its 8 bytes. */
  function SizeElemDbl(id: nat, bits: seq<byte>): nat { SizeElemHead(id, |bits|) + |bits| }

  function SizeElemStr(id: nat, val: seq<byte>): nat { SizeElemHead(id, |val|) + |val| }

  function SizeSimpleBlock(track: nat, dataLen: nat): nat {
    var size := (WriteSize(track) + 3 + dataLen) % TWO_TO_THE_32;
    size + SizeElemHead(EID_SIMPLEBLOCK, size)
  }

  function SizeElemEBML(doctype: seq<byte>): nat {
    27 + |doctype| + SizeElemHead(EID_EBML, 27 + |doctype|)
  }

  /** The nanoseconds since 2001 that a nonzero date is written as. */
  function MatroskaDate(date: int): int { (date - DATE_ORIGIN) * 1000000 }

  /** A duration that is not positive is left out. */
  function InfoContentLen(appName: seq<byte>, duration: Option<seq<byte>>, date: int): nat {
    13 + 2 * |appName| + (if duration.Some? then SizeElemDbl(EID_DURATION, duration.value) else 0)
    + if date != 0 then SizeElemInt(EID_DATEUTC, MatroskaDate(date)) else 0
  }

  function SizeElemInfo(appName: seq<byte>, duration: Option<seq<byte>>, date: int): nat {
    InfoContentLen(appName, duration, date) + SizeElemHead(EID_INFO, InfoContentLen(appName, duration, date))
  }

  function SizeElemSeek(id: nat, bytePos: nat): nat {
    var elems := SizeElemID(EID_SEEKID, id) + SizeElemUInt(EID_SEEKPOSITION, bytePos);
    SizeElemHead(EID_SEEK, elems) + elems
  }

  function TrackPositionsLen(track: nat, clusterPos: nat, relaPos: nat): nat {
    SizeElemUInt(EID_CUETRACK, track) + SizeElemUInt(EID_CUECLUSTERPOSITION, clusterPos)
    + SizeElemUInt(EID_CUERELATIVEPOSITION, relaPos)
  }

  function SizeElemCuePoint(time: nat, track: nat, clusterPos: nat, relaPos: nat): nat {
    var a := TrackPositionsLen(track, clusterPos, relaPos);
    var elems := a + SizeElemHead(EID_CUETRACKPOSITIONS, a) + SizeElemUInt(EID_CUETIME, time);
    SizeElemHead(EID_CUEPOINT, elems) + elems
  }

  // ---------------------------------------------------------------- the elements meant

  function UIntElem(id: nat, val: nat): Elem { Leaf(id, Be(SizeUInt(val), val)) }

  /** An int64 in its low bytes. */
  function IntElem(id: nat, val: int): Elem { Leaf(id, Be(SizeInt(val), val % TWO_TO_THE_64)) }

  function IdElem(id: nat, val: nat): Elem { Leaf(id, UniBytes(val)) }

  function EbmlElem(doctype: seq<byte>): Elem {
    Master(EID_EBML, [
      UIntElem(EID_EBMLVERSION, 1), UIntElem(EID_EBMLREADVERSION, 1), UIntElem(EID_EBMLMAXIDLENGTH, 4),
      UIntElem(EID_EBMLMAXSIZELENGTH, 8), Leaf(EID_DOCTYPE, doctype),
      UIntElem(EID_DOCTYPEVERSION, if doctype == MATROSKA then 4 else 1), UIntElem(EID_DOCTYPEREADVERSION, 1)])
  }

  /** The date element is left out when its value is zero. */
  function DateElems(date: int): seq<Elem> {
    if date != 0 && MatroskaDate(date) != 0 then [IntElem(EID_DATEUTC, MatroskaDate(date))] else []
  }

  function InfoElem(appName: seq<byte>, duration: Option<seq<byte>>, date: int): Elem {
    Master(EID_INFO, [UIntElem(EID_TIMECODESCALE, 1000000)]
                     + ((if duration.Some? then [Leaf(EID_DURATION, duration.value)] else [])
                        + (DateElems(date) + [Leaf(EID_MUXINGAPP, appName), Leaf(EID_WRITINGAPP, appName)])))
  }

  function SeekElem(id: nat, bytePos: nat): Elem {
    Master(EID_SEEK, [IdElem(EID_SEEKID, id), UIntElem(EID_SEEKPOSITION, bytePos)])
  }

  function CuePointElem(time: nat, track: nat, clusterPos: nat, relaPos: nat): Elem {
    Master(EID_CUEPOINT, [
      UIntElem(EID_CUETIME, time),
      Master(EID_CUETRACKPOSITIONS, [
        UIntElem(EID_CUETRACK, track), UIntElem(EID_CUECLUSTERPOSITION, clusterPos),
        UIntElem(EID_CUERELATIVEPOSITION, relaPos)])])
  }

  /** Track number, 16-bit time relative to the cluster, flags and the frame. */
  function BlockPayload(track: nat, time: nat, key: bool, clusterTime: nat, frame: seq<byte>): seq<byte> {
    UniBytes(track) + (Be(2, (time - clusterTime) % 0x1_0000) + ([if key then 0x80 else 0] + frame))
  }

  function BlockElem(track: nat, time: nat, key: bool, clusterTime: nat, frame: seq<byte>): Elem {
    Leaf(EID_SIMPLEBLOCK, BlockPayload(track, time, key, clusterTime, frame))
  }

  // ---------------------------------------------------------------- what is emitted with which declared size

  /** An element's payload behind a head that declares `declared` bytes. */
  function Declared(e: Elem, declared: nat): seq<byte> { HeadBytes(e.id, declared) + Payload(e) }

  function SeekDeclared(id: nat, bytePos: nat): nat {
    SizeElemUInt(EID_SEEKID, id) + SizeElemUInt(EID_SEEKPOSITION, bytePos)
  }

  function BlockDeclared(track: nat, frame: seq<byte>): nat {
    (WriteSize(track) + 3 + |frame|) % TWO_TO_THE_32
  }

  lemma {:induction false} HeadSize(id: nat, size: nat)
    requires id < TWO_TO_THE_32
    ensures |HeadBytes(id, size)| == SizeElemHead(id, size)
  {
    hide Coded;
  }

  lemma {:induction false} LeafSize(id: nat, payload: seq<byte>)
    requires id < TWO_TO_THE_32
    ensures |Bytes(Leaf(id, payload))| == SizeElemHead(id, |payload|) + |payload|
  {
    HeadSize(id, |payload|);
  }

  /** sizeElemUInt, sizeElemInt, sizeElemDbl and sizeElemStr are the bytes of their elements. */
  lemma {:induction false} UIntSize(id: nat, val: nat)
    requires id < TWO_TO_THE_32
    ensures |Bytes(UIntElem(id, val))| == SizeElemUInt(id, val)
  {
    LeafSize(id, Be(SizeUInt(val), val));
  }

  lemma {:induction false} IntSize(id: nat, val: int)
    requires id < TWO_TO_THE_32
    ensures |Bytes(IntElem(id, val))| == SizeElemInt(id, val)
  {
    LeafSize(id, Be(SizeInt(val), val % TWO_TO_THE_64));
  }

  /** sizeElemID is exact for the values that have an encoding and for no others. */
  lemma {:induction false} IdSizeIff(id: nat, val: nat)
    requires id < TWO_TO_THE_32
    ensures |Declared(IdElem(id, val), WriteSize(val))| == SizeElemID(id, val) <==> val <= MAX_VALUE
    ensures val <= MAX_VALUE ==> Declared(IdElem(id, val), WriteSize(val)) == Bytes(IdElem(id, val))
  {
    HeadSize(id, WriteSize(val));
  }

  // Sums over children, unrolled one at a time.

  function TotalSize(cs: seq<Elem>): nat {
    if cs == [] then 0 else |Bytes(cs[0])| + TotalSize(cs[1..])
  }

  lemma {:induction false} AllSize(cs: seq<Elem>)
    ensures |AllBytes(cs)| == TotalSize(cs)
  {
    hide Bytes;
    if cs != [] {
      AllSize(cs[1..]);
    }
  }

  lemma {:induction false} TotalOfBoth(a: seq<Elem>, b: seq<Elem>)
    ensures TotalSize(a + b) == TotalSize(a) + TotalSize(b)
  {
    hide Bytes;
    if a == [] {
      assert a + b == b;
    } else {
      assert (a + b)[1..] == a[1..] + b;
      TotalOfBoth(a[1..], b);
    }
  }

  lemma {:induction false} TotalCons(e: Elem, cs: seq<Elem>)
    ensures TotalSize([e] + cs) == |Bytes(e)| + TotalSize(cs)
  {
    TotalOfBoth([e], cs);
  }

  lemma {:induction false} TotalTwo(a: Elem, b: Elem)
    ensures TotalSize([a, b]) == |Bytes(a)| + |Bytes(b)|
  {
    TotalCons(a, [b]);
    assert [a] + [b] == [a, b];
  }

  lemma {:induction false} TotalThree(a: Elem, b: Elem, c: Elem)
    ensures TotalSize([a, b, c]) == |Bytes(a)| + |Bytes(b)| + |Bytes(c)|
  {
    TotalTwo(b, c);
    TotalCons(a, [b, c]);
    assert [a] + [b, c] == [a, b, c];
  }

  lemma {:induction false} SmallUInt(id: nat, val: nat)
    requires 0x7E < id <= 0x3FFE && val < 0x100
    ensures |Bytes(UIntElem(id, val))| == 4
  {
    hide Bytes;
    UIntSize(id, val);
  }

  lemma {:induction false} EbmlContent(doctype: seq<byte>)
    ensures |Payload(EbmlElem(doctype))| == 24 + SizeElemStr(EID_DOCTYPE, doctype)
  {
    hide Bytes, AllBytes, TotalSize, UIntElem, SizeElemStr;
    var version := if doctype == MATROSKA then 4 else 1;
    var a := [UIntElem(EID_EBMLVERSION, 1), UIntElem(EID_EBMLREADVERSION, 1), UIntElem(EID_EBMLMAXIDLENGTH, 4)];
    var b := [Leaf(EID_DOCTYPE, doctype), UIntElem(EID_DOCTYPEVERSION, version), UIntElem(EID_DOCTYPEREADVERSION, 1)];
    var m := UIntElem(EID_EBMLMAXSIZELENGTH, 8);
    AllSize(a + ([m] + b));
    TotalOfBoth(a, [m] + b);
    TotalCons(m, b);
    TotalThree(a[0], a[1], a[2]);
    TotalThree(b[0], b[1], b[2]);
    assert EbmlElem(doctype).children == a + ([m] + b);
    SmallUInt(EID_EBMLVERSION, 1);
    SmallUInt(EID_EBMLREADVERSION, 1);
    SmallUInt(EID_EBMLMAXIDLENGTH, 4);
    SmallUInt(EID_EBMLMAXSIZELENGTH, 8);
    SmallUInt(EID_DOCTYPEVERSION, version);
    SmallUInt(EID_DOCTYPEREADVERSION, 1);
    StrSize(EID_DOCTYPE, doctype);
  }

  lemma {:induction false} StrSize(id: nat, val: seq<byte>)
    requires id < TWO_TO_THE_32
    ensures |Bytes(Leaf(id, val))| == SizeElemStr(id, val)
  {
    LeafSize(id, val);
  }

  lemma {:induction false} DeclaredSize(e: Elem, declared: nat)
    requires e.id < TWO_TO_THE_32
    ensures |Declared(e, declared)| == SizeElemHead(e.id, declared) + |Payload(e)|
  {
    HeadSize(e.id, declared);
  }

  /** The fixed 27 bytes of the EBML header are right exactly for doctypes of up to 126 bytes: only then is the
      declared size exact, the prediction right, and the output the serialised element. */
  lemma {:induction false} EbmlExactIff(doctype: seq<byte>)
    requires |doctype| < 0x8000_0000
    ensures |Payload(EbmlElem(doctype))| == 27 + |doctype| <==> |doctype| <= 126
    ensures |Declared(EbmlElem(doctype), 27 + |doctype|)| == SizeElemEBML(doctype) <==> |doctype| <= 126
    ensures |doctype| <= 126 ==> Declared(EbmlElem(doctype), 27 + |doctype|) == Bytes(EbmlElem(doctype))
  {
    hide Payload, HeadBytes;
    EbmlContent(doctype);
    DeclaredSize(EbmlElem(doctype), 27 + |doctype|);
  }

  lemma {:induction false} DateSize(date: int)
    ensures TotalSize(DateElems(date)) == if date != 0 && date != DATE_ORIGIN then SizeElemInt(EID_DATEUTC, MatroskaDate(date)) else 0
  {
    hide Bytes;
    IntSize(EID_DATEUTC, MatroskaDate(date));
  }

  lemma {:induction false} InfoContent(appName: seq<byte>, duration: Option<seq<byte>>, date: int)
    ensures |Payload(InfoElem(appName, duration, date))|
            == 7 + (if duration.Some? then SizeElemDbl(EID_DURATION, duration.value) else 0)
               + (if date != 0 && date != DATE_ORIGIN then SizeElemInt(EID_DATEUTC, MatroskaDate(date)) else 0)
               + SizeElemStr(EID_MUXINGAPP, appName) + SizeElemStr(EID_WRITINGAPP, appName)
  {
    hide Bytes, AllBytes, TotalSize, UIntElem, SizeElemStr, SizeElemDbl, SizeElemInt, DateElems;
    var scale := UIntElem(EID_TIMECODESCALE, 1000000);
    var dur := if duration.Some? then [Leaf(EID_DURATION, duration.value)] else [];
    var apps := [Leaf(EID_MUXINGAPP, appName), Leaf(EID_WRITINGAPP, appName)];
    AllSize([scale] + (dur + (DateElems(date) + apps)));
    TotalCons(scale, dur + (DateElems(date) + apps));
    TotalOfBoth(dur, DateElems(date) + apps);
    TotalOfBoth(DateElems(date), apps);
    TotalTwo(apps[0], apps[1]);
    ScaleSize();
    StrSize(EID_MUXINGAPP, appName);
    StrSize(EID_WRITINGAPP, appName);
    DateSize(date);
    DurationSize(duration);
  }

  lemma {:induction false} ScaleSize()
    ensures |Bytes(UIntElem(EID_TIMECODESCALE, 1000000))| == 7
  {
    hide Bytes;
    UIntSize(EID_TIMECODESCALE, 1000000);
  }

  lemma {:induction false} DurationSize(duration: Option<seq<byte>>)
    ensures TotalSize(if duration.Some? then [Leaf(EID_DURATION, duration.value)] else [])
            == if duration.Some? then SizeElemDbl(EID_DURATION, duration.value) else 0
  {
    if duration.Some? {
      LeafSize(EID_DURATION, duration.value);
    }
  }

  /** When the Info element's declared size and its predicted size are right. The date is counted whenever it is not
      zero, but left out when it becomes zero; names over 126 bytes need longer sizes than the 13 bytes allow for. */
  predicate InfoFits(appName: seq<byte>, date: int) {
    if date == DATE_ORIGIN then 0x3FFF <= |appName| <= 0x1FFFFE else |appName| <= 126
  }

  function InfoEmitted(appName: seq<byte>, duration: Option<seq<byte>>, date: int): seq<byte> {
    Declared(InfoElem(appName, duration, date), InfoContentLen(appName, duration, date))
  }

  lemma {:induction false} InfoExactIff(appName: seq<byte>, duration: Option<seq<byte>>, date: int)
    requires |appName| < 0x4000_0000
    ensures |Payload(InfoElem(appName, duration, date))| == InfoContentLen(appName, duration, date) <==> InfoFits(appName, date)
    ensures |InfoEmitted(appName, duration, date)| == SizeElemInfo(appName, duration, date) <==> InfoFits(appName, date)
    ensures InfoFits(appName, date) ==> InfoEmitted(appName, duration, date) == Bytes(InfoElem(appName, duration, date))
  {
    InfoContent(appName, duration, date);
    DeclaredSize(InfoElem(appName, duration, date), InfoContentLen(appName, duration, date));
    hide Payload, SizeUInt, InfoElem, SizeElemInt, SizeElemDbl, SizeElemStr, SizeElemHead, HeadBytes;
  }

  /** Seek elements declare the plain size of the identifier but write it as a variable-length integer. */
  predicate SeekFits(id: nat) {
    id <= 0x7E || 0x100 <= id <= 0x3FFE || 0x1_0000 <= id <= 0x1F_FFFE || 0x100_0000 <= id <= 0xFFF_FFFE
  }

  lemma {:induction false} SeekContent(id: nat, bytePos: nat)
    requires id < TWO_TO_THE_32
    ensures |Payload(SeekElem(id, bytePos))| == SizeElemID(EID_SEEKID, id) + SizeElemUInt(EID_SEEKPOSITION, bytePos)
  {
    hide Bytes;
    var cs := SeekElem(id, bytePos).children;
    AllSize(cs);
    TotalTwo(cs[0], cs[1]);
    LeafSize(EID_SEEKID, UniBytes(id));
    UIntSize(EID_SEEKPOSITION, bytePos);
  }

  /** The declared size is exact for these identifiers and no others; the predicted size always is. */
  lemma {:induction false} SeekExactIff(id: nat, bytePos: nat)
    requires id < TWO_TO_THE_32
    ensures |Payload(SeekElem(id, bytePos))| == SeekDeclared(id, bytePos) <==> SeekFits(id)
    ensures SeekFits(id) ==> Declared(SeekElem(id, bytePos), SeekDeclared(id, bytePos)) == Bytes(SeekElem(id, bytePos))
    ensures |Declared(SeekElem(id, bytePos), SeekDeclared(id, bytePos))| == SizeElemSeek(id, bytePos)
  {
    SeekContent(id, bytePos);
    DeclaredSize(SeekElem(id, bytePos), SeekDeclared(id, bytePos));
    hide Payload;
  }

  lemma {:induction false} PositionsContent(track: nat, clusterPos: nat, relaPos: nat)
    ensures |Payload(CuePointElem(0, track, clusterPos, relaPos).children[1])| == TrackPositionsLen(track, clusterPos, relaPos)
  {
    hide Bytes;
    var cs := CuePointElem(0, track, clusterPos, relaPos).children[1].children;
    AllSize(cs);
    TotalThree(cs[0], cs[1], cs[2]);
    UIntSize(EID_CUETRACK, track);
    UIntSize(EID_CUECLUSTERPOSITION, clusterPos);
    UIntSize(EID_CUERELATIVEPOSITION, relaPos);
  }

  function CueDeclared(time: nat, track: nat, clusterPos: nat, relaPos: nat): nat {
    var a := TrackPositionsLen(track, clusterPos, relaPos);
    a + SizeElemUInt(EID_CUETIME, time) + SizeElemHead(EID_CUETRACKPOSITIONS, a)
  }

  /** Both declared sizes of a cue point are exact, and so is the prediction, for every argument. */
  lemma {:induction false} CuePointExact(time: nat, track: nat, clusterPos: nat, relaPos: nat)
    ensures |Payload(CuePointElem(time, track, clusterPos, relaPos))| == CueDeclared(time, track, clusterPos, relaPos)
    ensures |Payload(CuePointElem(time, track, clusterPos, relaPos).children[1])| == TrackPositionsLen(track, clusterPos, relaPos)
    ensures |Bytes(CuePointElem(time, track, clusterPos, relaPos))| == SizeElemCuePoint(time, track, clusterPos, relaPos)
  {
    var e := CuePointElem(time, track, clusterPos, relaPos);
    PositionsContent(track, clusterPos, relaPos);
    DeclaredSize(e.children[1], TrackPositionsLen(track, clusterPos, relaPos));
    UIntSize(EID_CUETIME, time);
    TotalTwo(e.children[0], e.children[1]);
    AllSize(e.children);
    DeclaredSize(e, CueDeclared(time, track, clusterPos, relaPos));
    hide Be, SizeUInt, TotalSize, AllBytes, WriteSize;
  }

  /** A block's declared and predicted size are right unless the track number has no encoding or the 32-bit size
      overflows. */
  lemma {:induction false} BlockExactIff(track: nat, time: nat, key: bool, clusterTime: nat, frame: seq<byte>)
    ensures var e := BlockElem(track, time, key, clusterTime, frame);
            var fits := track <= MAX_VALUE && WriteSize(track) + 3 + |frame| < TWO_TO_THE_32;
            && (|Payload(e)| == BlockDeclared(track, frame) <==> fits)
            && (|Declared(e, BlockDeclared(track, frame))| == SizeSimpleBlock(track, |frame|) <==> fits)
            && (fits ==> Declared(e, BlockDeclared(track, frame)) == Bytes(e))
  {
    hide Be, Coded;
    var e := BlockElem(track, time, key, clusterTime, frame);
    assert |Payload(e)| == |UniBytes(track)| + 3 + |frame|;
    DeclaredSize(e, BlockDeclared(track, frame));
  }

  // ---------------------------------------------------------------- values read back

  /** getValUInt */
  function GetValUInt(data: seq<byte>, i: nat): nat
    requires Whole(data, i) && GetPayloadLen(data, i) != UNKNOWN
  {
    var n := GetPayloadLen(data, i);
    var p := i + GetHeaderLen(data, i);
    if n > 8 then 0 else FromBe(data[p..p + n])
  }

  lemma {:induction false} SizeUIntHolds(val: nat)
    requires val < TWO_TO_THE_64
    ensures val < Pow256(SizeUInt(val))
  {
    Powers();
  }

  /** Every 64-bit value written as an unsigned element is read back from it. */
  lemma {:induction false} UIntRoundTrip(data: seq<byte>, i: nat, id: nat, val: nat)
    requires id < TWO_TO_THE_32 && !IsMaster(id) && val < TWO_TO_THE_64 && At(data, i, Bytes(UIntElem(id, val)))
    ensures Whole(data, i) && GetID(data, i) == id && GetPayloadLen(data, i) != UNKNOWN && GetValUInt(data, i) == val
  {
    hide Bytes, WriteSize, Be, FromBe, SizeUInt, GetID, GetPayloadLen, GetHeaderLen, HeadLen, ReadSize;
    var e := UIntElem(id, val);
    ElementReads(data, i, e);
    SizeUIntHolds(val);
    BeExact(SizeUInt(val), val);
  }

  // ---------------------------------------------------------------- the writers as the code runs them

  /** A socket or a string that only grows. */
  class Output {
    var sent: seq<byte>

    constructor ()
      ensures sent == []
    {
      sent := [];
    }

    method Send(bytes: seq<byte>)
      modifies this
      ensures sent == old(sent) + bytes
    {
      sent := sent + bytes;
    }
  }

  method SendUniInt(c: Output, val: nat)
    modifies c
    ensures c.sent == old(c.sent) + UniBytes(val)
  {
    var wSize := WriteSize(val);
    if wSize == 0 {
      c.Send([0xFF]);
      return;
    }
    c.Send(Coded(wSize, val));
  }

  method SendElemHead(c: Output, id: nat, size: nat)
    modifies c
    ensures c.sent == old(c.sent) + HeadBytes(id, size)
  {
    SendUniInt(c, id);
    SendUniInt(c, size);
  }

  method SendElemUInt(c: Output, id: nat, val: nat)
    modifies c
    ensures c.sent == old(c.sent) + Bytes(UIntElem(id, val))
  {
    hide HeadBytes, Be, SizeUInt;
    var wSize := SizeUInt(val);
    SendElemHead(c, id, wSize);
    c.Send(Be(wSize, val));
    Assoc(old(c.sent), HeadBytes(id, wSize), Be(wSize, val));
  }

  method SendElemInt(c: Output, id: nat, val: int)
    modifies c
    ensures c.sent == old(c.sent) + Bytes(IntElem(id, val))
  {
    hide HeadBytes, Be, SizeInt;
    var wSize := SizeInt(val);
    SendElemHead(c, id, wSize);
    c.Send(Be(wSize, val % TWO_TO_THE_64));
    Assoc(old(c.sent), HeadBytes(id, wSize), Be(wSize, val % TWO_TO_THE_64));
  }

  method SendElemID(c: Output, id: nat, val: nat)
    modifies c
    ensures c.sent == old(c.sent) + Declared(IdElem(id, val), WriteSize(val))
  {
    hide HeadBytes, UniBytes, WriteSize;
    SendElemHead(c, id, WriteSize(val));
    SendUniInt(c, val);
    Assoc(old(c.sent), HeadBytes(id, WriteSize(val)), UniBytes(val));
  }

  /** sendElemDbl and sendElemStr: a head and the bytes. */
  method SendElemBytes(c: Output, id: nat, val: seq<byte>)
    modifies c
    ensures c.sent == old(c.sent) + Bytes(Leaf(id, val))
  {
    hide HeadBytes;
    SendElemHead(c, id, |val|);
    c.Send(val);
    Assoc(old(c.sent), HeadBytes(id, |val|), val);
  }

  /** After a head and the children sent so far, one more child. */
  lemma {:induction false} OneMore(s: seq<byte>, cs: seq<Elem>, e: Elem)
    ensures (s + AllBytes(cs)) + Bytes(e) == s + AllBytes(cs + [e])
  {
    hide Bytes;
    AllSnoc(cs, e);
    Assoc(s, AllBytes(cs), Bytes(e));
  }

  lemma {:induction false} AllSnoc(cs: seq<Elem>, e: Elem)
    ensures AllBytes(cs + [e]) == AllBytes(cs) + Bytes(e)
  {
    hide Bytes;
    if cs == [] {
      assert [e][1..] == [];
      assert cs + [e] == [e];
    } else {
      assert (cs + [e])[1..] == cs[1..] + [e];
      AllSnoc(cs[1..], e);
      Assoc(Bytes(cs[0]), AllBytes(cs[1..]), Bytes(e));
    }
  }

  lemma {:induction false} NoneYet(s: seq<byte>)
    ensures s == s + AllBytes([])
  {
  }

  method SendElemEBML(c: Output, doctype: seq<byte>)
    modifies c
    ensures c.sent == old(c.sent) + Declared(EbmlElem(doctype), 27 + |doctype|)
  {
    hide Bytes, AllBytes, HeadBytes, UIntElem;
    SendElemHead(c, EID_EBML, 27 + |doctype|);
    ghost var s := c.sent;
    NoneYet(s);
    ghost var cs := EbmlElem(doctype).children;
    SendElemUInt(c, EID_EBMLVERSION, 1);
    OneMore(s, [], cs[0]);
    SendElemUInt(c, EID_EBMLREADVERSION, 1);
    OneMore(s, [] + [cs[0]], cs[1]);
    SendElemUInt(c, EID_EBMLMAXIDLENGTH, 4);
    OneMore(s, [] + [cs[0]] + [cs[1]], cs[2]);
    SendElemUInt(c, EID_EBMLMAXSIZELENGTH, 8);
    OneMore(s, [] + [cs[0]] + [cs[1]] + [cs[2]], cs[3]);
    SendElemBytes(c, EID_DOCTYPE, doctype);
    OneMore(s, [] + [cs[0]] + [cs[1]] + [cs[2]] + [cs[3]], cs[4]);
    if doctype == MATROSKA {
      SendElemUInt(c, EID_DOCTYPEVERSION, 4);
    } else {
      SendElemUInt(c, EID_DOCTYPEVERSION, 1);
    }
    OneMore(s, [] + [cs[0]] + [cs[1]] + [cs[2]] + [cs[3]] + [cs[4]], cs[5]);
    SendElemUInt(c, EID_DOCTYPEREADVERSION, 1);
    OneMore(s, [] + [cs[0]] + [cs[1]] + [cs[2]] + [cs[3]] + [cs[4]] + [cs[5]], cs[6]);
    assert cs == [] + [cs[0]] + [cs[1]] + [cs[2]] + [cs[3]] + [cs[4]] + [cs[5]] + [cs[6]];
    Assoc(old(c.sent), HeadBytes(EID_EBML, 27 + |doctype|), AllBytes(cs));
  }

  method SendElemInfo(c: Output, appName: seq<byte>, duration: Option<seq<byte>>, date: int)
    modifies c
    ensures c.sent == old(c.sent) + InfoEmitted(appName, duration, date)
  {
    hide Bytes, AllBytes, HeadBytes, UIntElem, IntElem, SizeElemInt, SizeElemDbl;
    var contentLen := 13 + 2 * |appName|;
    if duration.Some? {
      contentLen := contentLen + SizeElemDbl(EID_DURATION, duration.value);
    }
    var left := date;
    if left != 0 {
      left := MatroskaDate(left);
      contentLen := contentLen + SizeElemInt(EID_DATEUTC, left);
    }
    SendElemHead(c, EID_INFO, contentLen);
    ghost var s := c.sent;
    NoneYet(s);
    ghost var cs: seq<Elem> := [];
    SendElemUInt(c, EID_TIMECODESCALE, 1000000);
    OneMore(s, cs, UIntElem(EID_TIMECODESCALE, 1000000));
    cs := cs + [UIntElem(EID_TIMECODESCALE, 1000000)];
    if duration.Some? {
      SendElemBytes(c, EID_DURATION, duration.value);
      OneMore(s, cs, Leaf(EID_DURATION, duration.value));
      cs := cs + [Leaf(EID_DURATION, duration.value)];
    }
    if left != 0 {
      SendElemInt(c, EID_DATEUTC, left);
      OneMore(s, cs, IntElem(EID_DATEUTC, left));
      cs := cs + [IntElem(EID_DATEUTC, left)];
    }
    SendElemBytes(c, EID_MUXINGAPP, appName);
    OneMore(s, cs, Leaf(EID_MUXINGAPP, appName));
    cs := cs + [Leaf(EID_MUXINGAPP, appName)];
    SendElemBytes(c, EID_WRITINGAPP, appName);
    OneMore(s, cs, Leaf(EID_WRITINGAPP, appName));
    cs := cs + [Leaf(EID_WRITINGAPP, appName)];
    assert cs == InfoElem(appName, duration, date).children;
    Assoc(old(c.sent), HeadBytes(EID_INFO, contentLen), AllBytes(cs));
  }

  method SendElemSeek(c: Output, id: nat, bytePos: nat)
    requires id < TWO_TO_THE_32
    modifies c
    ensures c.sent == old(c.sent) + Declared(SeekElem(id, bytePos), SeekDeclared(id, bytePos))
  {
    hide Bytes, AllBytes, HeadBytes, SizeElemUInt;
    var elems := SizeElemUInt(EID_SEEKID, id) + SizeElemUInt(EID_SEEKPOSITION, bytePos);
    SendElemHead(c, EID_SEEK, elems);
    ghost var s := c.sent;
    NoneYet(s);
    ghost var cs := SeekElem(id, bytePos).children;
    SendElemID(c, EID_SEEKID, id);
    IdSizeIff(EID_SEEKID, id);
    OneMore(s, [], cs[0]);
    SendElemUInt(c, EID_SEEKPOSITION, bytePos);
    OneMore(s, [] + [cs[0]], cs[1]);
    assert cs == [] + [cs[0]] + [cs[1]];
    Assoc(old(c.sent), HeadBytes(EID_SEEK, elems), AllBytes(cs));
  }

  method SendElemCuePoint(c: Output, time: nat, track: nat, clusterPos: nat, relaPos: nat)
    modifies c
    ensures c.sent == old(c.sent) + Bytes(CuePointElem(time, track, clusterPos, relaPos))
  {
    hide Bytes, AllBytes, HeadBytes, SizeElemUInt, UIntElem, SizeElemHead;
    var elemsA := 0;
    elemsA := elemsA + SizeElemUInt(EID_CUETRACK, track);
    elemsA := elemsA + SizeElemUInt(EID_CUECLUSTERPOSITION, clusterPos);
    elemsA := elemsA + SizeElemUInt(EID_CUERELATIVEPOSITION, relaPos);
    var elemsB := elemsA + SizeElemUInt(EID_CUETIME, time) + SizeElemHead(EID_CUETRACKPOSITIONS, elemsA);
    SendElemHead(c, EID_CUEPOINT, elemsB);
    ghost var s := c.sent;
    ghost var e := CuePointElem(time, track, clusterPos, relaPos);
    ghost var cs := e.children[1].children;
    SendElemUInt(c, EID_CUETIME, time);
    SendElemHead(c, EID_CUETRACKPOSITIONS, elemsA);
    ghost var t := c.sent;
    NoneYet(t);
    SendElemUInt(c, EID_CUETRACK, track);
    OneMore(t, [], cs[0]);
    SendElemUInt(c, EID_CUECLUSTERPOSITION, clusterPos);
    OneMore(t, [] + [cs[0]], cs[1]);
    SendElemUInt(c, EID_CUERELATIVEPOSITION, relaPos);
    OneMore(t, [] + [cs[0]] + [cs[1]], cs[2]);
    assert cs == [] + [cs[0]] + [cs[1]] + [cs[2]];
    CuePointExact(time, track, clusterPos, relaPos);
    CueAssembled(old(c.sent), time, track, clusterPos, relaPos);
  }

  lemma {:induction false} CueAssembled(s: seq<byte>, time: nat, track: nat, clusterPos: nat, relaPos: nat)
    ensures var e := CuePointElem(time, track, clusterPos, relaPos);
            s + HeadBytes(EID_CUEPOINT, |Payload(e)|) + Bytes(e.children[0])
            + HeadBytes(EID_CUETRACKPOSITIONS, |Payload(e.children[1])|) + AllBytes(e.children[1].children)
            == s + Bytes(e)
  {
    hide HeadBytes, UIntElem;
    var e := CuePointElem(time, track, clusterPos, relaPos);
    assert AllBytes(e.children) == Bytes(e.children[0]) + Bytes(e.children[1]) by {
      AllSnoc([e.children[0]], e.children[1]);
      AllSnoc([], e.children[0]);
      assert [] + [e.children[0]] == [e.children[0]];
      assert [e.children[0]] + [e.children[1]] == e.children;
    }
  }

  method AppendSimpleBlock(c: Output, frame: seq<byte>, track: nat, time: nat, key: bool, clusterTime: nat)
    modifies c
    ensures c.sent == old(c.sent) + Declared(BlockElem(track, time, key, clusterTime, frame), BlockDeclared(track, frame))
  {
    hide HeadBytes, UniBytes, Be;
    var blockSize := (WriteSize(track) + 3 + |frame|) % TWO_TO_THE_32;
    SendElemHead(c, EID_SIMPLEBLOCK, blockSize);
    SendUniInt(c, track);
    var flags: byte := if key then 0x80 else 0;
    var blockHead := Be(2, (time - clusterTime) % 0x1_0000) + [flags];
    c.Send(blockHead);
    c.Send(frame);
  }
}
