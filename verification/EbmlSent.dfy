/** What the Matroska writers send, byte by byte. */
module EbmlSent {
  import opened Basics
  import opened EbmlInt
  import opened EbmlTree
  import opened EbmlWire
  import opened EbmlWriter

  /** An unsigned value is stored in the fewest bytes that hold it, and at least one. */
  lemma {:induction false} WidthIsLeast(val: nat)
    requires val < TWO_TO_THE_64
    ensures val < Pow256(SizeUInt(val)) && (val >= 256 ==> val >= Pow256(SizeUInt(val) - 1))
    ensures val < 256 ==> SizeUInt(val) == 1
  {
    hide Pow256;
    Powers();
  }

  /** Its element: the identifier, one byte 0x80 plus the width, and the value, which reads back from those bytes. */
  lemma {:induction false} UIntBytes(id: nat, val: nat)
    requires val < TWO_TO_THE_64
    ensures var w := SizeUInt(val);
            Bytes(UIntElem(id, val)) == UniBytes(id) + [0x80 + w] + Be(w, val) && FromBe(Be(w, val)) == val
    ensures val < 256 ==> Bytes(UIntElem(id, val)) == UniBytes(id) + [0x81, val]
  {
    hide UniBytes, FromBe, Be, SizeUInt;
    var w := SizeUInt(val);
    WrittenBytes(w);
    SizeUIntHolds(val);
    BeExact(w, val);
    WidthIsLeast(val);
    Bytes1(val);
  }

  lemma {:induction false} StrBytes(id: nat, val: seq<byte>)
    ensures Bytes(Leaf(id, val)) == UniBytes(id) + UniBytes(|val|) + val
  {
  }

  lemma {:induction false} Unrolled(e: Elem, cs: seq<Elem>)
    ensures AllBytes([e]) == Bytes(e) && AllBytes([e] + cs) == Bytes(e) + AllBytes(cs)
  {
    assert ([e] + cs)[1..] == cs;
    assert [e][1..] == [];
  }

  lemma {:induction false} JoinedBytes(a: seq<Elem>, b: seq<Elem>)
    ensures AllBytes(a + b) == AllBytes(a) + AllBytes(b)
  {
    hide Bytes;
    if a == [] {
      assert a + b == b;
    } else {
      assert (a + b)[1..] == a[1..] + b;
      JoinedBytes(a[1..], b);
      Assoc(Bytes(a[0]), AllBytes(a[1..]), AllBytes(b));
    }
  }

  lemma {:induction false} HeaderIds()
    ensures UniBytes(EID_EBML) == [0x1A, 0x45, 0xDF, 0xA3]
    ensures UniBytes(EID_EBMLVERSION) == [0x42, 0x86] && UniBytes(EID_EBMLREADVERSION) == [0x42, 0xF7]
    ensures UniBytes(EID_EBMLMAXIDLENGTH) == [0x42, 0xF2] && UniBytes(EID_EBMLMAXSIZELENGTH) == [0x42, 0xF3]
    ensures UniBytes(EID_DOCTYPE) == [0x42, 0x82] && UniBytes(EID_DOCTYPEVERSION) == [0x42, 0x87]
    ensures UniBytes(EID_DOCTYPEREADVERSION) == [0x42, 0x85]
  {
    hide UniBytes;
    WrittenBytes(EID_EBML);
    WrittenBytes(EID_EBMLVERSION);
    WrittenBytes(EID_EBMLREADVERSION);
    WrittenBytes(EID_EBMLMAXIDLENGTH);
    WrittenBytes(EID_EBMLMAXSIZELENGTH);
    WrittenBytes(EID_DOCTYPE);
    WrittenBytes(EID_DOCTYPEVERSION);
    WrittenBytes(EID_DOCTYPEREADVERSION);
  }

  /** EBML version 1 read by version 1, identifiers of up to 4 and sizes of up to 8 bytes, then the doctype; version 4
      of "matroska" and 1 of anything else, read by 1. */
  function HeaderContent(doctype: seq<byte>): seq<byte> {
    ([0x42, 0x86, 0x81, 1] + [0x42, 0xF7, 0x81, 1])
    + (([0x42, 0xF2, 0x81, 4] + [0x42, 0xF3, 0x81, 8])
       + (([0x42, 0x82] + UniBytes(|doctype|) + doctype)
          + ([0x42, 0x87, 0x81, if doctype == [109, 97, 116, 114, 111, 115, 107, 97] then 4 else 1]
             + [0x42, 0x85, 0x81, 1])))
  }

  lemma {:induction false} LimitBytes()
    ensures AllBytes([UIntElem(EID_EBMLMAXIDLENGTH, 4), UIntElem(EID_EBMLMAXSIZELENGTH, 8)])
            == [0x42, 0xF2, 0x81, 4] + [0x42, 0xF3, 0x81, 8]
  {
    hide UniBytes, Bytes, AllBytes, UIntElem;
    HeaderIds();
    UIntBytes(EID_EBMLMAXIDLENGTH, 4);
    UIntBytes(EID_EBMLMAXSIZELENGTH, 8);
    var a, b := UIntElem(EID_EBMLMAXIDLENGTH, 4), UIntElem(EID_EBMLMAXSIZELENGTH, 8);
    Unrolled(b, []);
    Unrolled(a, [b]);
    assert [a] + [b] == [a, b];
  }

  lemma {:induction false} VersionBytes()
    ensures AllBytes([UIntElem(EID_EBMLVERSION, 1), UIntElem(EID_EBMLREADVERSION, 1)])
            == [0x42, 0x86, 0x81, 1] + [0x42, 0xF7, 0x81, 1]
  {
    hide UniBytes, Bytes, AllBytes, UIntElem;
    HeaderIds();
    UIntBytes(EID_EBMLVERSION, 1);
    UIntBytes(EID_EBMLREADVERSION, 1);
    var a, b := UIntElem(EID_EBMLVERSION, 1), UIntElem(EID_EBMLREADVERSION, 1);
    Unrolled(b, []);
    Unrolled(a, [b]);
    assert [a] + [b] == [a, b];
  }

  lemma {:induction false} DocBytes(doctype: seq<byte>, version: nat)
    requires version < 256
    ensures AllBytes([Leaf(EID_DOCTYPE, doctype), UIntElem(EID_DOCTYPEVERSION, version), UIntElem(EID_DOCTYPEREADVERSION, 1)])
            == ([0x42, 0x82] + UniBytes(|doctype|) + doctype) + ([0x42, 0x87, 0x81, version] + [0x42, 0x85, 0x81, 1])
  {
    hide UniBytes, Bytes, AllBytes, UIntElem;
    HeaderIds();
    StrBytes(EID_DOCTYPE, doctype);
    UIntBytes(EID_DOCTYPEVERSION, version);
    UIntBytes(EID_DOCTYPEREADVERSION, 1);
    var a, b, c := Leaf(EID_DOCTYPE, doctype), UIntElem(EID_DOCTYPEVERSION, version), UIntElem(EID_DOCTYPEREADVERSION, 1);
    Unrolled(c, []);
    Unrolled(b, [c]);
    Unrolled(a, [b, c]);
    assert [b] + [c] == [b, c] && [a] + [b, c] == [a, b, c];
  }

  lemma {:induction false} HeaderSent(doctype: seq<byte>)
    ensures Declared(EbmlElem(doctype), 27 + |doctype|)
            == [0x1A, 0x45, 0xDF, 0xA3] + UniBytes(27 + |doctype|) + HeaderContent(doctype)
  {
    hide UniBytes, Bytes, AllBytes, UIntElem;
    HeaderIds();
    var version := if doctype == MATROSKA then 4 else 1;
    var cs := EbmlElem(doctype).children;
    VersionBytes();
    LimitBytes();
    DocBytes(doctype, version);
    assert cs == cs[..2] + (cs[2..4] + cs[4..]);
    JoinedBytes(cs[..2], cs[2..4] + cs[4..]);
    JoinedBytes(cs[2..4], cs[4..]);
    assert cs[..2] == [UIntElem(EID_EBMLVERSION, 1), UIntElem(EID_EBMLREADVERSION, 1)];
    assert cs[2..4] == [UIntElem(EID_EBMLMAXIDLENGTH, 4), UIntElem(EID_EBMLMAXSIZELENGTH, 8)];
    assert cs[4..] == [Leaf(EID_DOCTYPE, doctype), UIntElem(EID_DOCTYPEVERSION, version), UIntElem(EID_DOCTYPEREADVERSION, 1)];
  }

  lemma {:induction false} InfoIds()
    ensures UniBytes(EID_INFO) == [0x15, 0x49, 0xA9, 0x66] && UniBytes(EID_TIMECODESCALE) == [0x2A, 0xD7, 0xB1]
    ensures UniBytes(EID_DURATION) == [0x44, 0x89] && UniBytes(EID_DATEUTC) == [0x44, 0x61]
    ensures UniBytes(EID_MUXINGAPP) == [0x4D, 0x80] && UniBytes(EID_WRITINGAPP) == [0x57, 0x41]
  {
    hide UniBytes;
    WrittenBytes(EID_INFO);
    WrittenBytes(EID_TIMECODESCALE);
    WrittenBytes(EID_DURATION);
    WrittenBytes(EID_DATEUTC);
    WrittenBytes(EID_MUXINGAPP);
    WrittenBytes(EID_WRITINGAPP);
  }

  /** The date in nanoseconds behind the start of 2001, in its own width; nothing for no date and for that start. */
  function DateContent(date: int): seq<byte> {
    var ns := (date - 978307200000) * 1000000;
    if date == 0 || ns == 0 then []
    else [0x44, 0x61] + [0x80 + SizeInt(ns)] + Be(SizeInt(ns), ns % TWO_TO_THE_64)
  }

  /** A scale of a million nanoseconds, the duration if any, the date if any, and the application twice. */
  function InfoContentBytes(appName: seq<byte>, duration: Option<seq<byte>>, date: int): seq<byte> {
    [0x2A, 0xD7, 0xB1, 0x83, 0x0F, 0x42, 0x40]
    + ((match duration case None => [] case Some(bits) => [0x44, 0x89] + UniBytes(|bits|) + bits)
       + (DateContent(date)
          + (([0x4D, 0x80] + UniBytes(|appName|) + appName) + ([0x57, 0x41] + UniBytes(|appName|) + appName))))
  }

  lemma {:induction false} ScaleBytes()
    ensures Bytes(UIntElem(EID_TIMECODESCALE, 1000000)) == [0x2A, 0xD7, 0xB1, 0x83, 0x0F, 0x42, 0x40]
  {
    hide UniBytes, Bytes, UIntElem, Be, FromBe;
    InfoIds();
    UIntBytes(EID_TIMECODESCALE, 1000000);
    Bytes3(1000000);
  }

  lemma {:induction false} DateBytes(date: int)
    ensures AllBytes(DateElems(date)) == DateContent(date)
  {
    hide UniBytes, SizeInt, Be;
    InfoIds();
    if DateElems(date) != [] {
      var ns := MatroskaDate(date);
      WrittenBytes(SizeInt(ns));
      Unrolled(IntElem(EID_DATEUTC, ns), []);
    }
  }

  lemma {:induction false} DurationBytes(duration: Option<seq<byte>>)
    ensures AllBytes(if duration.Some? then [Leaf(EID_DURATION, duration.value)] else [])
            == match duration case None => [] case Some(bits) => [0x44, 0x89] + UniBytes(|bits|) + bits
  {
    hide UniBytes, Bytes;
    InfoIds();
    if duration.Some? {
      Unrolled(Leaf(EID_DURATION, duration.value), []);
      StrBytes(EID_DURATION, duration.value);
    }
  }

  lemma {:induction false} AppBytes(appName: seq<byte>)
    ensures AllBytes([Leaf(EID_MUXINGAPP, appName), Leaf(EID_WRITINGAPP, appName)])
            == ([0x4D, 0x80] + UniBytes(|appName|) + appName) + ([0x57, 0x41] + UniBytes(|appName|) + appName)
  {
    hide UniBytes, Bytes, AllBytes;
    InfoIds();
    var a, b := Leaf(EID_MUXINGAPP, appName), Leaf(EID_WRITINGAPP, appName);
    Unrolled(b, []);
    Unrolled(a, [b]);
    StrBytes(EID_MUXINGAPP, appName);
    StrBytes(EID_WRITINGAPP, appName);
    assert [a] + [b] == [a, b];
  }

  lemma {:induction false} InfoSent(appName: seq<byte>, duration: Option<seq<byte>>, date: int)
    ensures InfoEmitted(appName, duration, date)
            == [0x15, 0x49, 0xA9, 0x66] + UniBytes(InfoContentLen(appName, duration, date))
               + InfoContentBytes(appName, duration, date)
  {
    hide UniBytes, Bytes, AllBytes, UIntElem, DateElems, DateContent, InfoContentLen;
    var scale := UIntElem(EID_TIMECODESCALE, 1000000);
    var dur := if duration.Some? then [Leaf(EID_DURATION, duration.value)] else [];
    var apps := [Leaf(EID_MUXINGAPP, appName), Leaf(EID_WRITINGAPP, appName)];
    InfoIds();
    ScaleBytes();
    DurationBytes(duration);
    DateBytes(date);
    AppBytes(appName);
    Unrolled(scale, dur + (DateElems(date) + apps));
    JoinedBytes(dur, DateElems(date) + apps);
    JoinedBytes(DateElems(date), apps);
  }

  lemma {:induction false} CueIds()
    ensures UniBytes(EID_SEEK) == [0x4D, 0xBB] && UniBytes(EID_SEEKID) == [0x53, 0xAB]
    ensures UniBytes(EID_SEEKPOSITION) == [0x53, 0xAC] && UniBytes(EID_CUEPOINT) == [0xBB]
    ensures UniBytes(EID_CUETIME) == [0xB3] && UniBytes(EID_CUETRACKPOSITIONS) == [0xB7]
    ensures UniBytes(EID_CUETRACK) == [0xF7] && UniBytes(EID_CUECLUSTERPOSITION) == [0xF1]
    ensures UniBytes(EID_CUERELATIVEPOSITION) == [0xF0] && UniBytes(EID_SIMPLEBLOCK) == [0xA3]
  {
    hide UniBytes;
    WrittenBytes(EID_SEEK);
    WrittenBytes(EID_SEEKID);
    WrittenBytes(EID_SEEKPOSITION);
    WrittenBytes(EID_CUEPOINT);
    WrittenBytes(EID_CUETIME);
    WrittenBytes(EID_CUETRACKPOSITIONS);
    WrittenBytes(EID_CUETRACK);
    WrittenBytes(EID_CUECLUSTERPOSITION);
    WrittenBytes(EID_CUERELATIVEPOSITION);
    WrittenBytes(EID_SIMPLEBLOCK);
  }

  /** An unsigned element with these identifier bytes. */
  function UIntSent(id: seq<byte>, val: nat): seq<byte> { id + [0x80 + SizeUInt(val)] + Be(SizeUInt(val), val) }

  /** A seek entry: the identifier as it stands in the file, and its position. */
  lemma {:induction false} SeekSent(id: nat, bytePos: nat)
    requires bytePos < TWO_TO_THE_64
    ensures Declared(SeekElem(id, bytePos), SeekDeclared(id, bytePos))
            == [0x4D, 0xBB] + UniBytes(SeekDeclared(id, bytePos))
               + (([0x53, 0xAB] + UniBytes(|UniBytes(id)|) + UniBytes(id)) + UIntSent([0x53, 0xAC], bytePos))
  {
    hide UniBytes, Bytes, AllBytes, UIntElem, Be, SizeUInt, SeekDeclared, FromBe;
    CueIds();
    var a, b := IdElem(EID_SEEKID, id), UIntElem(EID_SEEKPOSITION, bytePos);
    Unrolled(b, []);
    Unrolled(a, [b]);
    assert [a] + [b] == [a, b];
    StrBytes(EID_SEEKID, UniBytes(id));
    UIntBytes(EID_SEEKPOSITION, bytePos);
  }

  /** Where a track stands at a time. */
  function PlaceSent(track: nat, clusterPos: nat, relaPos: nat): seq<byte> {
    UIntSent([0xF7], track) + (UIntSent([0xF1], clusterPos) + UIntSent([0xF0], relaPos))
  }

  lemma {:induction false} PlaceBytes(track: nat, clusterPos: nat, relaPos: nat)
    requires track < TWO_TO_THE_64 && clusterPos < TWO_TO_THE_64 && relaPos < TWO_TO_THE_64
    ensures Payload(CuePointElem(0, track, clusterPos, relaPos).children[1]) == PlaceSent(track, clusterPos, relaPos)
  {
    hide UniBytes, Bytes, AllBytes, UIntElem, Be, SizeUInt, FromBe;
    CueIds();
    var cs := CuePointElem(0, track, clusterPos, relaPos).children[1].children;
    Unrolled(cs[2], []);
    Unrolled(cs[1], [cs[2]]);
    Unrolled(cs[0], [cs[1], cs[2]]);
    assert [cs[1]] + [cs[2]] == [cs[1], cs[2]] && [cs[0]] + [cs[1], cs[2]] == cs;
    UIntBytes(EID_CUETRACK, track);
    UIntBytes(EID_CUECLUSTERPOSITION, clusterPos);
    UIntBytes(EID_CUERELATIVEPOSITION, relaPos);
  }

  /** A cue point: the time, and behind it the place of the track. */
  lemma {:induction false} CueSent(time: nat, track: nat, clusterPos: nat, relaPos: nat)
    requires time < TWO_TO_THE_64 && track < TWO_TO_THE_64 && clusterPos < TWO_TO_THE_64 && relaPos < TWO_TO_THE_64
    ensures var inner := [0xB7] + UniBytes(|PlaceSent(track, clusterPos, relaPos)|) + PlaceSent(track, clusterPos, relaPos);
            var content := UIntSent([0xB3], time) + inner;
            Bytes(CuePointElem(time, track, clusterPos, relaPos)) == [0xBB] + UniBytes(|content|) + content
  {
    hide UniBytes, AllBytes, UIntElem, Be, SizeUInt, PlaceSent, FromBe;
    CueIds();
    var e := CuePointElem(time, track, clusterPos, relaPos);
    var cs := e.children;
    Unrolled(cs[1], []);
    Unrolled(cs[0], [cs[1]]);
    assert [cs[0]] + [cs[1]] == cs;
    UIntBytes(EID_CUETIME, time);
    PlaceBytes(track, clusterPos, relaPos);
  }

  /** A simple block: the track, the time since the cluster's in 16 bits, 0x80 for a key frame, and the frame. */
  lemma {:induction false} BlockSent(track: nat, time: nat, key: bool, clusterTime: nat, frame: seq<byte>)
    ensures var t := (time - clusterTime) % 0x1_0000;
            Declared(BlockElem(track, time, key, clusterTime, frame), BlockDeclared(track, frame))
            == [0xA3] + UniBytes(BlockDeclared(track, frame))
               + (UniBytes(track) + ([t / 256, t % 256] + ([if key then 0x80 else 0] + frame)))
  {
    hide UniBytes, BlockDeclared, Be;
    CueIds();
    Bytes2((time - clusterTime) % 0x1_0000);
  }
}
