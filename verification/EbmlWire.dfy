/** The bytes on the wire, in plain numbers: variable-length integers, identifiers, and which elements are searched. */
module EbmlWire {
  import opened Basics
  import opened EbmlInt
  import opened EbmlTree

  // ---------------------------------------------------------------- digits

  lemma {:induction false} Bytes1(x: nat)
    ensures Be(1, x) == [x % 256]
  {
    assert Be(0, x / 256) == [];
  }

  lemma {:induction false} Bytes2(x: nat)
    ensures Be(2, x) == [x / 0x100 % 256, x % 256]
  {
    Bytes1(x / 256);
  }

  lemma {:induction false} Bytes3(x: nat)
    ensures Be(3, x) == [x / 0x1_0000 % 256, x / 0x100 % 256, x % 256]
  {
    Bytes2(x / 256);
  }

  /** What is written in up to four bytes: the value under its marker bit. */
  lemma {:induction false} WrittenBytes(v: nat)
    ensures v <= 0x7E ==> UniBytes(v) == [0x80 + v]
    ensures 0x7F <= v <= 0x3FFE ==> UniBytes(v) == [0x40 + v / 0x100, v % 256]
    ensures 0x3FFF <= v <= 0x1F_FFFE ==> UniBytes(v) == [0x20 + v / 0x1_0000, v / 0x100 % 256, v % 256]
    ensures 0x1F_FFFF <= v <= 0xFFF_FFFE ==>
              UniBytes(v) == [0x10 + v / 0x100_0000, v / 0x1_0000 % 256, v / 0x100 % 256, v % 256]
    ensures v > 0xFF_FFFF_FFFF_FFFE ==> UniBytes(v) == [0xFF]
  {
    if v <= 0x7E {
      Bytes1(v + 0x80);
    } else if v <= 0x3FFE {
      Bytes2(v + 0x4000);
    } else if v <= 0x1F_FFFE {
      Written3(v);
    } else if v <= 0xFFF_FFFE {
      Written4(v);
    }
    hide Be;
  }

  lemma {:induction false} Written3(v: nat)
    requires 0x3FFF <= v <= 0x1F_FFFE
    ensures UniBytes(v) == [0x20 + v / 0x1_0000, v / 0x100 % 256, v % 256]
  {
    hide Be;
    Bytes3(v + 0x20_0000);
    var a, r := v / 0x100, v % 0x100;
    assert (v + 0x20_0000) / 0x100 == a + 0x2000 && (v + 0x20_0000) % 256 == r;
  }

  lemma {:induction false} Written4(v: nat)
    requires 0x1F_FFFF <= v <= 0xFFF_FFFE
    ensures UniBytes(v) == [0x10 + v / 0x100_0000, v / 0x1_0000 % 256, v / 0x100 % 256, v % 256]
  {
    hide Be, Pow256;
    Powers();
    MarkedTop(3, v, 0x10);
    Bytes3(v);
    assert UniBytes(v) == Be(4, v + 0x1000_0000);
  }

  /** In the longer widths: one of the bits 8, 4, 2 and 1 of the first byte, and the value in what is left. */
  lemma {:induction false} LongerBytes(v: nat)
    requires 0xFFF_FFFF <= v <= 0xFF_FFFF_FFFF_FFFE
    ensures v <= 0x7_FFFF_FFFE ==> UniBytes(v) == [0x08 + v / 0x1_0000_0000] + Be(4, v)
    ensures 0x7_FFFF_FFFF <= v <= 0x3FF_FFFF_FFFE ==> UniBytes(v) == [0x04 + v / 0x100_0000_0000] + Be(5, v)
    ensures 0x3FF_FFFF_FFFF <= v <= 0x1_FFFF_FFFF_FFFE ==> UniBytes(v) == [0x02 + v / 0x1_0000_0000_0000] + Be(6, v)
    ensures v >= 0x1_FFFF_FFFF_FFFF ==> UniBytes(v) == [0x01] + Be(7, v)
  {
    hide Be, Pow256;
    Powers();
    if v <= 0x7_FFFF_FFFE {
      MarkedTop(4, v, 0x08);
    } else if v <= 0x3FF_FFFF_FFFE {
      MarkedTop(5, v, 0x04);
    } else if v <= 0x1_FFFF_FFFF_FFFE {
      MarkedTop(6, v, 0x02);
    } else {
      MarkedTop(7, v, 0x01);
    }
  }

  /** The first byte alone tells the width: the place of its highest bit; without any bit it is a zero in one byte. */
  lemma {:induction false} WidthOfFirst(first: byte)
    ensures ReadSize(first) == if first >= 128 then 1 else if first >= 64 then 2 else if first >= 32 then 3
                               else if first >= 16 then 4 else if first >= 8 then 5 else if first >= 4 then 6
                               else if first >= 2 then 7 else if first == 1 then 8 else 1
    ensures Readable([0], 0) && ReadInt([0], 0) == 0
  {
    assert [0][..0] == [] && FromBe([]) == 0;
  }

  /** As a signed number it is off by half of 2 to the 7, 14, 21, ... 56, less one; the unknown value counts as -1. */
  lemma {:induction false} SignedIs(data: seq<byte>, i: nat)
    requires Readable(data, i)
    ensures var half := [0x40, 0x2000, 0x10_0000, 0x800_0000, 0x4_0000_0000, 0x200_0000_0000, 0x1_0000_0000_0000,
                         0x80_0000_0000_0000][ReadSize(data[i]) - 1];
            ReadSInt(data, i) == (if ReadInt(data, i) == 0xFFFF_FFFF_FFFF_FFFF then -1 else ReadInt(data, i)) - (half - 1)
  {
    hide ReadInt, ReadSize;
  }

  lemma {:induction false} MarkedTop(w: nat, v: nat, mark: nat)
    requires v / Pow256(w) + mark < 256
    ensures Be(w + 1, v + mark * Pow256(w)) == [v / Pow256(w) + mark] + Be(w, v)
    decreases w
  {
    if w == 0 {
      assert Pow256(0) == 1;
      Bytes1(v + mark);
      assert Be(0, v) == [];
      assert v / 1 == v;
    } else {
      var p := Pow256(w - 1);
      Halved(v, p, mark);
      MarkedTop(w - 1, v / 256, mark);
      Assoc([v / Pow256(w) + mark], Be(w - 1, v / 256), [v % 256]);
    }
  }

  lemma {:induction false} Halved(v: nat, p: nat, mark: nat)
    requires p > 0
    ensures (v + mark * (256 * p)) / 256 == v / 256 + mark * p && (v + mark * (256 * p)) % 256 == v % 256
    ensures v / 256 / p == v / (256 * p)
  {
    assert mark * (256 * p) == 256 * (mark * p);
    var q, r := v / 256 / p, v / 256 % p;
    assert v / 256 == p * q + r;
    assert v == 256 * (p * q + r) + v % 256;
    assert (256 * p) * q == 256 * (p * q);
    DivideExact(v, 256 * p, q);
  }

  // ---------------------------------------------------------------- the master elements

  /** The identifiers, as they stand in a file, of the elements that hold elements: EBML, Segment, Cluster, SeekHead,
      Info, Tracks, Cues, Seek, TrackEntry, Video, Audio, BlockGroup, CuePoint, CueTrackPositions, Colour, Tags, Tag,
      Targets, Chapters in both of its forms, Attachments, AttachedFile, EditionEntry, ChapterAtom, ChapterDisplay and
      SimpleTag. */
  const MASTER_BYTES: seq<seq<byte>> := [
    [0x1A, 0x45, 0xDF, 0xA3], [0x18, 0x53, 0x80, 0x67], [0x1F, 0x43, 0xB6, 0x75], [0x11, 0x4D, 0x9B, 0x74],
    [0x15, 0x49, 0xA9, 0x66], [0x16, 0x54, 0xAE, 0x6B], [0x1C, 0x53, 0xBB, 0x6B], [0x4D, 0xBB], [0xAE], [0xE0], [0xE1],
    [0xA0], [0xBB], [0xB7], [0x55, 0xB0], [0x12, 0x54, 0xC3, 0x67], [0x73, 0x73], [0x63, 0xC0], [0x10, 0x43, 0xA7, 0x70],
    [0x23, 0xA7, 0x70], [0x19, 0x41, 0xA4, 0x69], [0x61, 0xA7], [0x45, 0xB9], [0xB6], [0x80], [0x67, 0xC8]]

  /** The value of each, without the marker bit. */
  const MASTER_VALUES: seq<nat> := [
    0xA45DFA3, 0x8538067, 0xF43B675, 0x14D9B74, 0x549A966, 0x654AE6B, 0xC53BB6B, 0xDBB, 0x2E, 0x60, 0x61, 0x20, 0x3B,
    0x37, 0x15B0, 0x254C367, 0x3373, 0x23C0, 0x43A770, 0x3A770, 0x941A469, 0x21A7, 0x5B9, 0x36, 0, 0x27C8]

  lemma {:induction false} ValueBytes0(k: nat)
    requires k < 7
    ensures UniBytes(MASTER_VALUES[k]) == MASTER_BYTES[k]
  {
    hide UniBytes;
    WrittenBytes(MASTER_VALUES[k]);
  }

  lemma {:induction false} ValueBytes1(k: nat)
    requires 7 <= k < 15
    ensures UniBytes(MASTER_VALUES[k]) == MASTER_BYTES[k]
  {
    hide UniBytes;
    WrittenBytes(MASTER_VALUES[k]);
  }

  lemma {:induction false} ValueBytes2(k: nat)
    requires 15 <= k < 21
    ensures UniBytes(MASTER_VALUES[k]) == MASTER_BYTES[k]
  {
    hide UniBytes;
    WrittenBytes(MASTER_VALUES[k]);
  }

  lemma {:induction false} ValueBytes3(k: nat)
    requires 21 <= k < 26
    ensures UniBytes(MASTER_VALUES[k]) == MASTER_BYTES[k]
  {
    hide UniBytes;
    WrittenBytes(MASTER_VALUES[k]);
  }

  lemma {:induction false} ValueBytes(k: nat)
    requires k < 26
    ensures UniBytes(MASTER_VALUES[k]) == MASTER_BYTES[k]
  {
    hide *;
    if k < 7 {
      ValueBytes0(k);
    } else if k < 15 {
      ValueBytes1(k);
    } else if k < 21 {
      ValueBytes2(k);
    } else {
      ValueBytes3(k);
    }
  }

  lemma {:induction false} MastersAre(id: nat)
    ensures IsMaster(id) <==> exists k :: 0 <= k < 26 && MASTER_VALUES[k] == id
  {
    if IsMaster(id) {
      var vs := MASTER_VALUES;
      assert id in vs by {
        assert vs[0] in vs && vs[1] in vs && vs[2] in vs && vs[3] in vs && vs[4] in vs && vs[5] in vs && vs[6] in vs;
        assert vs[7] in vs && vs[8] in vs && vs[9] in vs && vs[10] in vs && vs[11] in vs && vs[12] in vs && vs[13] in vs;
        assert vs[14] in vs && vs[15] in vs && vs[16] in vs && vs[17] in vs && vs[18] in vs && vs[19] in vs;
        assert vs[20] in vs && vs[21] in vs && vs[22] in vs && vs[23] in vs && vs[24] in vs && vs[25] in vs;
      }
    }
  }

  lemma {:induction false} SameBytes(a: nat, b: nat)
    requires UniBytes(a) == UniBytes(b) && a <= MAX_VALUE && b <= MAX_VALUE
    ensures a == b
  {
    hide UniBytes, ReadInt, ReadSize;
    AtStart(UniBytes(a), []);
    UniBytesRead(UniBytes(a), 0, a);
    UniBytesRead(UniBytes(b), 0, b);
  }

  /** The identifiers of the elements that are descended into are exactly the 26 of the list. */
  lemma {:induction false} MastersOnWire(id: nat)
    requires id < TWO_TO_THE_32
    ensures IsMaster(id) <==> UniBytes(id) in MASTER_BYTES
  {
    hide UniBytes, IsMaster;
    MastersAre(id);
    if IsMaster(id) {
      var k :| 0 <= k < 26 && MASTER_VALUES[k] == id;
      ValueBytes(k);
    } else if UniBytes(id) in MASTER_BYTES {
      var k :| 0 <= k < 26 && MASTER_BYTES[k] == UniBytes(id);
      ValueBytes(k);
      assert MASTER_VALUES[k] <= MAX_VALUE;
      SameBytes(id, MASTER_VALUES[k]);
      assert false;
    }
  }

  /** An identifier read from any of these bytes is descended into. */
  lemma {:induction false} MasterRead(data: seq<byte>, i: nat, k: nat)
    requires k < 26 && At(data, i, MASTER_BYTES[k])
    ensures Readable(data, i) && IsMaster(GetID(data, i))
  {
    hide UniBytes, ReadInt, ReadSize, IsMaster, At;
    ValueBytes(k);
    UniBytesRead(data, i, MASTER_VALUES[k]);
    assert MASTER_VALUES[k] < TWO_TO_THE_32;
    MastersAre(MASTER_VALUES[k]);
  }

  /** Whatever else is read is not, however it is written: its shortest form is not among them. */
  lemma {:induction false} OthersNotRead(data: seq<byte>, i: nat)
    requires Readable(data, i)
    ensures IsMaster(GetID(data, i)) <==> UniBytes(GetID(data, i)) in MASTER_BYTES
  {
    MastersOnWire(GetID(data, i));
  }

  /** A tree of known-size elements that holds elements exactly where the list says so. */
  predicate Listed(e: Elem)
    decreases e
  {
    && e.id < TWO_TO_THE_32 && (e.Master? <==> UniBytes(e.id) in MASTER_BYTES) && |Payload(e)| <= MAX_VALUE
    && (e.Master? ==> AllListed(e.children))
  }

  predicate AllListed(cs: seq<Elem>)
    decreases cs
  {
    cs == [] || (Listed(cs[0]) && AllListed(cs[1..]))
  }

  lemma {:induction false} ListedIsValid(e: Elem)
    ensures Listed(e) <==> Valid(e)
    decreases e, 1
  {
    hide UniBytes, IsMaster, Payload;
    if e.id < TWO_TO_THE_32 {
      MastersOnWire(e.id);
    }
    if e.Master? {
      AllListedAreValid(e.children);
    }
  }

  lemma {:induction false} AllListedAreValid(cs: seq<Elem>)
    ensures AllListed(cs) <==> AllValid(cs)
    decreases cs, 0
  {
    hide Listed, Valid;
    if cs != [] {
      ListedIsValid(cs[0]);
      AllListedAreValid(cs[1..]);
    }
  }

  /** findChild on such a tree returns the first element with the identifier in pre-order, or none. */
  lemma {:induction false} FindsFirstListed(data: seq<byte>, i: nat, e: Elem, id: nat)
    requires Listed(e) && At(data, i, Bytes(e))
    ensures Whole(data, i) && Valid(e) && FindChild(data, i, id) == First(Preorder(e, i), id)
  {
    hide FindChild, Preorder, Bytes, At;
    ListedIsValid(e);
    FindsFirst(data, i, e, id);
  }

  /** A track entry whose video part holds a width of 1920: the search for the width finds it at position 4. */
  lemma {:induction false} WidthIsFound()
    ensures var data: seq<byte> := [0xAE, 0x86, 0xE0, 0x84, 0xB0, 0x82, 0x07, 0x80];
            Whole(data, 0) && FindChild(data, 0, 0x30) == Found(4)
  {
    hide UniBytes, FindChild, At;
    var width := Leaf(0x30, [0x07, 0x80]);
    var video := Master(0x60, [width]);
    var entry := Master(0x2E, [video]);
    WrittenBytes(0x30);
    WrittenBytes(2);
    WrittenBytes(0x60);
    WrittenBytes(4);
    WrittenBytes(0x2E);
    WrittenBytes(6);
    OnlyChild(width);
    OnlyChild(video);
    assert Bytes(width) == [0xB0, 0x82, 0x07, 0x80];
    assert Bytes(video) == [0xE0, 0x84, 0xB0, 0x82, 0x07, 0x80];
    assert Bytes(entry) == [0xAE, 0x86, 0xE0, 0x84, 0xB0, 0x82, 0x07, 0x80];
    ShortId(0x30);
    ShortId(0x60);
    ShortId(0x2E);
    assert Valid(width);
    OnlyPlace(width, 4);
    assert Valid(video);
    OnlyPlace(video, 2);
    assert Valid(entry);
    AtStart(Bytes(entry), []);
    FindsFirst(Bytes(entry), 0, entry, 0x30);
    assert Preorder(width, 4) == [Place(0x30, 4)];
    assert Preorder(video, 2) == [Place(0x60, 2), Place(0x30, 4)];
    assert Preorder(entry, 0) == [Place(0x2E, 0), Place(0x60, 2), Place(0x30, 4)];
    var places := Preorder(entry, 0);
    assert First(places[1..][1..], 0x30) == Found(4);
  }

  lemma {:induction false} ShortId(id: nat)
    requires id in {0x2E, 0x30, 0x60}
    ensures IsMaster(id) <==> id != 0x30
  {
  }

  lemma {:induction false} OnlyChild(e: Elem)
    ensures AllBytes([e]) == Bytes(e)
  {
    assert [e][1..] == [];
  }

  lemma {:induction false} OnlyPlace(e: Elem, at: nat)
    requires Valid(e)
    ensures AllValid([e]) && PreorderAll([e], at) == Preorder(e, at)
  {
    assert [e][1..] == [];
  }
}
