/** Block headers and lace tables in plain numbers. */
module EbmlBlockWire {
  import opened Basics
  import opened EbmlBlock
  import opened EbmlInt
  import opened EbmlWire

  /** A payload that begins with a track number, a 16-bit time and a byte of flags: the highest bit says key frame, the
      bit of value 8 invisible, the bits of values 4 and 2 the lacing, and the lowest bit discardable. */
  lemma {:induction false} HeadRead(p: seq<byte>, track: nat, hi: byte, lo: byte,
                                    key: nat, spare: nat, invisible: nat, lacing: nat, discardable: nat)
    requires key < 2 && spare < 8 && invisible < 2 && lacing < 4 && discardable < 2 && track <= MAX_VALUE
    requires At(p, 0, UniBytes(track) + [hi, lo, 0x80 * key + 0x10 * spare + 0x08 * invisible + 0x02 * lacing + discardable])
    ensures Headed(p) && HeadEnd(p) == |UniBytes(track)| + 3 && GetTrackNum(p) == track
    ensures GetTimecode(p) == if hi >= 0x80 then hi * 0x100 + lo - 0x1_0000 else hi * 0x100 + lo
    ensures (IsKeyframe(p) <==> key == 1) && (IsInvisible(p) <==> invisible == 1) && (IsDiscardable(p) <==> discardable == 1)
    ensures GetLacing(p) == lacing
  {
    FlagParts(key, spare, invisible, lacing, discardable);
    hide UniBytes, ReadInt, ReadSize, WriteSize, At;
    var t, flags: byte := UniBytes(track), 0x80 * key + 0x10 * spare + 0x08 * invisible + 0x02 * lacing + discardable;
    AtFits(p, 0, t + [hi, lo, flags]);
    AtSplit(p, 0, t, [hi, lo, flags]);
    UniBytesRead(p, 0, track);
    AtIndex(p, |t|, [hi, lo, flags], 0);
    AtIndex(p, |t|, [hi, lo, flags], 1);
    AtIndex(p, |t|, [hi, lo, flags], 2);
  }

  lemma {:induction false} FlagParts(key: nat, spare: nat, invisible: nat, lacing: nat, discardable: nat)
    requires key < 2 && spare < 8 && invisible < 2 && lacing < 4 && discardable < 2
    ensures var flags := 0x80 * key + 0x10 * spare + 0x08 * invisible + 0x02 * lacing + discardable;
            && flags < 256 && (flags / 0x80 % 2 == 1 <==> key == 1) && (flags / 0x08 % 2 == 1 <==> invisible == 1)
            && (flags % 2 == 1 <==> discardable == 1) && flags / 2 % 4 == lacing
  {
    var low := 0x02 * lacing + discardable;
    assert (0x80 * key + 0x10 * spare + 0x08 * invisible + low) / 0x08 == 0x10 * key + 2 * spare + invisible;
    assert (0x80 * key + 0x10 * spare + 0x08 * invisible + low) / 2 == 4 * (0x10 * key + 2 * spare + invisible) + lacing;
  }

  /** The four lacings by the flags alone; with any of them but the first the next byte is the number of frames less
      one, and without there is one frame. */
  lemma {:induction false} LacingRead(p: seq<byte>, track: nat, hi: byte, lo: byte, flags: byte, count: byte)
    requires track <= MAX_VALUE && At(p, 0, UniBytes(track) + [hi, lo, flags, count])
    ensures Headed(p) && Counted(p)
    ensures flags == 0x00 ==> GetLacing(p) == 0 && GetFrameCount(p) == 1
    ensures flags == 0x02 ==> GetLacing(p) == 1 && GetFrameCount(p) == if count < 255 then count + 1 else 0
    ensures flags == 0x04 ==> GetLacing(p) == 2 && GetFrameCount(p) == if count < 255 then count + 1 else 0
    ensures flags == 0x06 ==> GetLacing(p) == 3 && GetFrameCount(p) == if count < 255 then count + 1 else 0
  {
    hide UniBytes, ReadInt, ReadSize, WriteSize, At;
    var t := UniBytes(track);
    AtFits(p, 0, t + [hi, lo, flags, count]);
    AtSplit(p, 0, t, [hi, lo, flags, count]);
    UniBytesRead(p, 0, track);
    AtIndex(p, |t|, [hi, lo, flags, count], 2);
    AtIndex(p, |t|, [hi, lo, flags, count], 3);
  }

  /** The example of sections 10.3.2 and 10.3.3 of RFC 9559: frames of 800, 500 and 1000 bytes. */
  lemma {:induction false} ExampleTables(frames: seq<seq<byte>>)
    requires |frames| == 3 && |frames[0]| == 800 && |frames[1]| == 500 && |frames[2]| == 1000
    ensures XiphTable(frames) == [0xFF, 0xFF, 0xFF, 0x23, 0xFF, 0xF5]
    ensures Codable(frames, [2, 2], None) && EbmlTable(frames, [2, 2], None) == [0x43, 0x20, 0x5E, 0xD3]
  {
    assert frames[1..][1..] == frames[2..] && frames[2..] == [frames[2]];
    ExampleXiph();
    Bytes2(800 + 0x4000);
    Bytes2(500 - 800 + 0x1FFF + 0x4000);
    ExampleCodable(frames);
    hide XiphCode, Be;
    var rest := frames[1..];
    assert XiphTable(frames[2..]) == [];
    assert XiphTable(rest) == XiphCode(500) + [];
    assert EbmlTable(rest, [2], Some(800)) == SignedCode(2, 500 - 800) + [];
  }

  lemma {:induction false} ExampleXiph()
    ensures XiphCode(800) == [0xFF, 0xFF, 0xFF, 0x23] && XiphCode(500) == [0xFF, 0xF5]
  {
    assert XiphCode(290) == [255] + XiphCode(35);
    assert XiphCode(545) == [255] + XiphCode(290);
  }

  lemma {:induction false} ExampleCodable(frames: seq<seq<byte>>)
    requires |frames| == 3 && |frames[0]| == 800 && |frames[1]| == 500 && |frames[2]| == 1000
    ensures Codable(frames, [2, 2], None) && Codable(frames[1..], [2], Some(800)) && Codable(frames[1..][1..], [], Some(500))
  {
    assert [2, 2][1..] == [2];
  }
}
