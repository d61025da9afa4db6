/** Block payloads: the header fields and the four ways of lacing several frames into one block
    (section 10 of RFC 9559). */
module EbmlBlock {
  import opened Basics
  import opened EbmlInt
  import opened EbmlWriter

  // ---------------------------------------------------------------- the header fields

  /** Track number, time and flags are there; p is the payload of the block element. */
  predicate Headed(p: seq<byte>) {
    Readable(p, 0) && ReadSize(p[0]) + 3 <= |p|
  }

  function HeadEnd(p: seq<byte>): nat
    requires Headed(p)
  {
    ReadSize(p[0]) + 3
  }

  function GetTrackNum(p: seq<byte>): nat
    requires Headed(p)
  {
    ReadInt(p, 0)
  }

  /** 16 bits read as a signed number. */
  function Signed16(x: nat): int { if x >= 0x8000 then x - 0x1_0000 else x }

  function GetTimecode(p: seq<byte>): int
    requires Headed(p)
  {
    Signed16(Join16(p[HeadEnd(p) - 3], p[HeadEnd(p) - 2]))
  }

  function Flags(p: seq<byte>): nat
    requires Headed(p)
  {
    p[HeadEnd(p) - 1]
  }

  predicate IsKeyframe(p: seq<byte>) requires Headed(p) { Flags(p) / 0x80 % 2 == 1 }

  predicate IsInvisible(p: seq<byte>) requires Headed(p) { Flags(p) / 0x08 % 2 == 1 }

  predicate IsDiscardable(p: seq<byte>) requires Headed(p) { Flags(p) % 2 == 1 }

  /** 0 none, 1 Xiph, 2 fixed size, 3 EBML */
  function GetLacing(p: seq<byte>): (r: nat)
    requires Headed(p)
    ensures r < 4
  {
    Flags(p) / 2 % 4
  }

  predicate Counted(p: seq<byte>) {
    Headed(p) && (GetLacing(p) != 0 ==> HeadEnd(p) < |p|)
  }

  /** getFrameCount, an 8-bit number: a stored count of 255 wraps to 0. */
  function GetFrameCount(p: seq<byte>): (r: nat)
    requires Counted(p)
    ensures r < 256
  {
    if GetLacing(p) == 0 then 1 else (p[HeadEnd(p)] as nat + 1) % 256
  }

  // ---------------------------------------------------------------- frame sizes and positions as the code finds them

  function Wrap32(x: int): nat { x % TWO_TO_THE_32 }

  function XiphSize(p: seq<byte>, offset: nat, no: nat, frames: nat, laceNo: nat, curr: nat, tot: nat): nat
    decreases |p| - offset
  {
    if laceNo <= no && laceNo + 1 < frames && offset < |p| then
      var c := Wrap32(curr + p[offset] as nat);
      if p[offset] == 255 then XiphSize(p, offset + 1, no, frames, laceNo, c, tot)
      else if laceNo == no then c
      else XiphSize(p, offset + 1, no, frames, laceNo + 1, 0, Wrap32(tot + c))
    else Wrap32(|p| - offset - tot)
  }

  function XiphData(p: seq<byte>, offset: nat, no: nat, frames: nat, laceNo: nat, curr: nat): nat
    decreases |p| - offset
  {
    if laceNo + 1 < frames && offset < |p| then
      XiphData(p, offset + 1, no, frames, if p[offset] != 255 then laceNo + 1 else laceNo,
               if laceNo < no then Wrap32(curr + p[offset] as nat) else curr)
    else offset + curr
  }

  /** The size an EBML lace entry stands for. */
  function NextSize(p: seq<byte>, offset: nat, laceNo: nat, curr: nat): nat
    requires Readable(p, offset)
  {
    if laceNo == 0 then Wrap32(ReadInt(p, offset)) else Wrap32(curr + ReadSInt(p, offset))
  }

  /** None where a lace entry would be read past the payload. */
  function EbmlSize(p: seq<byte>, offset: nat, no: nat, frames: nat, laceNo: nat, curr: nat, tot: nat): Option<nat>
    decreases |p| - offset
  {
    if laceNo <= no && laceNo + 1 < frames && offset < |p| then
      if !Readable(p, offset) then None
      else
        var c := NextSize(p, offset, laceNo, curr);
        if laceNo == no then Some(c)
        else EbmlSize(p, offset + ReadSize(p[offset]), no, frames, laceNo + 1, c, Wrap32(tot + c))
    else Some(Wrap32(|p| - offset - tot))
  }

  function EbmlData(p: seq<byte>, offset: nat, no: nat, frames: nat, laceNo: nat, curr: nat, tot: nat): Option<nat>
    decreases |p| - offset
  {
    if laceNo + 1 < frames && offset < |p| then
      if !Readable(p, offset) then None
      else
        var c := NextSize(p, offset, laceNo, curr);
        EbmlData(p, offset + ReadSize(p[offset]), no, frames, laceNo + 1, c, if laceNo < no then Wrap32(tot + c) else tot)
    else Some(offset + tot)
  }

  /** getFrameSize; None where the code would read past the payload or divide by zero. */
  function FrameSize(p: seq<byte>, no: nat): Option<nat>
    requires Counted(p)
  {
    var n := GetFrameCount(p);
    var start := HeadEnd(p) + 1;
    if GetLacing(p) == 0 then Some(Wrap32(|p| - HeadEnd(p)))
    else if GetLacing(p) == 2 then
      if n == 0 then None else Some(Wrap32((|p| - HeadEnd(p)) / n))
    else if no + 1 > n then Some(0)
    else if GetLacing(p) == 1 then Some(XiphSize(p, start, no, n, 0, 0, 0))
    else EbmlSize(p, start, no, n, 0, 0, 0)
  }

  /** Where a frame's data starts in the payload, if anywhere. */
  datatype Where = Starts(at: nat) | Null | Unreadable

  function Position(r: Option<nat>): Where { match r case None => Unreadable case Some(at) => Starts(at) }

  /** getFrameData */
  function FrameData(p: seq<byte>, no: nat): Where
    requires Counted(p)
  {
    var n := GetFrameCount(p);
    var start := HeadEnd(p) + 1;
    if GetLacing(p) == 0 then Starts(HeadEnd(p))
    else if GetLacing(p) == 2 then
      match FrameSize(p, no)
      case None => Unreadable
      case Some(size) => Starts(start + Wrap32(no * size))
    else if no + 1 > n then Null
    else if GetLacing(p) == 1 then Starts(XiphData(p, start, no, n, 0, 0))
    else Position(EbmlData(p, start, no, n, 0, 0, 0))
  }

  // ---------------------------------------------------------------- what a lacer puts in

  function Concat(frames: seq<seq<byte>>): seq<byte> {
    if frames == [] then [] else frames[0] + Concat(frames[1..])
  }

  /** How far frame k starts behind the first frame. */
  function Start(frames: seq<seq<byte>>, k: int): nat {
    if k <= 0 || frames == [] then 0 else |frames[0]| + Start(frames[1..], k - 1)
  }

  /** Frames follow each other without gap or overlap, and the last one ends where the data does. */
  lemma {:induction false} StartsTile(frames: seq<seq<byte>>, k: nat)
    requires k < |frames|
    ensures Start(frames, k + 1) == Start(frames, k) + |frames[k]|
    ensures Start(frames, |frames|) == |Concat(frames)|
    ensures Start(frames, k) + |frames[k]| <= |Concat(frames)|
  {
    if |frames| > 1 {
      StartsTile(frames[1..], if k > 0 then k - 1 else 0);
    }
  }

  lemma {:induction false} FrameFound(p: seq<byte>, at: nat, frames: seq<seq<byte>>, k: nat)
    requires At(p, at, Concat(frames)) && k < |frames|
    ensures At(p, at + Start(frames, k), frames[k])
    decreases frames
  {
    hide At;
    AtSplit(p, at, frames[0], Concat(frames[1..]));
    if k > 0 {
      FrameFound(p, at + |frames[0]|, frames[1..], k - 1);
    }
  }

  /** A size in Xiph form: 255 for every full 255, then the rest. */
  function XiphCode(size: nat): (r: seq<byte>)
    ensures |r| >= 1
  {
    if size < 255 then [size] else [255] + XiphCode(size - 255)
  }

  /** The sizes of all frames but the last. */
  function XiphTable(frames: seq<seq<byte>>): seq<byte> {
    if |frames| <= 1 then [] else XiphCode(|frames[0]|) + XiphTable(frames[1..])
  }

  /** The widths fit the first size and the differences between sizes. */
  predicate Codable(frames: seq<seq<byte>>, widths: seq<nat>, prev: Option<nat>) {
    |frames| <= 1 ||
    (&& widths != [] && 1 <= widths[0] <= 8
     && (prev.None? ==> |frames[0]| < Marker(widths[0]) && (widths[0] > 1 || |frames[0]| < 0x7F))
     && (prev.Some? ==> -Bias(widths[0]) <= |frames[0]| - prev.value <= Bias(widths[0]))
     && Codable(frames[1..], widths[1..], Some(|frames[0]|)))
  }

  function EbmlCode(width: nat, size: nat, prev: Option<nat>): (r: seq<byte>)
    requires 1 <= width <= 8 && (prev.Some? ==> -Bias(width) <= size - prev.value <= Bias(width))
    ensures |r| == width
  {
    if prev.None? then Coded(width, size) else SignedCode(width, size - prev.value)
  }

  /** The first size, then the differences, each in a width of the lacer's choice; the last frame has no entry. */
  function EbmlTable(frames: seq<seq<byte>>, widths: seq<nat>, prev: Option<nat>): seq<byte>
    requires Codable(frames, widths, prev)
  {
    if |frames| <= 1 then []
    else EbmlCode(widths[0], |frames[0]|, prev) + EbmlTable(frames[1..], widths[1..], Some(|frames[0]|))
  }

  /** Behind the header stand the frame count less one, a lace table and the frames, and nothing else. */
  predicate Laced(p: seq<byte>, lacing: nat, table: seq<byte>, frames: seq<seq<byte>>) {
    && Counted(p) && GetLacing(p) == lacing && 1 <= |frames| <= 255 && HeadEnd(p) < |p| && p[HeadEnd(p)] == |frames| - 1
    && At(p, HeadEnd(p) + 1, table + Concat(frames)) && |p| == HeadEnd(p) + 1 + |table| + |Concat(frames)|
    && |p| < TWO_TO_THE_32
  }

  /** The reader returns frame `no`: its exact size, and a position at which it stands. */
  predicate Recovered(p: seq<byte>, no: nat, frames: seq<seq<byte>>)
    requires Counted(p) && no < |frames|
  {
    && FrameSize(p, no) == Some(|frames[no]|) && |Concat(frames)| <= |p|
    && FrameData(p, no) == Starts(|p| - |Concat(frames)| + Start(frames, no))
    && At(p, |p| - |Concat(frames)| + Start(frames, no), frames[no])
  }

  // ---------------------------------------------------------------- Xiph lacing

  lemma {:induction false} Unwrapped(x: int)
    requires 0 <= x < TWO_TO_THE_32
    ensures Wrap32(x) == x
  {
  }

  lemma {:induction false} XiphFull(p: seq<byte>, offset: nat, no: nat, frames: nat, laceNo: nat, curr: nat, tot: nat)
    requires laceNo <= no && laceNo + 1 < frames && offset < |p| && curr + 255 < TWO_TO_THE_32 && p[offset] == 255
    ensures XiphSize(p, offset, no, frames, laceNo, curr, tot) == XiphSize(p, offset + 1, no, frames, laceNo, curr + 255, tot)
  {
    hide Wrap32;
    Unwrapped(curr + 255);
  }

  lemma {:induction false} XiphLast(p: seq<byte>, offset: nat, no: nat, frames: nat, laceNo: nat, curr: nat, tot: nat)
    requires laceNo <= no && laceNo + 1 < frames && offset < |p| && curr + tot + p[offset] as nat < TWO_TO_THE_32
    requires p[offset] != 255
    ensures XiphSize(p, offset, no, frames, laceNo, curr, tot) ==
            if laceNo == no then curr + p[offset] as nat
            else XiphSize(p, offset + 1, no, frames, laceNo + 1, 0, tot + curr + p[offset] as nat)
  {
    hide Wrap32;
    Unwrapped(curr + p[offset] as nat);
    Unwrapped(tot + (curr + p[offset] as nat));
  }

  lemma {:induction false} XiphCodeSize(p: seq<byte>, offset: nat, no: nat, frames: nat, laceNo: nat, curr: nat,
                                        tot: nat, size: nat)
    requires At(p, offset, XiphCode(size)) && laceNo <= no && laceNo + 1 < frames
    requires curr + tot + size < TWO_TO_THE_32
    ensures XiphSize(p, offset, no, frames, laceNo, curr, tot) ==
            if laceNo == no then curr + size
            else XiphSize(p, offset + |XiphCode(size)|, no, frames, laceNo + 1, 0, tot + curr + size)
    decreases size
  {
    hide XiphSize;
    AtIndex(p, offset, XiphCode(size), 0);
    if size < 255 {
      XiphLast(p, offset, no, frames, laceNo, curr, tot);
    } else {
      XiphFull(p, offset, no, frames, laceNo, curr, tot);
      AtSplit(p, offset, [255], XiphCode(size - 255));
      XiphCodeSize(p, offset + 1, no, frames, laceNo, curr + 255, tot, size - 255);
    }
  }

  lemma {:induction false} XiphDataStep(p: seq<byte>, offset: nat, no: nat, frames: nat, laceNo: nat, curr: nat)
    requires laceNo + 1 < frames && offset < |p| && curr + p[offset] as nat < TWO_TO_THE_32
    ensures XiphData(p, offset, no, frames, laceNo, curr)
            == XiphData(p, offset + 1, no, frames, if p[offset] != 255 then laceNo + 1 else laceNo,
                        if laceNo < no then curr + p[offset] as nat else curr)
  {
    hide Wrap32;
    Unwrapped(curr + p[offset] as nat);
  }

  lemma {:induction false} XiphCodeData(p: seq<byte>, offset: nat, no: nat, frames: nat, laceNo: nat, curr: nat,
                                        size: nat)
    requires At(p, offset, XiphCode(size)) && laceNo + 1 < frames && curr + size < TWO_TO_THE_32
    ensures XiphData(p, offset, no, frames, laceNo, curr)
            == XiphData(p, offset + |XiphCode(size)|, no, frames, laceNo + 1, if laceNo < no then curr + size else curr)
    decreases size
  {
    hide XiphData;
    AtIndex(p, offset, XiphCode(size), 0);
    XiphDataStep(p, offset, no, frames, laceNo, curr);
    if size >= 255 {
      AtSplit(p, offset, [255], XiphCode(size - 255));
      XiphCodeData(p, offset + 1, no, frames, laceNo, if laceNo < no then curr + 255 else curr, size - 255);
    }
  }

  /** From lace j on: frames before j took `tot` bytes, fs are the frames from j. */
  lemma {:induction false} XiphSizeFrom(p: seq<byte>, offset: nat, j: nat, fs: seq<seq<byte>>, k: nat, tot: nat)
    requires k < |fs| && At(p, offset, XiphTable(fs)) && |p| < TWO_TO_THE_32
    requires |p| == offset + |XiphTable(fs)| + tot + |Concat(fs)|
    ensures XiphSize(p, offset, j + k, j + |fs|, j, 0, tot) == |fs[k]|
    decreases fs
  {
    hide At, XiphCode;
    if |fs| == 1 {
      OneFrame(fs);
    } else {
      var size := |fs[0]|;
      AtSplit(p, offset, XiphCode(size), XiphTable(fs[1..]));
      XiphCodeSize(p, offset, j + k, j + |fs|, j, 0, tot, size);
      if k > 0 {
        hide XiphSize;
        XiphSizeFrom(p, offset + |XiphCode(size)|, j + 1, fs[1..], k - 1, tot + size);
      }
    }
  }

  lemma {:induction false} OneFrame(fs: seq<seq<byte>>)
    requires |fs| == 1
    ensures Concat(fs) == fs[0]
  {
    assert fs[1..] == [];
  }

  lemma {:induction false} XiphDataFrom(p: seq<byte>, offset: nat, no: nat, j: nat, fs: seq<seq<byte>>, curr: nat)
    requires fs != [] && no < j + |fs| && At(p, offset, XiphTable(fs)) && curr + |Concat(fs)| < TWO_TO_THE_32
    ensures XiphData(p, offset, no, j + |fs|, j, curr) == offset + |XiphTable(fs)| + curr + Start(fs, no - j)
    decreases fs
  {
    if |fs| == 1 {
      hide At, XiphCode;
    } else {
      hide At, XiphCode, XiphData, XiphTable, Concat, Start;
      var size := |fs[0]|;
      AtSplit(p, offset, XiphCode(size), XiphTable(fs[1..]));
      XiphCodeData(p, offset, no, j + |fs|, j, curr, size);
      XiphDataFrom(p, offset + |XiphCode(size)|, no, j + 1, fs[1..], if j < no then curr + size else curr);
    }
  }

  /** Every frame of a Xiph-laced block is recovered. */
  lemma {:induction false} XiphRecovered(p: seq<byte>, frames: seq<seq<byte>>, no: nat)
    requires Laced(p, 1, XiphTable(frames), frames) && no < |frames|
    ensures Recovered(p, no, frames)
  {
    hide At, XiphSize, XiphData, XiphTable, XiphCode, Concat, Start, Flags, ReadSize, Readable;
    var start := HeadEnd(p) + 1;
    AtSplit(p, start, XiphTable(frames), Concat(frames));
    XiphSizeFrom(p, start, 0, frames, no, 0);
    XiphDataFrom(p, start, no, 0, frames, 0);
    FrameFound(p, start + |XiphTable(frames)|, frames, no);
  }

  // ---------------------------------------------------------------- EBML lacing

  lemma {:induction false} EbmlCodeReads(p: seq<byte>, offset: nat, width: nat, size: nat, prev: Option<nat>,
                                         laceNo: nat, curr: nat)
    requires 1 <= width <= 8 && size < TWO_TO_THE_32 && (laceNo == 0 <==> prev.None?)
    requires prev.None? ==> size < Marker(width) && (width > 1 || size < 0x7F)
    requires prev.Some? ==> -Bias(width) <= size - prev.value <= Bias(width) && curr == prev.value
    requires At(p, offset, EbmlCode(width, size, prev))
    ensures Readable(p, offset) && ReadSize(p[offset]) == width && NextSize(p, offset, laceNo, curr) == size
  {
    hide ReadInt, ReadSInt, Coded, SignedCode, Bias, Marker;
    if prev.None? {
      CodedReads(p, offset, width, size);
    } else {
      SignedReads(p, offset, width, size - prev.value);
    }
  }

  /** curr and the previous size agree once there is one. */
  predicate Before(j: nat, prev: Option<nat>, curr: nat) {
    (j == 0 <==> prev.None?) && (prev.Some? ==> curr == prev.value)
  }

  lemma {:induction false} EbmlSizeStep(p: seq<byte>, offset: nat, no: nat, frames: nat, j: nat, curr: nat, tot: nat,
                                        width: nat, size: nat)
    requires j <= no && j + 1 < frames && Readable(p, offset) && ReadSize(p[offset]) == width
    requires NextSize(p, offset, j, curr) == size && tot + size < TWO_TO_THE_32
    ensures EbmlSize(p, offset, no, frames, j, curr, tot)
            == if j == no then Some(size) else EbmlSize(p, offset + width, no, frames, j + 1, size, tot + size)
  {
    hide Wrap32, NextSize, ReadSize;
    Unwrapped(tot + size);
  }

  lemma {:induction false} EbmlDataStep(p: seq<byte>, offset: nat, no: nat, frames: nat, j: nat, curr: nat, tot: nat,
                                        width: nat, size: nat)
    requires j + 1 < frames && Readable(p, offset) && ReadSize(p[offset]) == width
    requires NextSize(p, offset, j, curr) == size && tot + size < TWO_TO_THE_32
    ensures EbmlData(p, offset, no, frames, j, curr, tot)
            == EbmlData(p, offset + width, no, frames, j + 1, size, if j < no then tot + size else tot)
  {
    hide Wrap32, NextSize, ReadSize;
    Unwrapped(tot + size);
  }

  /** The first entry of a lace table and what follows it. */
  lemma {:induction false} TableSplits(p: seq<byte>, offset: nat, fs: seq<seq<byte>>, widths: seq<nat>,
                                       prev: Option<nat>, j: nat, curr: nat)
    requires |fs| > 1 && Codable(fs, widths, prev) && Before(j, prev, curr) && At(p, offset, EbmlTable(fs, widths, prev))
    requires |Concat(fs)| < TWO_TO_THE_32
    ensures widths != [] && Codable(fs[1..], widths[1..], Some(|fs[0]|)) && Before(j + 1, Some(|fs[0]|), |fs[0]|)
    ensures Readable(p, offset) && ReadSize(p[offset]) == widths[0] && NextSize(p, offset, j, curr) == |fs[0]|
    ensures At(p, offset + widths[0], EbmlTable(fs[1..], widths[1..], Some(|fs[0]|)))
    ensures |EbmlTable(fs, widths, prev)| == widths[0] + |EbmlTable(fs[1..], widths[1..], Some(|fs[0]|))|
    ensures |Concat(fs)| == |fs[0]| + |Concat(fs[1..])|
  {
    hide At, EbmlCode, NextSize, Readable, ReadSize, Bias, Marker;
    AtSplit(p, offset, EbmlCode(widths[0], |fs[0]|, prev), EbmlTable(fs[1..], widths[1..], Some(|fs[0]|)));
    EbmlCodeReads(p, offset, widths[0], |fs[0]|, prev, j, curr);
  }

  lemma {:induction false} EbmlSizeEnd(p: seq<byte>, offset: nat, no: nat, j: nat, curr: nat, tot: nat)
    ensures EbmlSize(p, offset, no, j + 1, j, curr, tot) == Some(Wrap32(|p| - offset - tot))
  {
  }

  lemma {:induction false} EbmlSizeFrom(p: seq<byte>, offset: nat, j: nat, fs: seq<seq<byte>>, widths: seq<nat>,
                                        prev: Option<nat>, k: nat, curr: nat, tot: nat)
    requires k < |fs| && Codable(fs, widths, prev) && Before(j, prev, curr) && At(p, offset, EbmlTable(fs, widths, prev))
    requires |p| < TWO_TO_THE_32 && |p| == offset + |EbmlTable(fs, widths, prev)| + tot + |Concat(fs)|
    ensures EbmlSize(p, offset, j + k, j + |fs|, j, curr, tot) == Some(|fs[k]|)
    decreases fs
  {
    hide *;
    if |fs| == 1 {
      OneFrame(fs);
      assert fs == [fs[0]];
      NoTable(fs[0], widths, prev);
      EbmlSizeEnd(p, offset, j, j, curr, tot);
      Unwrapped(|fs[0]|);
    } else {
      TableSplits(p, offset, fs, widths, prev, j, curr);
      EbmlSizeStep(p, offset, j + k, j + |fs|, j, curr, tot, widths[0], |fs[0]|);
      if k > 0 {
        EbmlSizeFrom(p, offset + widths[0], j + 1, fs[1..], widths[1..], Some(|fs[0]|), k - 1, |fs[0]|, tot + |fs[0]|);
      }
    }
  }

  lemma {:induction false} StartStep(fs: seq<seq<byte>>, k: int)
    requires fs != []
    ensures Start(fs, k) == if k <= 0 then 0 else |fs[0]| + Start(fs[1..], k - 1)
    ensures k <= 0 ==> Start(fs[1..], k - 1) == 0
  {
  }

  lemma {:induction false} EbmlDataEnd(p: seq<byte>, offset: nat, no: nat, j: nat, curr: nat, tot: nat)
    ensures EbmlData(p, offset, no, j + 1, j, curr, tot) == Some(offset + tot)
  {
  }

  lemma {:induction false} NoTable(f: seq<byte>, widths: seq<nat>, prev: Option<nat>)
    ensures Codable([f], widths, prev) && EbmlTable([f], widths, prev) == []
  {
  }

  lemma {:induction false} EbmlDataFrom(p: seq<byte>, offset: nat, no: nat, j: nat, fs: seq<seq<byte>>,
                                        widths: seq<nat>, prev: Option<nat>, curr: nat, tot: nat)
    requires fs != [] && no < j + |fs| && Codable(fs, widths, prev) && Before(j, prev, curr)
    requires At(p, offset, EbmlTable(fs, widths, prev)) && tot + |Concat(fs)| < TWO_TO_THE_32
    ensures EbmlData(p, offset, no, j + |fs|, j, curr, tot)
            == Some(offset + |EbmlTable(fs, widths, prev)| + tot + Start(fs, no - j))
    decreases fs
  {
    hide *;
    StartStep(fs, no - j);
    if |fs| == 1 {
      assert fs == [fs[0]];
      NoTable(fs[0], widths, prev);
      EbmlDataEnd(p, offset, no, j, curr, tot);
    } else {
      var size := |fs[0]|;
      TableSplits(p, offset, fs, widths, prev, j, curr);
      EbmlDataStep(p, offset, no, j + |fs|, j, curr, tot, widths[0], size);
      EbmlDataFrom(p, offset + widths[0], no, j + 1, fs[1..], widths[1..], Some(size), size, if j < no then tot + size else tot);
    }
  }

  /** Every frame of an EBML-laced block is recovered, whatever widths the lacer used. */
  lemma {:induction false} EbmlRecovered(p: seq<byte>, frames: seq<seq<byte>>, widths: seq<nat>, no: nat)
    requires Codable(frames, widths, None) && Laced(p, 3, EbmlTable(frames, widths, None), frames) && no < |frames|
    ensures Recovered(p, no, frames)
  {
    hide At, EbmlSize, EbmlData, EbmlTable, Concat, Start, Codable;
    var start := HeadEnd(p) + 1;
    AtSplit(p, start, EbmlTable(frames, widths, None), Concat(frames));
    EbmlSizeFrom(p, start, 0, frames, widths, None, no, 0, 0);
    EbmlDataFrom(p, start, no, 0, frames, widths, None, 0, 0);
    FrameFound(p, start + |EbmlTable(frames, widths, None)|, frames, no);
  }

  // ---------------------------------------------------------------- fixed-size lacing

  predicate AllOfSize(frames: seq<seq<byte>>, size: nat) {
    forall k :: 0 <= k < |frames| ==> |frames[k]| == size
  }

  lemma {:induction false} EqualStarts(frames: seq<seq<byte>>, size: nat, k: nat)
    requires AllOfSize(frames, size) && k <= |frames|
    ensures Start(frames, k) == k * size && |Concat(frames)| == |frames| * size
  {
    if frames != [] {
      EqualStarts(frames[1..], size, if k > 0 then k - 1 else 0);
      NextMultiple(|frames|, size);
      NextMultiple(k, size);
    }
  }

  lemma {:induction false} NextMultiple(n: nat, size: nat)
    ensures n > 0 ==> n * size == size + (n - 1) * size
  {
  }

  /** The count byte is divided along with the frames, which only shows with a single frame. */
  lemma {:induction false} DivideWithCount(n: nat, size: nat)
    requires n >= 1
    ensures (1 + n * size) / n == if n == 1 then size + 1 else size
  {
    if n > 1 {
      assert (1 + n * size) / n == size by {
        DivideExact(1 + n * size, n, size);
      }
    }
  }

  lemma {:induction false} FixedReads(p: seq<byte>, frames: seq<seq<byte>>, size: nat, no: nat)
    requires Laced(p, 2, [], frames) && AllOfSize(frames, size) && no < |frames|
    ensures var got := if |frames| == 1 then size + 1 else size;
            && FrameSize(p, no) == Some(got)
            && FrameData(p, no) == Starts(|p| - |Concat(frames)| + Wrap32(no * got))
  {
    hide At, AllOfSize, Start, Concat, Flags, ReadSize;
    assert [] + Concat(frames) == Concat(frames);
    EqualStarts(frames, size, no);
    DivideWithCount(|frames|, size);
    Unwrapped(if |frames| == 1 then size + 1 else size);
  }

  /** A fixed-size block gives its frames back exactly when it holds at least two: with one, the frame count byte
      is counted as a byte of the frame. */
  lemma {:induction false} FixedRecoveredIff(p: seq<byte>, frames: seq<seq<byte>>, size: nat, no: nat)
    requires Laced(p, 2, [], frames) && AllOfSize(frames, size) && no < |frames|
    ensures Recovered(p, no, frames) <==> |frames| >= 2
  {
    hide At, Concat, Start, AllOfSize, FrameSize, FrameData, Wrap32, Flags, ReadSize;
    FixedReads(p, frames, size, no);
    SizeOf(frames, size, no);
    EqualStarts(frames, size, no);
    StartsTile(frames, no);
    Unwrapped(no * size);
    assert [] + Concat(frames) == Concat(frames);
    FrameFound(p, HeadEnd(p) + 1, frames, no);
  }

  lemma {:induction false} SizeOf(frames: seq<seq<byte>>, size: nat, no: nat)
    requires AllOfSize(frames, size) && no < |frames|
    ensures |frames[no]| == size
  {
  }

  /** Asking for a frame that a Xiph- or EBML-laced block does not have gives size 0 and no data. */
  lemma {:induction false} NoSuchFrame(p: seq<byte>, no: nat)
    requires Counted(p) && (GetLacing(p) == 1 || GetLacing(p) == 3) && no >= GetFrameCount(p)
    ensures FrameSize(p, no) == Some(0) && FrameData(p, no) == Null
  {
  }

  // ---------------------------------------------------------------- simple blocks

  lemma {:induction false} BlockLayout(track: nat, time: nat, key: bool, clusterTime: nat, frame: seq<byte>)
    requires track <= MAX_VALUE
    ensures var p := BlockPayload(track, time, key, clusterTime, frame);
            && Headed(p) && GetTrackNum(p) == track && HeadEnd(p) == |UniBytes(track)| + 3 <= |p|
            && Flags(p) == (if key then 0x80 else 0) && p[HeadEnd(p)..] == frame
            && Join16(p[HeadEnd(p) - 3], p[HeadEnd(p) - 2]) == (time - clusterTime) % 0x1_0000
  {
    hide UniBytes, ReadInt, ReadSize, Be, WriteSize, At;
    var p := BlockPayload(track, time, key, clusterTime, frame);
    var t := UniBytes(track);
    var stamp := Be(2, (time - clusterTime) % 0x1_0000);
    var rest := [if key then 0x80 else 0] + frame;
    AtStart(t + (stamp + rest), []);
    AtSplit(p, 0, t, stamp + rest);
    AtSplit(p, |t|, stamp, rest);
    AtSplit(p, |t| + 2, [if key then 0x80 else 0], frame);
    UniBytesRead(p, 0, track);
    AtIndex(p, |t| + 2, rest, 0);
    AtIndex(p, |t|, stamp, 0);
    AtIndex(p, |t|, stamp, 1);
    TimeStamp((time - clusterTime) % 0x1_0000);
  }

  /** The accessors give back what the block writer was given: the time as long as it is within 16 bits of the
      cluster's, everything else always. */
  lemma {:induction false} SimpleBlockReadsBack(track: nat, time: nat, key: bool, clusterTime: nat, frame: seq<byte>)
    requires track <= MAX_VALUE && |frame| < TWO_TO_THE_32
    ensures var p := BlockPayload(track, time, key, clusterTime, frame);
            && Counted(p) && GetTrackNum(p) == track && IsKeyframe(p) == key && !IsInvisible(p) && !IsDiscardable(p)
            && (GetTimecode(p) == time - clusterTime <==> -0x8000 <= time - clusterTime < 0x8000)
            && GetLacing(p) == 0 && GetFrameCount(p) == 1
            && FrameSize(p, 0) == Some(|frame|) && FrameData(p, 0) == Starts(HeadEnd(p)) && p[HeadEnd(p)..] == frame
  {
    hide *;
    BlockLayout(track, time, key, clusterTime, frame);
    var p := BlockPayload(track, time, key, clusterTime, frame);
    UnlacedBlock(p, key);
    TimecodeIff(p, time - clusterTime);
    assert |p[HeadEnd(p)..]| == |p| - HeadEnd(p);
  }

  lemma {:induction false} UnlacedBlock(p: seq<byte>, key: bool)
    requires Headed(p) && Flags(p) == (if key then 0x80 else 0) && HeadEnd(p) <= |p| < HeadEnd(p) + TWO_TO_THE_32
    ensures Counted(p) && IsKeyframe(p) == key && !IsInvisible(p) && !IsDiscardable(p)
    ensures GetLacing(p) == 0 && GetFrameCount(p) == 1
    ensures FrameSize(p, 0) == Some(|p| - HeadEnd(p)) && FrameData(p, 0) == Starts(HeadEnd(p))
  {
    hide Headed, HeadEnd, Flags, XiphSize, XiphData, EbmlSize, EbmlData;
  }

  lemma {:induction false} TimecodeIff(p: seq<byte>, d: int)
    requires Headed(p) && Join16(p[HeadEnd(p) - 3], p[HeadEnd(p) - 2]) == d % 0x1_0000
    ensures GetTimecode(p) == d <==> -0x8000 <= d < 0x8000
  {
    TimeWithin(d);
  }

  lemma {:induction false} TimeStamp(x: nat)
    requires x < 0x1_0000
    ensures Be(2, x)[0] == x / 0x100 && Be(2, x)[1] == x % 0x100 && Join16(Be(2, x)[0], Be(2, x)[1]) == x
  {
    assert Be(1, x / 0x100) == Be(0, x / 0x100 / 0x100) + [x / 0x100 % 0x100];
  }

  lemma {:induction false} TimeWithin(d: int)
    ensures Signed16(d % 0x1_0000) == d <==> -0x8000 <= d < 0x8000
  {
  }

  // ---------------------------------------------------------------- the loops as the code runs them

  method GetFrameSize(p: seq<byte>, no: nat) returns (ok: bool, size: nat)
    requires Counted(p)
    ensures ok <==> FrameSize(p, no).Some?
    ensures ok ==> FrameSize(p, no) == Some(size)
  {
    hide ReadInt, ReadSInt;
    ok, size := true, 0;
    var frames: nat := GetFrameCount(p);
    var offset: nat := HeadEnd(p) + 1;
    var laceNo: nat, currSize: nat, totSize: nat := 0, 0, 0;
    match GetLacing(p)
    case 0 =>
      size := Wrap32(|p| - HeadEnd(p));
    case 1 =>
      if no + 1 > frames {
        return;
      }
      while laceNo <= no && laceNo + 1 < frames && offset < |p|
        invariant XiphSize(p, HeadEnd(p) + 1, no, frames, 0, 0, 0) == XiphSize(p, offset, no, frames, laceNo, currSize, totSize)
        decreases |p| - offset
      {
        currSize := Wrap32(currSize + p[offset] as nat);
        if p[offset] != 255 {
          totSize := Wrap32(totSize + currSize);
          if laceNo == no {
            size := currSize;
            return;
          }
          currSize := 0;
          laceNo := laceNo + 1;
        }
        offset := offset + 1;
      }
      size := Wrap32(|p| - offset - totSize);
    case 3 =>
      if no + 1 > frames {
        return;
      }
      while laceNo <= no && laceNo + 1 < frames && offset < |p|
        invariant EbmlSize(p, HeadEnd(p) + 1, no, frames, 0, 0, 0) == EbmlSize(p, offset, no, frames, laceNo, currSize, totSize)
        decreases |p| - offset
      {
        if !Readable(p, offset) {
          ok := false;
          return;
        }
        if laceNo == 0 {
          currSize := Wrap32(ReadInt(p, offset));
        } else {
          currSize := Wrap32(currSize + ReadSInt(p, offset));
        }
        totSize := Wrap32(totSize + currSize);
        if laceNo == no {
          size := currSize;
          return;
        }
        laceNo := laceNo + 1;
        offset := offset + ReadSize(p[offset]);
      }
      size := Wrap32(|p| - offset - totSize);
    case _ =>
      ok := frames > 0;
      if ok {
        size := Wrap32((|p| - HeadEnd(p)) / frames);
      }
  }

  method GetFrameData(p: seq<byte>, no: nat) returns (r: Where)
    requires Counted(p)
    ensures r == FrameData(p, no)
  {
    hide ReadInt, ReadSInt, ReadSize, Wrap32, Flags, HeadEnd, GetFrameCount;
    var frames: nat := GetFrameCount(p);
    var offset: nat := HeadEnd(p) + 1;
    var laceNo: nat, currSize: nat, totSize: nat := 0, 0, 0;
    match GetLacing(p)
    case 0 =>
      r := Starts(HeadEnd(p));
    case 1 =>
      if no + 1 > frames {
        return Null;
      }
      while laceNo + 1 < frames && offset < |p|
        invariant XiphData(p, HeadEnd(p) + 1, no, frames, 0, 0) == XiphData(p, offset, no, frames, laceNo, currSize)
        decreases |p| - offset
      {
        if laceNo < no {
          currSize := Wrap32(currSize + p[offset] as nat);
        }
        if p[offset] != 255 {
          laceNo := laceNo + 1;
        }
        offset := offset + 1;
      }
      r := Starts(offset + currSize);
    case 3 =>
      if no + 1 > frames {
        return Null;
      }
      while laceNo + 1 < frames && offset < |p|
        invariant EbmlData(p, HeadEnd(p) + 1, no, frames, 0, 0, 0) == EbmlData(p, offset, no, frames, laceNo, currSize, totSize)
        decreases |p| - offset
      {
        if !Readable(p, offset) {
          return Unreadable;
        }
        if laceNo == 0 {
          currSize := Wrap32(ReadInt(p, offset));
        } else {
          currSize := Wrap32(currSize + ReadSInt(p, offset));
        }
        if laceNo < no {
          totSize := Wrap32(totSize + currSize);
        }
        laceNo := laceNo + 1;
        offset := offset + ReadSize(p[offset]);
      }
      r := Starts(offset + totSize);
    case _ =>
      var ok, size := GetFrameSize(p, no);
      r := if ok then Starts(HeadEnd(p) + 1 + Wrap32(no * size)) else Unreadable;
  }
}
