/** The 24-slot packet ring and the sorted timestamp array that runs beside it. */
module TrackPredictor {
  import opened Basics
  import opened TrackPredictorSpec
  import opened TrackPredictorSessions

  // ---------------------------------------------------------------- the ring as a sequence

  /** n packets read from the ring, starting at position rem. */
  function RingQueue(slots: seq<Packet>, rem: nat, n: nat): (q: seq<Packet>)
    requires |slots| == PKT_COUNT
    ensures |q| == n
  {
    seq(n, i requires 0 <= i < n => slots[Slot(rem, i)])
  }

  /** The slot of the i-th packet behind position rem. */
  function Slot(rem: nat, i: nat): nat { (rem + i) % PKT_COUNT }

  /** Before anything was removed the queue sits at the start of the ring, so searching the ring
      slot by slot searches the queue. */
  lemma {:induction false} SearchInPlace(slots: seq<Packet>, times: seq<nat>, n: nat, k: nat, start: nat)
    requires |slots| == |times| == PKT_COUNT && k <= n <= PKT_COUNT && start < TWO_TO_THE_32
    ensures OffsetSearch(slots, times, k, start) == OffsetSearch(RingQueue(slots, 0, n), times[..n], k, start)
  {
    if k > 0 {
      SearchInPlace(slots, times, n, k - 1, start);
    }
  }

  /** The state read off the ring. */
  function StateOf(slots: seq<Packet>, times: seq<nat>, rem: nat, ctr: nat, maxDelay: nat, timeOffset: nat,
                   finished: nat, initialized: bool): State
    requires |slots| == |times| == PKT_COUNT && rem <= ctr <= rem + PKT_COUNT
  {
    State(RingQueue(slots, rem, ctr - rem), times[..ctr - rem], maxDelay, timeOffset, ctr, finished, initialized)
  }

  /** The times array after the head was shifted out. */
  predicate ShiftedOut(times: seq<nat>, times': seq<nat>, n: nat) {
    |times'| == |times| && n < |times| && forall k :: 0 <= k < n ==> times'[k] == times[k + 1]
  }

  /** The offset an extraction uses, searched slot by slot. */
  function RingOffset(slots: seq<Packet>, times: seq<nat>, rem: nat, ctr: nat, maxDelay: nat, timeOffset: nat,
                      initialized: bool): nat
    requires |slots| == |times| == PKT_COUNT && rem < ctr && timeOffset < TWO_TO_THE_32
  {
    if maxDelay == 0 || initialized then timeOffset
    else OffsetSearch(slots, times, (ctr - rem - 1) % PKT_COUNT + 1, timeOffset)
  }

  /** The packet an extraction of a video track hands out. */
  function Handed(p: Packet, head: nat, maxDelay: nat, timeOffset: nat): Packet {
    if maxDelay == 0 then p else Retimed(p, head, timeOffset)
  }

  /** Retiming in place, stepping past the slot and shifting the times is the abstract step. */
  lemma {:induction false} TakeOnRing(slots: seq<Packet>, times: seq<nat>, times': seq<nat>, rem: nat, ctr: nat,
                                      maxDelay: nat, timeOffset: nat, finished: nat, initialized: bool, p: Packet)
    requires |slots| == |times| == PKT_COUNT && rem < ctr <= rem + PKT_COUNT && timeOffset < TWO_TO_THE_32
    requires !initialized ==> rem == 0
    requires ShiftedOut(times, times', ctr - rem - 1)
    requires p == Handed(slots[rem % PKT_COUNT], times[0], maxDelay,
                         RingOffset(slots, times, rem, ctr, maxDelay, timeOffset, initialized))
    ensures var st := StateOf(slots, times, rem, ctr, maxDelay, timeOffset, finished, initialized);
            var to := RingOffset(slots, times, rem, ctr, maxDelay, timeOffset, initialized);
            && Take(st).0 == StateOf(slots[rem % PKT_COUNT := p], times', rem + 1, ctr, maxDelay, to, finished, true)
            && Take(st).1.packet == p
  {
    var n := ctr - rem;
    assert RingQueue(slots, rem, n)[0] == slots[rem % PKT_COUNT];
    OffsetOnRing(slots, times, rem, ctr, maxDelay, timeOffset, finished, initialized);
  }

  lemma {:induction false} OffsetOnRing(slots: seq<Packet>, times: seq<nat>, rem: nat, ctr: nat, maxDelay: nat,
                                        timeOffset: nat, finished: nat, initialized: bool)
    requires |slots| == |times| == PKT_COUNT && rem < ctr <= rem + PKT_COUNT && timeOffset < TWO_TO_THE_32
    requires !initialized ==> rem == 0
    ensures var st := StateOf(slots, times, rem, ctr, maxDelay, timeOffset, finished, initialized);
            RingOffset(slots, times, rem, ctr, maxDelay, timeOffset, initialized)
            == if maxDelay == 0 then timeOffset else OffsetAtGet(st)
  {
    if !initialized {
      SearchInPlace(slots, times, ctr - rem, ctr - rem, timeOffset);
    }
  }

  // ---------------------------------------------------------------- the class

  class TrackPredictor {
    const pkts: array<Packet>
    const times: array<nat>
    var maxDelay: nat
    var timeOffset: nat
    var ctr: nat
    var rem: nat
    var finished: nat
    var initialized: bool

    ghost predicate Valid()
      reads this
    {
      && pkts.Length == PKT_COUNT && times.Length == PKT_COUNT
      && rem <= ctr
      && timeOffset < TWO_TO_THE_32
      && (!initialized ==> rem == 0 && timeOffset == 0)
      && (finished == INVALID_TRACK_ID || finished <= ctr)
    }

    /** No packet has been overwritten. */
    ghost predicate InRing()
      reads this
    {
      Valid() && ctr - rem <= PKT_COUNT
    }

    /** The buffered packets in arrival order. */
    ghost function Queue(): (q: seq<Packet>)
      reads this, pkts
      requires InRing()
    {
      RingQueue(pkts[..], rem, ctr - rem)
    }

    /** The abstract state of a video track's predictor. */
    ghost function Abs(): State
      reads this, pkts, times
      requires InRing()
    {
      StateOf(pkts[..], times[..], rem, ctr, maxDelay, timeOffset, finished, initialized)
    }

    constructor ()
      ensures InRing() && fresh(pkts) && fresh(times)
      ensures rem == 0 && Abs() == EMPTY
    {
      pkts := new Packet[PKT_COUNT](i => Packet(0, 0, 0, 0, 0, false, None));
      times := new nat[PKT_COUNT](i => 0);
      maxDelay, timeOffset, ctr, rem := 0, 0, 0, 0;
      finished, initialized := INVALID_TRACK_ID, false;
    }

    /** hasPackets */
    predicate HasPackets()
      reads this
      requires rem <= ctr
    {
      || (finished != INVALID_TRACK_ID && finished > rem)
      || ((initialized || ctr > 16) && ctr - rem > maxDelay)
    }

    lemma {:induction false} HasPacketsIsAbstract()
      requires InRing()
      ensures HasPackets() <==> Abs().HasPackets()
      ensures HasPackets() ==> rem < ctr
    {
    }

    /** finish: everything buffered may leave. */
    method FinishBuffered()
      requires Valid()
      modifies this`finished
      ensures Valid() && finished == ctr
      ensures old(InRing()) ==> Abs() == Finish(old(Abs()))
    {
      finished := ctr;
    }

    /** flush: forgets the buffered packets but keeps the delay, the offset and the initialised state. */
    method FlushBuffered()
      requires Valid()
      modifies this`ctr, this`rem, this`finished
      ensures InRing()
      ensures old(InRing()) ==> Abs() == Flush(old(Abs()))
    {
      ctr := 0;
      rem := 0;
      finished := INVALID_TRACK_ID;
    }

    /** Moves the time at index `last` left past every larger one, noting the longest move while the
        first extraction has not happened. */
    method Settle(last: nat)
      requires Valid() && last < PKT_COUNT
      modifies this`maxDelay, times
      ensures Valid()
      ensures times[..] == Insert(old(times[..last]), old(times[last])) + old(times[last + 1..])
      ensures maxDelay == NewMaxDelay(old(maxDelay), initialized, Moves(old(times[..last]), old(times[last])))
    {
      hide Insert, Moves;
      ghost var s, x := times[..last], times[last];
      var i := last;
      assert s[..last] == s;
      while i > 0 && times[i] < times[i - 1]
        invariant 0 <= i <= last && times[i] == x
        invariant forall k :: 0 <= k < i ==> times[k] == s[k]
        invariant forall k :: i < k <= last ==> times[k] == s[k - 1]
        invariant forall k :: last < k < PKT_COUNT ==> times[k] == old(times[k])
        invariant Moves(s, x) == Moves(s[..i], x) + (last - i)
        invariant maxDelay == NewMaxDelay(old(maxDelay), initialized, last - i)
      {
        MoveOn(s, x, i);
        var tmp := times[i - 1];
        times[i - 1] := times[i];
        times[i] := tmp;
        i := i - 1;
        if !initialized && last - i + 1 > maxDelay {
          maxDelay := last - i + 1;
        }
      }
      if i > 0 {
        MoveOn(s, x, i);
      }
      NoMoves(s, x);
      assert Moves(s, x) == last - i;
      SettledShape(s, x, times[..], old(times[..]), i);
    }

    static lemma {:induction false} MoveOn(s: seq<nat>, x: nat, i: nat)
      requires 0 < i <= |s|
      ensures Moves(s[..i], x) == if x < s[i - 1] then 1 + Moves(s[..i - 1], x) else 0
    {
      assert s[..i][..i - 1] == s[..i - 1];
    }

    static lemma {:induction false} NoMoves(s: seq<nat>, x: nat)
      ensures Moves(s[..0], x) == 0
    {
    }

    static lemma {:induction false} SettledShape(s: seq<nat>, x: nat, after: seq<nat>, before: seq<nat>, i: nat)
      requires i <= |s| < |after| == |before| && Moves(s, x) == |s| - i && after[i] == x
      requires forall k :: 0 <= k < i ==> after[k] == s[k]
      requires forall k :: i < k <= |s| ==> after[k] == s[k - 1]
      requires forall k :: |s| < k < |after| ==> after[k] == before[k]
      ensures after == Insert(s, x) + before[|s| + 1..]
    {
      var settled := Insert(s, x) + before[|s| + 1..];
      forall k | 0 <= k < |after| ensures after[k] == settled[k] {
        if k <= |s| {
          InsertAt(s, x, k);
        }
      }
    }

    /** add: stores the packet in the next slot; for video, settles its time into the sorted array. */
    method AddPacket(p: Packet, isVideo: bool)
      requires Valid() && p.offset == 0
      modifies this`ctr, this`maxDelay, pkts, times
      ensures Valid() && ctr == old(ctr) + 1
      ensures pkts[..] == old(pkts[..])[old(ctr) % PKT_COUNT := p]
      ensures !isVideo ==> times[..] == old(times[..]) && maxDelay == old(maxDelay)
      ensures isVideo ==>
                var b := if ctr - rem > PKT_COUNT then PKT_COUNT - 1 else ctr - rem - 1;
                && times[..] == Insert(old(times[..b]), p.time) + old(times[b + 1..])
                && maxDelay == NewMaxDelay(old(maxDelay), initialized, Moves(old(times[..b]), p.time))
    {
      pkts[ctr % PKT_COUNT] := p;
      ctr := ctr + 1;
      if !isVideo {
        return;
      }
      var buffLen := ctr - rem - 1;
      if buffLen >= PKT_COUNT {
        buffLen := PKT_COUNT - 1;
      }
      times[buffLen] := p.time;
      assert times[..buffLen] == old(times[..buffLen]);
      assert times[buffLen + 1..] == old(times[buffLen + 1..]);
      Settle(buffLen);
    }

    /** While a slot is free, adding a packet is the abstract step (for other tracks, a plain append). */
    method AddInRing(p: Packet, isVideo: bool)
      requires Valid() && p.offset == 0 && ctr - rem < PKT_COUNT
      modifies this`ctr, this`maxDelay, pkts, times
      ensures InRing() && ctr == old(ctr) + 1
      ensures Queue() == old(Queue()) + [p]
      ensures isVideo ==> Abs() == Add(old(Abs()), p)
      ensures !isVideo ==> times[..] == old(times[..]) && maxDelay == old(maxDelay)
    {
      ghost var n := ctr - rem;
      AddPacket(p, isVideo);
      assert isVideo ==> times[..n + 1] == Insert(old(times[..n]), p.time);
      assert p.(offset := 0) == p;
    }

    /** The offset search of the first extraction. */
    method FindOffset()
      requires Valid() && rem < ctr
      modifies this`timeOffset
      ensures timeOffset == OffsetSearch(pkts[..], times[..], (ctr - rem - 1) % PKT_COUNT + 1, old(timeOffset))
    {
      var buffLen := (ctr - rem - 1) % PKT_COUNT;
      for i := 0 to buffLen + 1
        invariant timeOffset == OffsetSearch(pkts[..], times[..], i, old(timeOffset))
      {
        if pkts[i].time < times[i] && times[i] - pkts[i].time > timeOffset {
          timeOffset := (times[i] - pkts[i].time) % TWO_TO_THE_32;
        }
      }
    }

    /** getPacketData: retimes the oldest packet in its slot and hands it out. */
    method GetPacketData(mustCalcOffsets: bool) returns (p: Packet)
      requires Valid() && rem < ctr
      modifies this`timeOffset, this`initialized, pkts
      ensures Valid() && initialized
      ensures pkts[..] == old(pkts[..])[rem % PKT_COUNT := p]
      ensures !mustCalcOffsets ==> timeOffset == old(timeOffset) && p == old(pkts[rem % PKT_COUNT])
      ensures mustCalcOffsets ==>
                && timeOffset == RingOffset(old(pkts[..]), times[..], rem, ctr, maxDelay, old(timeOffset), old(initialized))
                && p == Handed(old(pkts[rem % PKT_COUNT]), times[0], maxDelay, timeOffset)
    {
      p := pkts[rem % PKT_COUNT];
      if !mustCalcOffsets || maxDelay == 0 {
        initialized := true;
        return;
      }
      if !initialized {
        FindOffset();
        initialized := true;
      }
      var origTime := p.time;
      p := p.(time := times[0]);
      if p.time >= timeOffset {
        p := p.(time := p.time - timeOffset);
      }
      if origTime > p.time {
        p := p.(offset := origTime - p.time);
      }
      if p.offset < 3 {
        p := p.(offset := 0);
      }
      pkts[rem % PKT_COUNT] := p;
    }

    /** remove: frees the oldest slot and shifts the sorted array down by one. */
    method Remove()
      requires Valid() && initialized && rem < ctr
      modifies this`rem, times
      ensures Valid() && rem == old(rem) + 1
      ensures var n := if ctr - rem >= PKT_COUNT then PKT_COUNT - 1 else ctr - rem;
              forall k :: 0 <= k < PKT_COUNT ==> times[k] == if k < n then old(times[k + 1]) else old(times[k])
    {
      rem := rem + 1;
      var buffLen := ctr - rem;
      if buffLen >= PKT_COUNT {
        buffLen := PKT_COUNT - 1;
      }
      for i := 0 to buffLen
        invariant rem == old(rem) + 1
        invariant forall k :: 0 <= k < PKT_COUNT ==> times[k] == if k < i then old(times[k + 1]) else old(times[k])
      {
        times[i] := times[i + 1];
      }
    }

    /** One extraction of a video packet: exactly the abstract step. */
    method TakePacket() returns (p: Packet)
      requires InRing() && rem < ctr
      modifies this`timeOffset, this`initialized, this`rem, pkts, times
      ensures InRing() && rem == old(rem) + 1
      ensures Abs() == Take(old(Abs())).0 && p == Take(old(Abs())).1.packet
    {
      ghost var slots, ts := pkts[..], times[..];
      p := GetPacketData(true);
      ghost var slots' := pkts[..];
      Remove();
      assert pkts[..] == slots';
      assert ShiftedOut(ts, times[..], ctr - rem);
      TakeOnRing(slots, ts, times[..], rem - 1, ctr, maxDelay, old(timeOffset), finished, old(initialized), p);
    }

    /** The drain loop of fillPacketData: takes packets while there are any. */
    method DrainBuffered() returns (out: seq<Packet>)
      requires InRing() && Abs().Valid()
      modifies this`timeOffset, this`initialized, this`rem, pkts, times
      ensures InRing()
      ensures Abs() == Drain(old(Abs())).state && out == Packets(Drain(old(Abs())).taken)
    {
      out := [];
      HasPacketsIsAbstract();
      while HasPackets()
        invariant InRing() && Abs().Valid()
        invariant HasPackets() <==> Abs().HasPackets()
        invariant HasPackets() ==> rem < ctr
        invariant Drain(old(Abs())).state == Drain(Abs()).state
        invariant Packets(Drain(old(Abs())).taken) == out + Packets(Drain(Abs()).taken)
        decreases ctr - rem
      {
        ghost var st := Abs();
        StepKeepsValid(st, Extract);
        DrainStep(st, out);
        var p := TakePacket();
        out := out + [p];
        HasPacketsIsAbstract();
      }
    }

    /** A parsed frame and the drain that follows it. */
    method Receive(f: Frame) returns (out: seq<Packet>)
      requires InRing() && ctr - rem < PKT_COUNT && Abs().Valid() && f.packet.offset == 0
      modifies this, pkts, times
      ensures InRing() && Abs() == After(old(Abs()), f)
      ensures out == Packets(Drain(Received(old(Abs()), f)).taken)
    {
      if f.finishFirst {
        FinishBuffered();
      }
      AddInRing(f.packet, true);
      assert Abs() == Received(old(Abs()), f);
      out := DrainBuffered();
    }
  }

  function Packets(taken: seq<Taken>): (ps: seq<Packet>)
    ensures |ps| == |taken|
  {
    seq(|taken|, i requires 0 <= i < |taken| => taken[i].packet)
  }

  lemma {:induction false} DrainStep(st: State, out: seq<Packet>)
    requires st.Valid() && st.HasPackets() && Take(st).0.Valid()
    ensures Drain(st).state == Drain(Take(st).0).state
    ensures out + Packets(Drain(st).taken) == (out + [Take(st).1.packet]) + Packets(Drain(Take(st).0).taken)
  {
    PacketsStep(out, Take(st).1, Drain(Take(st).0).taken);
  }

  lemma {:induction false} PacketsStep(out: seq<Packet>, t: Taken, rest: seq<Taken>)
    ensures out + Packets([t] + rest) == (out + [t.packet]) + Packets(rest)
  {
    assert Packets([t] + rest) == [t.packet] + Packets(rest);
  }

  /** A whole session on the real ring behaves as the specification says, as long as the session needs
      no more slots than the ring has. */
  method Feed(tp: TrackPredictor, frames: seq<Frame>) returns (out: seq<Packet>)
    requires tp.InRing() && tp.Abs().Valid() && Peak(tp.Abs(), frames) <= PKT_COUNT
    requires forall f :: f in frames ==> f.packet.offset == 0
    modifies tp, tp.pkts, tp.times
    ensures tp.InRing() && tp.Abs() == Session(old(tp.Abs()), frames).state
    ensures out == Packets(Session(old(tp.Abs()), frames).taken)
    decreases |frames|
  {
    if frames == [] {
      return [];
    }
    ghost var st := tp.Abs();
    out := tp.Receive(frames[0]);
    var more := Feed(tp, frames[1..]);
    PacketsConcat(Drain(Received(st, frames[0])).taken, Session(After(st, frames[0]), frames[1..]).taken);
    out := out + more;
  }

  lemma {:induction false} PacketsConcat(a: seq<Taken>, b: seq<Taken>)
    ensures Packets(a + b) == Packets(a) + Packets(b)
  {
  }
}
