/** Sessions that keep within their own delay: what comes out is in order, or exactly how it is not. */
module TrackPredictorStreams {
  import opened Basics
  import opened TrackPredictorSpec
  import opened TrackPredictorTheorems
  import opened TrackPredictorSessions
  import opened TrackPredictorOrder

  const NOTHING := Past([], 0)

  function BeforeFrame(h: Past, f: Frame): Past { if f.finishFirst then Later(h, Close) else h }

  function WithFrame(h: Past, f: Frame): Past { Later(BeforeFrame(h, f), Arrive(f.packet)) }

  /** No frame belongs before a finished group, and once packets leave, none overtakes more frames than the first
      window showed. */
  predicate Steady(st: State, h: Past, frames: seq<Frame>)
    requires st.Valid()
    decreases |frames|
  {
    frames == [] || (
      && frames[0].packet.time >= BeforeFrame(h, frames[0]).floor
      && (st.initialized ==> CountAbove(h.seen, frames[0].packet.time) <= st.maxDelay)
      && Steady(After(st, frames[0]), WithFrame(h, frames[0]), frames[1..]))
  }

  // ---------------------------------------------------------------- a steady session keeps within its delay

  function LaterAll(h: Past, evs: seq<Event>): Past
    decreases |evs|
  {
    if evs == [] then h else LaterAll(Later(h, evs[0]), evs[1..])
  }

  lemma {:induction false} WithinAppend(st: State, h: Past, a: seq<Event>, b: seq<Event>, d: nat)
    requires Feasible(st, a) && WithinDelay(st, h, a, d)
    requires Feasible(Run(st, a).state, b) && WithinDelay(Run(st, a).state, LaterAll(h, a), b, d)
    ensures Feasible(st, a + b) && WithinDelay(st, h, a + b, d)
    decreases |a|
  {
    RunAppend(st, a, b);
    if a == [] {
      assert a + b == b;
    } else {
      WithinAppend(Next(st, a[0]), Later(h, a[0]), a[1..], b, d);
      assert (a + b)[1..] == a[1..] + b && (a + b)[0] == a[0];
    }
  }

  lemma {:induction false} DrainWithin(st: State, h: Past, d: nat)
    requires st.Valid() && (Drain(st).taken != [] ==> st.maxDelay == d)
    ensures var evs := Extractions(|Drain(st).taken|);
            Feasible(st, evs) && WithinDelay(st, h, evs, d) && LaterAll(h, evs) == h
    decreases |st.queue|
  {
    DrainIsRun(st);
    if st.HasPackets() {
      var n := |Drain(st).taken|;
      StepKeepsValid(st, Extract);
      DrainWithin(Take(st).0, h, d);
      assert Extractions(n)[1..] == Extractions(n - 1);
    }
  }

  lemma {:induction false} FrameWithin(st: State, h: Past, f: Frame, d: nat)
    requires st.Valid() && MayArrive(BeforeFrame(h, f), f.packet.time, d)
    requires Drain(Received(st, f)).taken != [] ==> Received(st, f).maxDelay == d
    ensures Feasible(st, FrameEvents(st, f)) && WithinDelay(st, h, FrameEvents(st, f), d)
    ensures LaterAll(h, FrameEvents(st, f)) == WithFrame(h, f)
  {
    hide Drain;
    FrameIsRun(st, f);
    var evs := Extractions(|Drain(Received(st, f)).taken|);
    DrainWithin(Received(st, f), WithFrame(h, f), d);
    var closed := if f.finishFirst then Finish(st) else st;
    var tail := [Arrive(f.packet)] + evs;
    assert tail[1..] == evs;
    assert Feasible(closed, tail) && WithinDelay(closed, BeforeFrame(h, f), tail, d);
    if f.finishFirst {
      assert FrameEvents(st, f)[1..] == tail;
    } else {
      assert FrameEvents(st, f) == tail;
    }
  }

  lemma {:induction false} DrainInitializes(st: State)
    requires st.Valid()
    ensures Drain(st).taken != [] ==> Drain(st).state.initialized
    ensures Drain(st).taken == [] ==> Drain(st).state == st
    ensures st.initialized ==> Drain(st).state.initialized
    decreases |st.queue|
  {
    if st.HasPackets() {
      StepKeepsValid(st, Extract);
      DrainInitializes(Take(st).0);
    }
  }

  /** Once packets leave, the delay stays what it is. */
  lemma {:induction false} DelayIsFixed(st: State, frames: seq<Frame>)
    requires st.Valid() && st.initialized
    ensures Session(st, frames).state.maxDelay == st.maxDelay
    decreases |frames|
  {
    if frames != [] {
      DrainInitializes(Received(st, frames[0]));
      DelayIsFixed(After(st, frames[0]), frames[1..]);
    }
  }

  lemma {:induction false} MovesCount(s: seq<nat>, x: nat)
    requires Sorted(s)
    ensures Moves(s, x) == CountAbove(s, x)
  {
    if s == [] || s[|s| - 1] <= x {
      NoneAbove(s, x);
    } else {
      assert s == s[..|s| - 1] + [s[|s| - 1]];
      MovesCount(s[..|s| - 1], x);
      CountAboveAppend(s[..|s| - 1], s[|s| - 1], x);
    }
  }

  /** Nothing has left yet: the history is what is buffered. */
  ghost predicate Fresh(st: State, h: Past) {
    !st.initialized ==> multiset(st.times) == multiset(h.seen)
  }

  lemma {:induction false} FrameFits(st: State, h: Past, f: Frame, rest: seq<Frame>, d: nat)
    requires Settled(st) && Fresh(st, h) && f.packet.time >= BeforeFrame(h, f).floor
    requires st.initialized ==> CountAbove(h.seen, f.packet.time) <= st.maxDelay
    requires d == Session(After(st, f), rest).state.maxDelay
    ensures MayArrive(BeforeFrame(h, f), f.packet.time, d) && Fresh(After(st, f), WithFrame(h, f))
    ensures Drain(Received(st, f)).taken != [] ==> Received(st, f).maxDelay == d
  {
    hide Drain, Session, Insert;
    var x := f.packet.time;
    DrainInitializes(Received(st, f));
    if After(st, f).initialized {
      DelayIsFixed(After(st, f), rest);
    }
    PeakFollowsDelay(After(st, f), rest);
    InsertKeepsSorted(st.times, x);
    if !st.initialized {
      CountAbovePart(st.times, h.seen, x);
      MovesCount(st.times, x);
    }
  }

  lemma {:induction false} SessionWithin(st: State, h: Past, frames: seq<Frame>, d: nat)
    requires Settled(st) && Fresh(st, h) && Steady(st, h, frames) && d == Session(st, frames).state.maxDelay
    ensures Feasible(st, Events(st, frames)) && WithinDelay(st, h, Events(st, frames), d)
    decreases |frames|
  {
    SessionIsRun(st, frames);
    if frames != [] {
      var f, rest := frames[0], frames[1..];
      FrameFits(st, h, f, rest, d);
      FrameWithin(st, h, f, d);
      FrameIsRun(st, f);
      SessionWithin(After(st, f), WithFrame(h, f), rest, d);
      WithinAppend(st, h, FrameEvents(st, f), Events(After(st, f), rest), d);
    }
  }

  /** Every steady session hands out its heads in order, key frames and the draining before them included. */
  lemma {:induction false} SessionHeadsInOrder(frames: seq<Frame>)
    requires Steady(EMPTY, NOTHING, frames)
    ensures Sorted(Heads(Session(EMPTY, frames).taken))
  {
    var d := Session(EMPTY, frames).state.maxDelay;
    SessionWithin(EMPTY, NOTHING, frames, d);
    SessionIsRun(EMPTY, frames);
    HeadsSorted(EMPTY, NOTHING, Events(EMPTY, frames), d);
  }

  // ---------------------------------------------------------------- the decode times of a session

  datatype Window = Window(state: State, past: Past)

  /** What is buffered, and what came, when the first packet is about to leave. */
  function FirstWindow(st: State, h: Past, frames: seq<Frame>): (w: Option<Window>)
    requires st.Valid()
    ensures w.Some? ==> w.value.state.Valid()
    decreases |frames|
  {
    if frames == [] then None
    else
      var st', h' := Received(st, frames[0]), WithFrame(h, frames[0]);
      if st'.HasPackets() then Some(Window(st', h')) else FirstWindow(st', h', frames[1..])
  }

  /** A window without a delay, or one whose offset keeps the order. */
  ghost predicate WindowKeepsOrder(w: Window)
    requires w.state.Valid()
  {
    w.state.maxDelay == 0
    || KeepsOrder(w.state.times, OffsetAtGet(w.state), Earliest(w.state.times, w.past.floor, w.state.maxDelay))
  }

  /** Nothing leaves, or the window it first leaves from keeps the order. */
  ghost predicate StartsInOrder(st: State, h: Past, frames: seq<Frame>)
    requires st.Valid()
  {
    var w := FirstWindow(st, h, frames);
    w.Some? ==> WindowKeepsOrder(w.value)
  }

  lemma {:induction false} ReceivedConsistent(st: State, h: Past, f: Frame)
    requires st.Valid() && Consistent(st, h)
    ensures Consistent(Received(st, f), WithFrame(h, f))
  {
    var h1 := BeforeFrame(h, f);
    if f.finishFirst {
      FinishConsistent(st, h);
    }
    CountAboveInsert(st.times, f.packet.time, h1.floor);
    InsertKeepsSorted(st.times, f.packet.time);
  }

  lemma {:induction false} FinishConsistent(st: State, h: Past)
    requires st.Valid() && Consistent(st, h)
    ensures Consistent(Finish(st), Later(h, Close))
  {
    forall i | 0 <= i < |st.times| ensures st.times[i] <= Largest(h.seen, h.floor) {
      assert st.times[i] in multiset(st.times);
      assert st.times[i] in h.seen;
    }
    NoneAbove(st.times, Largest(h.seen, h.floor));
  }

  /** Until the first packet leaves, a delay of zero means that nothing has moved. */
  ghost predicate MovesShow(st: State) { st.maxDelay == 0 ==> Unmoved(st) }

  lemma {:induction false} ReceivedShows(st: State, f: Frame)
    requires st.Valid() && !st.initialized && MovesShow(st)
    ensures MovesShow(Received(st, f))
  {
    var x := f.packet.time;
    if Received(st, f).maxDelay == 0 {
      assert Moves(st.times, x) == 0;
      NotMoved(st.times, x);
      UnmovedArrive(if f.finishFirst then Finish(st) else st, f.packet);
    }
  }

  lemma {:induction false} NotMoved(s: seq<nat>, x: nat)
    requires Sorted(s) && Moves(s, x) == 0
    ensures AllAtMost(s, x)
  {
  }

  /** From the moment the first packet leaves, a steady session is a continuation within the delay. */
  lemma {:induction false} OpenedInOrder(st: State, h: Past, frames: seq<Frame>)
    requires st.Valid() && !st.initialized && MovesShow(st) && st.HasPackets() && Consistent(st, h) && Fresh(st, h)
    requires Steady(Drain(st).state, h, frames) && WindowKeepsOrder(Window(st, h))
    ensures Sorted(DecodeTimes(Drain(st).taken + Session(Drain(st).state, frames).taken))
  {
    hide KeepsOrder, Unmoved, Steady, Session;
    var d, st', a := st.maxDelay, Drain(st).state, Extractions(|Drain(st).taken|);
    DrainInitializes(st);
    DelayIsFixed(st', frames);
    DrainIsRun(st);
    DrainWithin(st, h, d);
    SessionWithin(st', h, frames, d);
    SessionIsRun(st', frames);
    var evs := a + Events(st', frames);
    WithinAppend(st, h, a, Events(st', frames), d);
    RunAppend(st, a, Events(st', frames));
    assert evs[0] == Extract;
    if d == 0 {
      UnmovedInOrder(st, h, evs);
    } else {
      OrderKept(st, h, evs, d);
    }
  }

  lemma {:induction false} DecodeTimesFollow(st: State, h: Past, frames: seq<Frame>)
    requires Settled(st) && !st.initialized && MovesShow(st) && Consistent(st, h) && Fresh(st, h)
    requires Steady(st, h, frames) && StartsInOrder(st, h, frames)
    ensures Sorted(DecodeTimes(Session(st, frames).taken))
    decreases |frames|
  {
    hide MovesShow, Consistent, WindowKeepsOrder, Insert;
    if frames != [] {
      var f, rest := frames[0], frames[1..];
      var st', h' := Received(st, f), WithFrame(h, f);
      ReceivedConsistent(st, h, f);
      ReceivedShows(st, f);
      InsertKeepsSorted(st.times, f.packet.time);
      if st'.HasPackets() {
        OpenedInOrder(st', h', rest);
      } else {
        assert After(st, f) == st';
        DecodeTimesFollow(st', h', rest);
        assert Session(st, frames).taken == Session(st', rest).taken;
      }
    }
  }

  /** A steady session hands out its decode times in order if its first window keeps the order. */
  lemma {:induction false} SessionDecodeTimesInOrder(frames: seq<Frame>)
    requires Steady(EMPTY, NOTHING, frames) && StartsInOrder(EMPTY, NOTHING, frames)
    ensures Sorted(DecodeTimes(Session(EMPTY, frames).taken))
  {
    DecodeTimesFollow(EMPTY, NOTHING, frames);
  }

  // ---------------------------------------------------------------- a stream that goes backwards

  function GroupStart(time: nat): Frame { Frame(Packet(time, 0, 1, 0, 0, true, None), true) }

  /** A pyramid of B-frames from time 0, and the next key frame. */
  const PYRAMID := [FrameAt(0)] + ([FrameAt(160)] + ([FrameAt(80)] + ([FrameAt(40)] + ([FrameAt(120)] + NEXT_GROUP))))
  const NEXT_GROUP := [GroupStart(320)]

  /** The state before anything leaves, after frames of one group. */
  ghost function Buffered(arrived: seq<nat>, sorted: seq<nat>, delay: nat): (st: State)
    requires |arrived| == |sorted| && Sorted(sorted)
    ensures st.Valid()
  {
    State(seq(|arrived|, i requires 0 <= i < |arrived| => FrameAt(arrived[i]).packet), sorted, delay, 0, |arrived|,
          INVALID_TRACK_ID, false)
  }

  lemma {:induction false} BufferedStep(arrived: seq<nat>, sorted: seq<nat>, delay: nat, time: nat)
    requires |arrived| == |sorted| < 16 && Sorted(sorted)
    ensures Sorted(Insert(sorted, time))
    ensures After(Buffered(arrived, sorted, delay), FrameAt(time))
            == Buffered(arrived + [time], Insert(sorted, time), NewMaxDelay(delay, false, Moves(sorted, time)))
    ensures Drain(Received(Buffered(arrived, sorted, delay), FrameAt(time))).taken == []
  {
    var st := Buffered(arrived, sorted, delay);
    InsertKeepsSorted(sorted, time);
    assert !Received(st, FrameAt(time)).HasPackets();
    assert Received(st, FrameAt(time)).queue == Buffered(arrived + [time], Insert(sorted, time), 0).queue;
  }

  /** Receiving a frame of the group lets nothing out. */
  lemma {:induction false} BufferedSession(arrived: seq<nat>, sorted: seq<nat>, delay: nat, time: nat,
                                           sorted': seq<nat>, delay': nat, rest: seq<Frame>)
    requires |arrived| == |sorted| < 16 && Sorted(sorted) && Sorted(sorted') && |sorted'| == |sorted| + 1
    requires sorted' == Insert(sorted, time) && delay' == NewMaxDelay(delay, false, Moves(sorted, time))
    ensures var frames, st' := [FrameAt(time)] + rest, Buffered(arrived + [time], sorted', delay');
            && Session(Buffered(arrived, sorted, delay), frames).taken == Session(st', rest).taken
            && (Steady(st', Past(arrived + [time], 0), rest)
                ==> Steady(Buffered(arrived, sorted, delay), Past(arrived, 0), frames))
  {
    hide Buffered, Insert, Moves, NewMaxDelay, Drain, Received;
    BufferedStep(arrived, sorted, delay, time);
    NotYet(arrived, sorted, delay);
    assert ([FrameAt(time)] + rest)[1..] == rest;
  }

  lemma {:induction false} NotYet(arrived: seq<nat>, sorted: seq<nat>, delay: nat)
    requires |arrived| == |sorted| && Sorted(sorted)
    ensures !Buffered(arrived, sorted, delay).initialized
  {
  }

  /** The pyramid with the next key frame received: five frames of a finished group, and the offset they need. */
  lemma {:induction false} PyramidWindow(st: State)
    requires st == Received(Buffered([0, 160, 80, 40, 120], [0, 40, 80, 120, 160], 3), GroupStart(320))
    ensures AtFirstExtraction(st) && st.times == [0, 40, 80, 120, 160, 320] && st.finished == 5 && st.ctr == 6
    ensures OffsetAtGet(st) == 80
  {
    assert Moves([0, 40, 80, 120, 160], 320) == 0;
    assert OffsetSearch(st.queue, st.times, 3, 0) == 0;
    assert OffsetSearch(st.queue, st.times, 4, 0) == 80;
  }

  lemma {:induction false} PyramidSorts()
    ensures Insert([], 0) == [0] && Insert([0], 160) == [0, 160] && Insert([0, 160], 80) == [0, 80, 160]
    ensures Insert([0, 80, 160], 40) == [0, 40, 80, 160] && Insert([0, 40, 80, 160], 120) == [0, 40, 80, 120, 160]
    ensures Moves([], 0) == Moves([0], 160) == 0 && Moves([0, 160], 80) == 1
    ensures Moves([0, 80, 160], 40) == 2 && Moves([0, 40, 80, 160], 120) == 1
  {
  }

  /** At least what is left of a finished group leaves. */
  lemma {:induction false} GroupLeaves(st: State, n: nat)
    requires st.Valid() && (n > 0 ==> st.finished != INVALID_TRACK_ID && st.finished - st.Removed() >= n)
    ensures n <= |Drain(st).taken| <= |st.queue|
    decreases |st.queue|
  {
    if st.HasPackets() {
      StepKeepsValid(st, Extract);
      GroupLeaves(Take(st).0, if n > 0 then n - 1 else 0);
    }
  }

  /** The key frame lets the group out: its second and third packets are decoded at 40 and 0. */
  lemma {:induction false} NextGroupGoesBack(st: State)
    requires st.Valid() && AtFirstExtraction(st) && OffsetAtGet(st) == 80
    requires st.times == [0, 40, 80, 120, 160, 320] && st.finished == 5 && st.ctr == 6
    ensures var r := Drain(st).taken; |r| > 2 && r[1].packet.time == 40 && r[2].packet.time == 0
  {
    hide Drain, OffsetAtGet;
    var n := |Drain(st).taken|;
    GroupLeaves(st, 5);
    DrainIsRun(st);
    DrainTakesHeadsInOrder(st, n);
    assert Extractions(n)[0] == Extract;
    DecodeTimeIs(st, Extractions(n), 1);
    DecodeTimeIs(st, Extractions(n), 2);
  }

  lemma {:induction false} LastOfSession(st: State, h: Past, f: Frame)
    requires st.Valid() && !st.initialized && f.packet.time >= BeforeFrame(h, f).floor
    ensures Steady(st, h, [f]) && Session(st, [f]).taken == Drain(Received(st, f)).taken
  {
    assert Drain(Received(st, f)).taken + [] == Drain(Received(st, f)).taken;
  }

  /** Starting with `frames` from `a` ends like starting with `rest` from `b`. */
  ghost predicate Leads(a: State, past: seq<nat>, frames: seq<Frame>, b: State, past': seq<nat>, rest: seq<Frame>) {
    && a.Valid() && b.Valid() && Session(a, frames).taken == Session(b, rest).taken
    && (Steady(b, Past(past', 0), rest) ==> Steady(a, Past(past, 0), frames))
  }

  lemma {:induction false} PyramidOpens(rest: seq<Frame>)
    ensures Leads(EMPTY, [], [FrameAt(0)] + rest, Buffered([0], [0], 0), [0], rest)
  {
    hide Insert, Moves, Session, Steady, Buffered, FrameAt;
    PyramidSorts();
    EmptyBuffered();
    assert [] + [0] == [0];
    BufferedSession([], [], 0, 0, [0], 0, rest);
  }

  lemma {:induction false} PyramidStarts(rest: seq<Frame>)
    ensures Leads(EMPTY, [], [FrameAt(0)] + ([FrameAt(160)] + rest), Buffered([0, 160], [0, 160], 0), [0, 160], rest)
  {
    hide Insert, Moves, Session, Steady, Buffered, FrameAt;
    PyramidSorts();
    PyramidOpens([FrameAt(160)] + rest);
    assert [0] + [160] == [0, 160];
    BufferedSession([0], [0], 0, 160, [0, 160], 0, rest);
  }

  lemma {:induction false} PyramidGoesDown(rest: seq<Frame>)
    ensures Leads(Buffered([0, 160], [0, 160], 0), [0, 160], [FrameAt(80)] + ([FrameAt(40)] + rest),
                  Buffered([0, 160, 80, 40], [0, 40, 80, 160], 3), [0, 160, 80, 40], rest)
  {
    hide Insert, Moves, Session, Steady, Buffered, FrameAt;
    PyramidSorts();
    assert [0, 160] + [80] == [0, 160, 80] && [0, 160, 80] + [40] == [0, 160, 80, 40];
    BufferedSession([0, 160], [0, 160], 0, 80, [0, 80, 160], 2, [FrameAt(40)] + rest);
    BufferedSession([0, 160, 80], [0, 80, 160], 2, 40, [0, 40, 80, 160], 3, rest);
  }

  lemma {:induction false} PyramidEnds(rest: seq<Frame>)
    ensures Leads(Buffered([0, 160, 80, 40], [0, 40, 80, 160], 3), [0, 160, 80, 40], [FrameAt(120)] + rest,
                  Buffered([0, 160, 80, 40, 120], [0, 40, 80, 120, 160], 3), [0, 160, 80, 40, 120], rest)
  {
    hide Insert, Moves, Session, Steady, Buffered, FrameAt;
    PyramidSorts();
    assert [0, 160, 80, 40] + [120] == [0, 160, 80, 40, 120];
    BufferedSession([0, 160, 80, 40], [0, 40, 80, 160], 3, 120, [0, 40, 80, 120, 160], 3, rest);
  }

  /** A steady session of six frames whose decode times go backwards. */
  lemma {:induction false} PyramidGoesBack()
    ensures Steady(EMPTY, NOTHING, PYRAMID) && !Sorted(DecodeTimes(Session(EMPTY, PYRAMID).taken))
  {
    hide Drain, Received, Session, Steady, Buffered;
    PyramidStarts([FrameAt(80)] + ([FrameAt(40)] + ([FrameAt(120)] + NEXT_GROUP)));
    PyramidGoesDown([FrameAt(120)] + NEXT_GROUP);
    PyramidEnds(NEXT_GROUP);
    var st := Buffered([0, 160, 80, 40, 120], [0, 40, 80, 120, 160], 3);
    NotYet([0, 160, 80, 40, 120], [0, 40, 80, 120, 160], 3);
    LastOfSession(st, Past([0, 160, 80, 40, 120], 0), GroupStart(320));
    PyramidWindow(Received(st, GroupStart(320)));
    NextGroupGoesBack(Received(st, GroupStart(320)));
    assert DecodeTimes(Session(EMPTY, PYRAMID).taken)[1] > DecodeTimes(Session(EMPTY, PYRAMID).taken)[2];
  }

  lemma {:induction false} EmptyBuffered()
    ensures EMPTY == Buffered([], [], 0)
  {
  }
}
