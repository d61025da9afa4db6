/** Sessions: packets are added one at a time and the buffer is drained after each. They never need
    more slots than the ring has exactly when no packet of the first window moves 23 places. */
module TrackPredictorSessions {
  import opened Basics
  import opened TrackPredictorSpec

  const PKT_COUNT := 24

  /** One parsed frame; a key frame first finishes everything before it. */
  datatype Frame = Frame(packet: Packet, finishFirst: bool)

  function Received(st: State, f: Frame): (r: State)
    requires st.Valid()
    ensures r.Valid()
  {
    InsertKeepsSorted(st.times, f.packet.time);
    Add(if f.finishFirst then Finish(st) else st, f.packet)
  }

  /** Takes packets while the predictor says it has any. */
  function Drain(st: State): (r: Outcome)
    requires st.Valid()
    ensures Settled(r.state) && r.state.maxDelay == st.maxDelay
    decreases |st.queue|
  {
    if !st.HasPackets() then Outcome(st, [])
    else
      StepKeepsValid(st, Extract);
      var rest := Drain(Take(st).0);
      Outcome(rest.state, [Take(st).1] + rest.taken)
  }

  /** The packets still held after a drain: what a finish has released leaves first, and after that, if anything ever
      left or more than 16 packets have come in, everything beyond the delay. */
  lemma {:induction false} DrainLeaves(st: State)
    requires st.Valid()
    ensures var n, gone := |st.queue|, st.ctr - |st.queue|;
            var released := if st.finished == 0xFFFF_FFFF || st.finished <= gone then 0 else st.finished - gone;
            var held := n - released;
            |Drain(st).state.queue| ==
            if (st.initialized || released > 0 || st.ctr > 16) && held > st.maxDelay then st.maxDelay else held
    decreases |st.queue|
  {
    if st.HasPackets() {
      StepKeepsValid(st, Extract);
      DrainLeaves(Take(st).0);
    }
  }

  /** A drained predictor. */
  ghost predicate Settled(st: State) {
    st.Valid() && !st.HasPackets()
  }

  function After(st: State, f: Frame): (r: State)
    requires st.Valid()
    ensures Settled(r) && r.maxDelay == Received(st, f).maxDelay
  {
    Drain(Received(st, f)).state
  }

  /** The state a session ends in, and everything it let out. */
  function Session(st: State, frames: seq<Frame>): (r: Outcome)
    requires st.Valid()
    decreases |frames|
  {
    if frames == [] then Outcome(st, [])
    else
      var rest := Session(After(st, frames[0]), frames[1..]);
      Outcome(rest.state, Drain(Received(st, frames[0])).taken + rest.taken)
  }

  /** The most packets ever buffered at once. */
  function Peak(st: State, frames: seq<Frame>): nat
    requires st.Valid()
    decreases |frames|
  {
    if frames == [] then |st.queue|
    else Max(|Received(st, frames[0]).queue|, Peak(After(st, frames[0]), frames[1..]))
  }

  function Max(a: nat, b: nat): nat { if a > b then a else b }

  /** Until the first extraction, no packet moves more than d places in the sorted list. */
  predicate MovesAtMost(st: State, frames: seq<Frame>, d: nat)
    requires st.Valid()
    decreases |frames|
  {
    frames == [] || (
      && (!st.initialized ==> Moves(st.times, frames[0].packet.time) <= d)
      && MovesAtMost(After(st, frames[0]), frames[1..], d))
  }

  /** What a session does, event by event. */
  function Events(st: State, frames: seq<Frame>): seq<Event>
    requires st.Valid()
    decreases |frames|
  {
    if frames == [] then []
    else FrameEvents(st, frames[0]) + Events(After(st, frames[0]), frames[1..])
  }

  function FrameEvents(st: State, f: Frame): seq<Event>
    requires st.Valid()
  {
    (if f.finishFirst then [Close] else []) + ([Arrive(f.packet)] + Extractions(|Drain(Received(st, f)).taken|))
  }

  lemma {:induction false} RunAppend(st: State, a: seq<Event>, b: seq<Event>)
    requires Feasible(st, a) && Feasible(Run(st, a).state, b)
    ensures Feasible(st, a + b)
    ensures Run(st, a + b) == Outcome(Run(Run(st, a).state, b).state, Run(st, a).taken + Run(Run(st, a).state, b).taken)
    decreases |a|
  {
    hide Next, Emitted, Enabled;
    if a == [] {
      assert a + b == b;
    } else {
      var st', a' := Next(st, a[0]), a[1..];
      RunAppend(st', a', b);
      assert (a + b)[1..] == a' + b && (a + b)[0] == a[0];
      var out, first, second := Emitted(st, a[0]), Run(st', a').taken, Run(Run(st', a').state, b).taken;
      Assoc(out, first, second);
    }
  }

  lemma {:induction false} DrainIsRun(st: State)
    requires st.Valid()
    ensures Feasible(st, Extractions(|Drain(st).taken|)) && Run(st, Extractions(|Drain(st).taken|)) == Drain(st)
    decreases |st.queue|
  {
    if st.HasPackets() {
      StepKeepsValid(st, Extract);
      var n := |Drain(st).taken|;
      DrainIsRun(Take(st).0);
      assert Extractions(n)[1..] == Extractions(n - 1);
    }
  }

  lemma {:induction false} FrameIsRun(st: State, f: Frame)
    requires st.Valid()
    ensures Feasible(st, FrameEvents(st, f)) && Run(st, FrameEvents(st, f)) == Drain(Received(st, f))
  {
    var evs := Extractions(|Drain(Received(st, f)).taken|);
    var closed := if f.finishFirst then Finish(st) else st;
    DrainIsRun(Received(st, f));
    assert ([Arrive(f.packet)] + evs)[1..] == evs;
    assert Run(closed, [Arrive(f.packet)] + evs) == Drain(Received(st, f));
    if f.finishFirst {
      assert FrameEvents(st, f)[1..] == [Arrive(f.packet)] + evs;
    } else {
      assert FrameEvents(st, f) == [Arrive(f.packet)] + evs;
    }
  }

  /** A session is one of the runs the theorems speak of. */
  lemma {:induction false} SessionIsRun(st: State, frames: seq<Frame>)
    requires st.Valid()
    ensures Feasible(st, Events(st, frames)) && Run(st, Events(st, frames)) == Session(st, frames)
    decreases |frames|
  {
    if frames != [] {
      FrameIsRun(st, frames[0]);
      SessionIsRun(After(st, frames[0]), frames[1..]);
      RunAppend(st, FrameEvents(st, frames[0]), Events(After(st, frames[0]), frames[1..]));
    }
  }

  lemma {:induction false} ReceivedFits(st: State, f: Frame)
    requires Settled(st)
    ensures st.maxDelay <= Received(st, f).maxDelay
    ensures |Received(st, f).queue| <= 17 || |Received(st, f).queue| <= Received(st, f).maxDelay + 1
  {
    hide Insert, Moves;
  }

  lemma {:induction false} DelayGrows(st: State, frames: seq<Frame>)
    requires Settled(st)
    ensures st.maxDelay <= Session(st, frames).state.maxDelay
    decreases |frames|
  {
    if frames != [] {
      hide After, Received, Settled;
      ReceivedFits(st, frames[0]);
      DelayGrows(After(st, frames[0]), frames[1..]);
    }
  }

  lemma {:induction false} PeakFits(st: State, frames: seq<Frame>, d: nat)
    requires Settled(st) && Session(st, frames).state.maxDelay <= d
    ensures Peak(st, frames) <= 17 || Peak(st, frames) <= d + 1
    decreases |frames|
  {
    if frames != [] {
      hide After, Received, Settled;
      ReceivedFits(st, frames[0]);
      DelayGrows(After(st, frames[0]), frames[1..]);
      PeakFits(After(st, frames[0]), frames[1..], d);
    }
  }

  /** The slots a session needs are bounded by the delay seen at its end. */
  lemma {:induction false} PeakFollowsDelay(st: State, frames: seq<Frame>)
    requires Settled(st)
    ensures st.maxDelay <= Session(st, frames).state.maxDelay
    ensures Peak(st, frames) <= Max(17, Session(st, frames).state.maxDelay + 1)
  {
    hide Peak, Session;
    DelayGrows(st, frames);
    PeakFits(st, frames, Session(st, frames).state.maxDelay);
  }

  lemma {:induction false} DelayFollowsMoves(st: State, frames: seq<Frame>, d: nat)
    requires st.Valid() && st.maxDelay <= d + 1 && MovesAtMost(st, frames, d)
    ensures Session(st, frames).state.maxDelay <= d + 1
    decreases |frames|
  {
    if frames == [] {
    } else {
      DelayFollowsMoves(After(st, frames[0]), frames[1..], d);
    }
  }

  /** With no packet of the first window moving more than d places, at most max(17, d + 2) slots are used:
      17 for d up to 15, and within the ring for d up to 22. */
  lemma {:induction false} SlotsFollowMoves(st: State, frames: seq<Frame>, d: nat)
    requires Settled(st) && st.maxDelay <= d + 1 && MovesAtMost(st, frames, d)
    ensures Peak(st, frames) <= Max(17, d + 2)
  {
    var delay := Session(st, frames).state.maxDelay;
    assert delay <= d + 1 by { DelayFollowsMoves(st, frames, d); }
    PeakFollowsDelay(st, frames);
  }

  lemma {:induction false} RingSuffices(frames: seq<Frame>, d: nat)
    requires MovesAtMost(EMPTY, frames, d)
    ensures d <= 15 ==> Peak(EMPTY, frames) <= 17
    ensures d <= 22 ==> Peak(EMPTY, frames) <= PKT_COUNT
  {
    SlotsFollowMoves(EMPTY, frames, d);
  }

  ghost predicate AllAbove(s: seq<nat>, x: nat) {
    forall i :: 0 <= i < |s| ==> s[i] > x
  }

  /** A predictor that has received k packets with falling times and let nothing out. */
  ghost predicate Stuck(st: State, k: nat) {
    && st.Valid() && !st.initialized && |st.queue| == k && st.finished == INVALID_TRACK_ID
    && st.maxDelay == if k <= 1 then 0 else k
  }

  lemma {:induction false} MovesAll(s: seq<nat>, x: nat)
    requires AllAbove(s, x)
    ensures Moves(s, x) == |s|
  {
    if s != [] {
      MovesAll(s[..|s| - 1], x);
    }
  }

  lemma {:induction false} StuckStep(st: State, k: nat, f: Frame, next: nat)
    requires Stuck(st, k) && AllAbove(st.times, f.packet.time) && !f.finishFirst && f.packet.time > next
    ensures Stuck(After(st, f), k + 1) && AllAbove(After(st, f).times, next)
    ensures Moves(st.times, f.packet.time) == k
  {
    var ts := Insert(st.times, f.packet.time);
    MovesAll(st.times, f.packet.time);
    InsertKeepsSorted(st.times, f.packet.time);
    assert forall i :: 0 <= i < |ts| ==> ts[i] in ts;
    assert !Received(st, f).HasPackets();
  }

  /** A frame of the same group with only a time. */
  function FrameAt(time: nat): Frame { Frame(Packet(time, 0, 1, 0, 0, false, None), false) }

  /** Times that fall from n to 1, and then one later than all of them. */
  function Descent(n: nat, late: nat): seq<Frame> {
    if n == 0 then [FrameAt(late)] else [FrameAt(n)] + Descent(n - 1, late)
  }

  lemma {:induction false} FirstFrame(st: State, f: Frame, rest: seq<Frame>, d: nat)
    requires st.Valid()
    ensures Peak(st, [f] + rest) >= Peak(After(st, f), rest)
    ensures Peak(st, [f] + rest) >= |Received(st, f).queue|
    ensures Moves(st.times, f.packet.time) <= d && MovesAtMost(After(st, f), rest, d) ==> MovesAtMost(st, [f] + rest, d)
  {
    hide After, Received, Moves;
    assert ([f] + rest)[1..] == rest;
  }

  lemma {:induction false} DescentPilesUp(st: State, k: nat, n: nat, late: nat)
    requires Stuck(st, k) && AllAbove(st.times, n) && AllAtMost(st.times, late) && k + n > 0 && n <= late
    ensures MovesAtMost(st, Descent(n, late), k + n - 1) && Peak(st, Descent(n, late)) > k + n
    decreases n
  {
    hide After, Received, Moves, Peak, MovesAtMost;
    if n == 0 {
      LateStays(st, k, late);
    } else {
      var f := FrameAt(n);
      StuckStep(st, k, f, n - 1);
      StuckTimes(st, f, k, late);
      DescentPilesUp(After(st, f), k + 1, n - 1, late);
      FirstFrame(st, f, Descent(n - 1, late), k + n - 1);
    }
  }

  lemma {:induction false} LateStays(st: State, k: nat, late: nat)
    requires Stuck(st, k) && AllAtMost(st.times, late) && k > 0
    ensures MovesAtMost(st, Descent(0, late), k - 1) && Peak(st, Descent(0, late)) > k
  {
    hide After, Peak, MovesAtMost;
    assert Moves(st.times, late) == 0;
    assert |Received(st, FrameAt(late)).queue| == k + 1;
    NoFrames(After(st, FrameAt(late)), k - 1);
    FirstFrame(st, FrameAt(late), [], k - 1);
    assert [FrameAt(late)] + [] == Descent(0, late);
  }

  lemma {:induction false} NoFrames(st: State, d: nat)
    requires st.Valid()
    ensures MovesAtMost(st, [], d)
  {
  }

  lemma {:induction false} StuckTimes(st: State, f: Frame, k: nat, late: nat)
    requires Stuck(st, k) && Stuck(After(st, f), k + 1) && !f.finishFirst
    requires AllAtMost(st.times, late) && f.packet.time <= late
    ensures AllAtMost(After(st, f).times, late)
  {
    InsertKeepsSorted(st.times, f.packet.time);
    var ts := Insert(st.times, f.packet.time);
    assert forall i :: 0 <= i < |ts| ==> ts[i] in ts;
    assert !Received(st, f).HasPackets();
  }

  /** The ring is large enough exactly when no packet of the first window moves more than 22 places: 24 falling times
      move at most 23, none of them is let out, and the next frame needs a 25th slot. */
  lemma {:induction false} RingSufficesIff(d: nat)
    ensures d <= 22 <==> forall frames | MovesAtMost(EMPTY, frames, d) :: Peak(EMPTY, frames) <= PKT_COUNT
  {
    hide MovesAtMost, Peak, Descent;
    if d <= 22 {
      forall frames | MovesAtMost(EMPTY, frames, d) ensures Peak(EMPTY, frames) <= PKT_COUNT {
        RingSuffices(frames, d);
      }
    } else {
      DescentPilesUp(EMPTY, 0, 24, 24);
      FewerMoves(EMPTY, Descent(24, 24), 23, d);
    }
  }

  lemma {:induction false} FewerMoves(st: State, frames: seq<Frame>, d: nat, e: nat)
    requires st.Valid() && d <= e && MovesAtMost(st, frames, d)
    ensures MovesAtMost(st, frames, e)
    decreases |frames|
  {
    if frames != [] {
      FewerMoves(After(st, frames[0]), frames[1..], d, e);
    }
  }
}
