/** Reading the same frames again with the same predictor, flushed in between: the header pass and the pass that
    delivers. */
module TrackPredictorPasses {
  import opened Basics
  import opened TrackPredictorSpec
  import opened TrackPredictorTheorems
  import opened TrackPredictorSessions
  import opened TrackPredictorOrder
  import opened TrackPredictorStreams

  lemma {:induction false} SessionValid(st: State, frames: seq<Frame>)
    requires st.Valid()
    ensures Session(st, frames).state.Valid() && Session(st, frames).state.ctr == st.ctr + |frames|
    decreases |frames|
  {
    if frames != [] {
      hide Received, Drain;
      DrainKeepsCount(Received(st, frames[0]));
      ReceivedCounts(st, frames[0]);
      SessionValid(After(st, frames[0]), frames[1..]);
    }
  }

  lemma {:induction false} ReceivedCounts(st: State, f: Frame)
    requires st.Valid()
    ensures Received(st, f).ctr == st.ctr + 1
  {
  }

  lemma {:induction false} DrainKeepsCount(st: State)
    requires st.Valid()
    ensures Drain(st).state.ctr == st.ctr && Drain(st).state.finished == st.finished
    decreases |st.queue|
  {
    if st.HasPackets() {
      StepKeepsValid(st, Extract);
      DrainKeepsCount(Take(st).0);
    }
  }

  /** All frames, then the end: everything still held is released and drained. */
  ghost function Pass(st: State, frames: seq<Frame>): Outcome
    requires st.Valid()
  {
    SessionValid(st, frames);
    var s := Session(st, frames);
    var rest := Drain(Finish(s.state));
    Outcome(rest.state, s.taken + rest.taken)
  }

  // ---------------------------------------------------------------- a pass is a run

  ghost function PassEvents(st: State, frames: seq<Frame>): seq<Event>
    requires st.Valid()
  {
    SessionValid(st, frames);
    Events(st, frames) + ([Close] + Extractions(|Drain(Finish(Session(st, frames).state)).taken|))
  }

  lemma {:induction false} EndIsRun(st: State)
    requires st.Valid()
    ensures var evs := [Close] + Extractions(|Drain(Finish(st)).taken|);
            Feasible(st, evs) && Run(st, evs) == Drain(Finish(st))
  {
    var rest := Extractions(|Drain(Finish(st)).taken|);
    DrainIsRun(Finish(st));
    RunFirst(st, Close, rest);
    assert [] + Run(Finish(st), rest).taken == Run(Finish(st), rest).taken;
  }

  lemma {:induction false} PassIsRun(st: State, frames: seq<Frame>)
    requires st.Valid()
    ensures Feasible(st, PassEvents(st, frames)) && Run(st, PassEvents(st, frames)) == Pass(st, frames)
  {
    hide Session, Drain, Events, Run, Feasible;
    SessionValid(st, frames);
    SessionIsRun(st, frames);
    var s := Session(st, frames).state;
    EndIsRun(s);
    RunAppend(st, Events(st, frames), [Close] + Extractions(|Drain(Finish(s)).taken|));
  }

  /** An empty buffer, new or flushed. */
  ghost predicate Starting(st: State) {
    st.Valid() && st.queue == [] && st.ctr == 0 && st.finished == INVALID_TRACK_ID
  }

  lemma {:induction false} PassWithin(st: State, frames: seq<Frame>, d: nat)
    requires Starting(st) && Steady(st, NOTHING, frames) && d == Session(st, frames).state.maxDelay
    ensures Feasible(st, PassEvents(st, frames)) && WithinDelay(st, NOTHING, PassEvents(st, frames), d)
  {
    hide Session, Drain, Steady, Events;
    SessionValid(st, frames);
    SessionWithin(st, NOTHING, frames, d);
    SessionIsRun(st, frames);
    var s, h := Session(st, frames).state, LaterAll(NOTHING, Events(st, frames));
    EndWithin(s, h, d);
    WithinAppend(st, NOTHING, Events(st, frames), [Close] + Extractions(|Drain(Finish(s)).taken|), d);
  }

  lemma {:induction false} EndWithin(st: State, h: Past, d: nat)
    requires st.Valid() && st.maxDelay == d
    ensures var evs := [Close] + Extractions(|Drain(Finish(st)).taken|);
            Feasible(st, evs) && WithinDelay(st, h, evs, d)
  {
    hide Drain;
    DrainWithin(Finish(st), Later(h, Close), d);
    EventFirst(st, h, Close, Extractions(|Drain(Finish(st)).taken|), d);
  }

  lemma {:induction false} DrainsAll(st: State)
    requires st.Valid() && st.finished == st.ctr && st.ctr != INVALID_TRACK_ID
    ensures Drain(st).state.queue == []
    decreases |st.queue|
  {
    if st.HasPackets() {
      StepKeepsValid(st, Extract);
      DrainsAll(Take(st).0);
    }
  }

  // ---------------------------------------------------------------- what comes in

  function Packets(frames: seq<Frame>): seq<Packet> {
    if frames == [] then [] else [frames[0].packet.(offset := 0)] + Packets(frames[1..])
  }

  lemma {:induction false} ArrivalsConcat(a: seq<Event>, b: seq<Event>)
    ensures Arrivals(a + b) == Arrivals(a) + Arrivals(b)
    decreases |a|
  {
    hide Incoming;
    if a == [] {
      assert a + b == b && [] + Arrivals(b) == Arrivals(b);
    } else {
      assert (a + b)[1..] == a[1..] + b;
      ArrivalsConcat(a[1..], b);
      assert Incoming(a[0]) + (Arrivals(a[1..]) + Arrivals(b)) == (Incoming(a[0]) + Arrivals(a[1..])) + Arrivals(b);
    }
  }

  lemma {:induction false} NoneInExtractions(n: nat)
    ensures Arrivals(Extractions(n)) == []
  {
    if n > 0 {
      assert Extractions(n)[1..] == Extractions(n - 1);
      NoneInExtractions(n - 1);
    }
  }

  lemma {:induction false} FrameArrives(st: State, f: Frame)
    requires st.Valid()
    ensures Arrivals(FrameEvents(st, f)) == [f.packet.(offset := 0)]
  {
    hide Drain, Received;
    var out := Extractions(|Drain(Received(st, f)).taken|);
    NoneInExtractions(|Drain(Received(st, f)).taken|);
    assert ([Arrive(f.packet)] + out)[1..] == out;
    assert Arrivals([Arrive(f.packet)] + out) == [f.packet.(offset := 0)] + [];
    if f.finishFirst {
      assert ([Close] + ([Arrive(f.packet)] + out))[1..] == [Arrive(f.packet)] + out;
    } else {
      assert [] + ([Arrive(f.packet)] + out) == [Arrive(f.packet)] + out;
    }
  }

  lemma {:induction false} SessionArrives(st: State, frames: seq<Frame>)
    requires st.Valid()
    ensures Arrivals(Events(st, frames)) == Packets(frames)
    decreases |frames|
  {
    hide FrameEvents, After;
    if frames != [] {
      FrameArrives(st, frames[0]);
      SessionArrives(After(st, frames[0]), frames[1..]);
      ArrivalsConcat(FrameEvents(st, frames[0]), Events(After(st, frames[0]), frames[1..]));
    }
  }

  /** What comes in does not depend on the state the pass starts in. */
  lemma {:induction false} PassArrives(st: State, frames: seq<Frame>)
    requires st.Valid()
    ensures Arrivals(PassEvents(st, frames)) == Packets(frames)
  {
    hide Drain, Session, Events;
    SessionValid(st, frames);
    var n := |Drain(Finish(Session(st, frames).state)).taken|;
    SessionArrives(st, frames);
    NoneInExtractions(n);
    ArrivalsConcat([Close], Extractions(n));
    assert [Close][1..] == [] && Arrivals([Close]) == [];
    ArrivalsConcat(Events(st, frames), [Close] + Extractions(n));
  }

  // ---------------------------------------------------------------- what goes out

  /** A packet handed out with this head, under this delay and offset. */
  function Handed(p: Packet, head: nat, delay: nat, timeOffset: nat): Packet {
    if delay == 0 then p else Retimed(p, head, timeOffset)
  }

  lemma {:induction false} StaysFixed(st: State, evs: seq<Event>)
    requires Feasible(st, evs) && st.initialized
    ensures var r := Run(st, evs).state;
            r.initialized && r.maxDelay == st.maxDelay && r.timeOffset == st.timeOffset
    decreases |evs|
  {
    hide Insert, Moves;
    if evs != [] {
      StaysFixed(Next(st, evs[0]), evs[1..]);
    }
  }

  /** Every packet of a run is handed out under the delay and the offset that the run ends with. */
  lemma {:induction false} HandedOut(st: State, evs: seq<Event>, k: nat)
    requires Feasible(st, evs) && k < |Run(st, evs).taken| <= |Through(st, evs)|
    ensures var r := Run(st, evs);
            r.taken[k].packet == Handed(Through(st, evs)[k], r.taken[k].head, r.state.maxDelay, r.state.timeOffset)
    ensures Run(st, evs).state.initialized
    decreases |evs|
  {
    hide Insert, Moves, OffsetAtGet, Retimed;
    var st', evs' := Next(st, evs[0]), evs[1..];
    NoneLost(st', evs');
    if !evs[0].Extract? {
      HandedOut(st', evs', k);
    } else if k > 0 {
      HandedOut(st', evs', k - 1);
    } else {
      StaysFixed(st', evs');
    }
  }

  // ---------------------------------------------------------------- one pass

  lemma {:induction false} FirstIsLeast(a: seq<nat>, b: seq<nat>)
    requires Sorted(a) && b != [] && multiset(a) == multiset(b)
    ensures a != [] && a[0] <= b[0]
  {
    assert b[0] in multiset(a);
    var i :| 0 <= i < |a| && a[i] == b[0];
  }

  lemma {:induction false} TailBag(a: seq<nat>)
    requires a != []
    ensures multiset(a[1..]) == multiset(a) - multiset{a[0]}
  {
    assert a == [a[0]] + a[1..];
  }

  lemma {:induction false} SortedUnique(a: seq<nat>, b: seq<nat>)
    requires Sorted(a) && Sorted(b) && multiset(a) == multiset(b)
    ensures a == b
    decreases |a|
  {
    if a == [] {
      if b != [] {
        FirstIsLeast(a, b);
      }
    } else {
      FirstIsLeast(b, a);
      FirstIsLeast(a, b);
      TailBag(a);
      TailBag(b);
      SortedUnique(a[1..], b[1..]);
      assert a == [a[0]] + a[1..] && b == [b[0]] + b[1..];
    }
  }

  /** A steady pass takes the frames' sorted times as heads, and hands every packet out. */
  lemma {:induction false} PassTakesAll(st: State, frames: seq<Frame>)
    requires Starting(st) && Steady(st, NOTHING, frames) && |frames| < INVALID_TRACK_ID
    ensures var r := Pass(st, frames);
            && Sorted(Heads(r.taken)) && multiset(Heads(r.taken)) == multiset(Times(Packets(frames)))
            && r.state.queue == [] && r.state.Valid() && |r.taken| == |Packets(frames)|
  {
    hide Steady, Feasible, Run, WithinDelay, Session, Drain, PassEvents;
    SessionValid(st, frames);
    var evs, d := PassEvents(st, frames), Session(st, frames).state.maxDelay;
    PassWithin(st, frames, d);
    PassIsRun(st, frames);
    PassArrives(st, frames);
    HeadsSorted(st, NOTHING, evs, d);
    TimesConserved(st, evs);
    NoneLost(st, evs);
    DrainsAll(Finish(Session(st, frames).state));
    RunValid(st, evs);
    assert [] + Packets(frames) == Packets(frames);
    assert st.times == [] && Run(st, evs).state.times == [];
    assert multiset([]) + multiset(Heads(Run(st, evs).taken)) == multiset(Heads(Run(st, evs).taken));
  }

  lemma {:induction false} RunValid(st: State, evs: seq<Event>)
    requires st.Valid() && Feasible(st, evs)
    ensures Run(st, evs).state.Valid()
    decreases |evs|
  {
    if evs != [] {
      StepKeepsValid(st, evs[0]);
      RunValid(Next(st, evs[0]), evs[1..]);
    }
  }

  /** And each as its arrival, its head, and the delay and offset at the end of the pass say. */
  lemma {:induction false} PassHands(st: State, frames: seq<Frame>, k: nat)
    requires Starting(st) && k < |Pass(st, frames).taken| <= |Packets(frames)|
    ensures var r := Pass(st, frames);
            && r.taken[k].packet == Handed(Packets(frames)[k], r.taken[k].head, r.state.maxDelay, r.state.timeOffset)
            && r.state.initialized
  {
    hide Feasible, Run, Session, Drain, PassEvents, Handed;
    PassIsRun(st, frames);
    PassArrives(st, frames);
    assert [] + Packets(frames) == Packets(frames);
    HandedOut(st, PassEvents(st, frames), k);
  }

  // ---------------------------------------------------------------- the second pass

  /** What one pass allowed, another that starts with the delay it ended with allows from the beginning. */
  lemma {:induction false} SteadyAgain(st: State, again: State, h: Past, frames: seq<Frame>)
    requires Settled(st) && Fresh(st, h) && Steady(st, h, frames)
    requires again.Valid() && again.initialized && again.maxDelay == Session(st, frames).state.maxDelay
    ensures Steady(again, h, frames)
    decreases |frames|
  {
    if frames != [] {
      hide Received, Drain, Fresh, Settled;
      var f, rest := frames[0], frames[1..];
      FrameFits(st, h, f, rest, again.maxDelay);
      ReceivedAgain(again, f);
      SeenBefore(h, f, again.maxDelay);
      SteadyAgain(After(st, f), After(again, f), WithFrame(h, f), rest);
    }
  }

  lemma {:induction false} ReceivedAgain(st: State, f: Frame)
    requires st.Valid() && st.initialized
    ensures After(st, f).initialized && After(st, f).maxDelay == st.maxDelay
  {
    hide Drain;
    DrainInitializes(Received(st, f));
  }

  lemma {:induction false} SeenBefore(h: Past, f: Frame, d: nat)
    requires MayArrive(BeforeFrame(h, f), f.packet.time, d)
    ensures CountAbove(h.seen, f.packet.time) <= d
  {
  }

  /** Flushed after a pass, the predictor hands the same packets out again for the same frames: the delay and the offset
      it keeps are the ones it found. */
  lemma {:induction false} SecondPassSame(frames: seq<Frame>)
    requires Steady(EMPTY, NOTHING, frames) && |frames| < INVALID_TRACK_ID
    ensures var first := Pass(EMPTY, frames);
            first.state.Valid() && Flush(first.state).Valid() && Pass(Flush(first.state), frames).taken == first.taken
  {
    hide Pass, Steady, Session, Handed;
    PassTakesAll(EMPTY, frames);
    var first := Pass(EMPTY, frames);
    var again := Flush(first.state);
    if first.taken == [] {
      NoFramesNoPackets(again, frames);
    } else {
      PassHands(EMPTY, frames, 0);
      PassDelay(EMPTY, frames);
      SteadyAgain(EMPTY, again, NOTHING, frames);
      forall k | 0 <= k < |first.taken|
        ensures first.taken[k].packet
                == Handed(Packets(frames)[k], first.taken[k].head, first.state.maxDelay, first.state.timeOffset)
      {
        PassHands(EMPTY, frames, k);
      }
      SamePackets(again, frames, first);
    }
  }

  lemma {:induction false} NoFramesNoPackets(st: State, frames: seq<Frame>)
    requires st.Valid() && Packets(frames) == [] && st.queue == []
    ensures Pass(st, frames).taken == []
  {
    assert frames == [];
  }

  lemma {:induction false} PassDelay(st: State, frames: seq<Frame>)
    requires st.Valid()
    ensures Pass(st, frames).state.maxDelay == Session(st, frames).state.maxDelay
  {
    hide Session;
    SessionValid(st, frames);
  }

  lemma {:induction false} PassFixed(st: State, frames: seq<Frame>)
    requires st.Valid() && st.initialized
    ensures Pass(st, frames).state.maxDelay == st.maxDelay && Pass(st, frames).state.timeOffset == st.timeOffset
  {
    hide Pass, PassEvents;
    PassIsRun(st, frames);
    StaysFixed(st, PassEvents(st, frames));
  }

  lemma {:induction false} SamePackets(st: State, frames: seq<Frame>, first: Outcome)
    requires Starting(st) && st.initialized && Steady(st, NOTHING, frames) && |frames| < INVALID_TRACK_ID
    requires Sorted(Heads(first.taken)) && multiset(Heads(first.taken)) == multiset(Times(Packets(frames)))
    requires |first.taken| == |Packets(frames)|
    requires forall k :: 0 <= k < |first.taken| ==>
               first.taken[k].packet == Handed(Packets(frames)[k], first.taken[k].head, st.maxDelay, st.timeOffset)
    ensures Pass(st, frames).taken == first.taken
  {
    hide Pass, Steady, Handed;
    PassTakesAll(st, frames);
    PassFixed(st, frames);
    var r := Pass(st, frames);
    SortedUnique(Heads(r.taken), Heads(first.taken));
    forall k | 0 <= k < |r.taken| ensures r.taken[k] == first.taken[k] {
      PassHands(st, frames, k);
      assert Heads(r.taken)[k] == Heads(first.taken)[k];
    }
  }
}
