/** Which packets can be decoded too late, decided from what is buffered. */
module TrackPredictorLate {
  import opened Basics
  import opened TrackPredictorSpec
  import opened TrackPredictorTheorems
  import opened TrackPredictorSessions
  import opened TrackPredictorOrder
  import opened TrackPredictorStreams

  // ---------------------------------------------------------------- choosing a head

  /** n further packets with the same time. */
  function Piled(s: seq<nat>, x: nat, n: nat): (r: seq<nat>)
    ensures |r| == |s| + n
    decreases n
  {
    if n == 0 then s else Piled(Insert(s, x), x, n - 1)
  }

  lemma {:induction false} InsertedLast(s: seq<nat>, x: nat)
    ensures Insert(s, x)[|s|] >= x
  {
    if s != [] && s[|s| - 1] > x {
      InsertedLast(s[..|s| - 1], x);
    }
  }

  /** Insertion lowers no element below x. */
  lemma {:induction false} NotBelow(s: seq<nat>, x: nat, j: nat)
    requires Sorted(s) && j < |s| && s[j] >= x
    ensures Insert(s, x)[j] >= x
  {
    if s[|s| - 1] > x {
      if j == |s| - 1 {
        InsertedLast(s[..|s| - 1], x);
      } else {
        NotBelow(s[..|s| - 1], x, j);
      }
    }
  }

  /** One element more is at most x. */
  lemma {:induction false} OneMoreAtMost(s: seq<nat>, x: nat, m: nat)
    requires Sorted(s) && m <= |s| && forall i :: 0 <= i < m ==> s[i] <= x
    ensures forall i :: 0 <= i <= m ==> Insert(s, x)[i] <= x
  {
    if s != [] && s[|s| - 1] > x {
      OneMoreAtMost(s[..|s| - 1], x, m);
    }
  }

  /** With more than j copies of x, and nothing smaller behind position j, position j holds x. */
  lemma {:induction false} PiledAt(s: seq<nat>, x: nat, n: nat, j: nat, m: nat)
    requires Sorted(s) && j < |s| && s[j] >= x && m <= |s| && m + n > j
    requires forall i :: 0 <= i < m ==> s[i] <= x
    ensures Piled(s, x, n)[j] == x
    decreases n
  {
    if n > 0 {
      InsertKeepsSorted(s, x);
      NotBelow(s, x, j);
      OneMoreAtMost(s, x, m);
      PiledAt(Insert(s, x), x, n - 1, j, m + 1);
    }
  }

  /** Arrivals of one time, and then m extractions: the heads are those of the pile. */
  lemma {:induction false} PileRun(st: State, x: nat, n: nat, m: nat)
    requires st.Valid() && m <= |st.times| + n
    ensures Feasible(st, Push(x, n, m)) && |Run(st, Push(x, n, m)).taken| == m
    ensures forall k :: 0 <= k < m ==> Run(st, Push(x, n, m)).taken[k].head == Piled(st.times, x, n)[k]
    decreases n
  {
    if n == 0 {
      DrainTakesHeadsInOrder(st, m);
    } else {
      hide Insert, Feasible, Run, NewMaxDelay, Moves;
      var e, rest := ArriveAt(x), Push(x, n - 1, m);
      StepKeepsValid(st, e);
      PileRun(Next(st, e), x, n - 1, m);
      RunFirst(st, e, rest);
      assert [] + Run(Next(st, e), rest).taken == Run(Next(st, e), rest).taken;
    }
  }

  // ---------------------------------------------------------------- on time

  /** Every packet buffered now that leaves in this run is decoded no later than presented. */
  ghost predicate OnTime(st: State, evs: seq<Event>)
    requires Feasible(st, evs)
  {
    var r := Run(st, evs).taken;
    forall k :: 0 <= k < |st.queue| && k < |r| ==> r[k].packet.time <= st.queue[k].time
  }

  /** The packet's own sorted time is early enough after lowering, and so is every smaller one that stays below the
      offset and is not lowered. */
  predicate AlwaysEarly(sorted: nat, time: nat, timeOffset: nat) {
    && (sorted >= timeOffset ==> sorted - timeOffset <= time)
    && (sorted <= time || timeOffset <= time + 1)
  }

  lemma {:induction false} EarlyHeads(sorted: nat, head: nat, time: nat, timeOffset: nat)
    requires AlwaysEarly(sorted, time, timeOffset) && head <= sorted
    ensures Lowered(head, timeOffset) <= time
  {
  }

  /** Otherwise some head up to the sorted time comes out too late. */
  function LateHead(sorted: nat, time: nat, timeOffset: nat): nat {
    if sorted >= timeOffset && sorted - timeOffset > time then sorted
    else if sorted < timeOffset || timeOffset == 0 then sorted else timeOffset - 1
  }

  lemma {:induction false} LateHeadIsLate(sorted: nat, time: nat, timeOffset: nat)
    requires !AlwaysEarly(sorted, time, timeOffset)
    ensures var head := LateHead(sorted, time, timeOffset); head <= sorted && Lowered(head, timeOffset) > time
  {
  }

  lemma {:induction false} RetimedTime(p: Packet, head: nat, timeOffset: nat)
    ensures Retimed(p, head, timeOffset).time == Lowered(head, timeOffset)
  {
  }

  /** After the first extraction: the packets buffered now are on time in every continuation exactly when each of them
      is early enough for every head it can be given. */
  lemma {:induction false} BufferedNeverLateIff(st: State)
    requires st.Valid() && st.initialized && st.maxDelay > 0
    ensures (forall k :: 0 <= k < |st.times| ==> AlwaysEarly(st.times[k], st.queue[k].time, st.timeOffset))
            <==> forall evs | Feasible(st, evs) :: OnTime(st, evs)
  {
    if forall k :: 0 <= k < |st.times| ==> AlwaysEarly(st.times[k], st.queue[k].time, st.timeOffset) {
      forall evs | Feasible(st, evs) ensures OnTime(st, evs) {
        AllEarly(st, evs);
      }
    } else {
      var k :| 0 <= k < |st.times| && !AlwaysEarly(st.times[k], st.queue[k].time, st.timeOffset);
      var evs := OneLate(st, k);
    }
  }

  lemma {:induction false} AllEarly(st: State, evs: seq<Event>)
    requires st.Valid() && st.initialized && st.maxDelay > 0 && Feasible(st, evs)
    requires forall k :: 0 <= k < |st.times| ==> AlwaysEarly(st.times[k], st.queue[k].time, st.timeOffset)
    ensures OnTime(st, evs)
  {
    hide AlwaysEarly, Retimed, Lowered;
    var r := Run(st, evs).taken;
    forall k | 0 <= k < |st.queue| && k < |r| ensures r[k].packet.time <= st.queue[k].time {
      HeadIsRetimed(st, evs, k);
      EarlyHeads(st.times[k], r[k].head, st.queue[k].time, st.timeOffset);
    }
  }

  /** A packet buffered now leaves with a head no later than its sorted time, lowered if the offset allows. */
  lemma {:induction false} HeadIsRetimed(st: State, evs: seq<Event>, k: nat)
    requires st.Valid() && st.initialized && st.maxDelay > 0 && Feasible(st, evs)
    requires k < |st.queue| && k < |Run(st, evs).taken|
    ensures var out := Run(st, evs).taken[k];
            out.head <= st.times[k] && out.packet.time == Lowered(out.head, st.timeOffset)
  {
    HeadStaysBelow(st, evs, k);
    NoneLost(st, evs);
    OffsetIsFixed(st, evs, k);
    assert Through(st, evs)[k] == st.queue[k];
    RetimedTime(st.queue[k], Run(st, evs).taken[k].head, st.timeOffset);
  }

  lemma {:induction false} OneLate(st: State, k: nat) returns (evs: seq<Event>)
    requires st.Valid() && st.initialized && st.maxDelay > 0 && k < |st.times|
    requires !AlwaysEarly(st.times[k], st.queue[k].time, st.timeOffset)
    ensures Feasible(st, evs) && !OnTime(st, evs)
  {
    hide AlwaysEarly, LateHead, Lowered, Feasible, Run, Push;
    var x := LateHead(st.times[k], st.queue[k].time, st.timeOffset);
    LateHeadIsLate(st.times[k], st.queue[k].time, st.timeOffset);
    evs := Push(x, k + 1, k + 1);
    PileRun(st, x, k + 1, k + 1);
    PiledAt(st.times, x, k + 1, k, 0);
    HeadIsRetimed(st, evs, k);
  }

  // ---------------------------------------------------------------- the first window

  /** Before the first extraction the array holds the times of the queue. */
  ghost predicate SameTimes(st: State) {
    !st.initialized ==> multiset(st.times) == multiset(Times(st.queue))
  }

  lemma {:induction false} StepKeepsTimes(st: State, e: Event)
    requires st.Valid() && Enabled(st, e) && SameTimes(st)
    ensures SameTimes(Next(st, e))
  {
    if e.Arrive? {
      InsertKeepsSorted(st.times, e.packet.time);
      TimesConcat(st.queue, [e.packet.(offset := 0)]);
      assert Times([e.packet.(offset := 0)]) == [e.packet.time];
    }
  }

  /** So it does in every run from an empty buffer. */
  lemma {:induction false} RunKeepsTimes(st: State, evs: seq<Event>)
    requires st.Valid() && Feasible(st, evs) && SameTimes(st)
    ensures SameTimes(Run(st, evs).state)
    decreases |evs|
  {
    hide SameTimes;
    if evs != [] {
      StepKeepsValid(st, evs[0]);
      StepKeepsTimes(st, evs[0]);
      RunKeepsTimes(Next(st, evs[0]), evs[1..]);
    }
  }

  /** The first packet's head is then no later than its own time. */
  lemma {:induction false} FirstIsEarly(st: State)
    requires st.Valid() && !st.initialized && SameTimes(st) && |st.queue| > 0
    ensures st.times[0] <= st.queue[0].time
  {
    assert Times(st.queue)[0] == st.queue[0].time;
    assert st.queue[0].time in multiset(Times(st.queue));
    assert st.queue[0].time in st.times;
  }

  /** At the first extraction: every packet of the window is on time in every continuation exactly when no shift needs
      more than 32 bits, and each packet that can be given a later head has a time that reaches the offset or is one
      short of it. */
  lemma {:induction false} WindowNeverLateIff(st: State)
    requires AtFirstExtraction(st) && SameTimes(st)
    ensures ShiftsFit(st.queue, st.times)
            && (forall k :: 0 <= k < |st.times| ==>
                  st.times[k] <= st.queue[k].time || OffsetAtGet(st) <= st.queue[k].time + 1)
            <==> forall evs | StartsExtracting(st, evs) :: OnTime(st, evs)
  {
    var to := OffsetAtGet(st);
    WindowEarlyIff(st);
    if forall k :: 0 <= k < |st.times| ==> AlwaysEarly(st.times[k], st.queue[k].time, to) {
      forall evs | StartsExtracting(st, evs) ensures OnTime(st, evs) {
        WindowEarly(st, evs);
      }
    } else {
      var k :| 0 <= k < |st.times| && !AlwaysEarly(st.times[k], st.queue[k].time, to);
      var evs := OneOfWindowLate(st, k);
    }
  }

  /** The offset covers every shift that fits, and none that does not. */
  lemma {:induction false} WindowEarlyIff(st: State)
    requires AtFirstExtraction(st)
    ensures var to := OffsetAtGet(st);
            ShiftsFit(st.queue, st.times)
            && (forall k :: 0 <= k < |st.times| ==> st.times[k] <= st.queue[k].time || to <= st.queue[k].time + 1)
            <==> forall k :: 0 <= k < |st.times| ==> AlwaysEarly(st.times[k], st.queue[k].time, to)
  {
    var to := OffsetAtGet(st);
    OffsetExactIff(st.queue, st.times);
    if forall k :: 0 <= k < |st.times| ==> AlwaysEarly(st.times[k], st.queue[k].time, to) {
      forall k | 0 <= k < |st.times| ensures st.times[k] - st.queue[k].time < TWO_TO_THE_32 {
        assert AlwaysEarly(st.times[k], st.queue[k].time, to);
      }
    }
  }

  lemma {:induction false} WindowEarly(st: State, evs: seq<Event>)
    requires AtFirstExtraction(st) && StartsExtracting(st, evs)
    requires forall k :: 0 <= k < |st.times| ==> AlwaysEarly(st.times[k], st.queue[k].time, OffsetAtGet(st))
    ensures OnTime(st, evs)
  {
    hide AlwaysEarly, Lowered, OffsetAtGet;
    var r := Run(st, evs).taken;
    forall k | 0 <= k < |st.queue| && k < |r| ensures r[k].packet.time <= st.queue[k].time {
      HeadStaysBelow(st, evs, k);
      DecodeTimeIs(st, evs, k);
      EarlyHeads(st.times[k], r[k].head, st.queue[k].time, OffsetAtGet(st));
    }
  }

  lemma {:induction false} OneOfWindowLate(st: State, k: nat) returns (evs: seq<Event>)
    requires AtFirstExtraction(st) && SameTimes(st) && k < |st.times|
    requires !AlwaysEarly(st.times[k], st.queue[k].time, OffsetAtGet(st))
    ensures StartsExtracting(st, evs) && !OnTime(st, evs)
  {
    hide AlwaysEarly, LateHead, Lowered, OffsetAtGet, Push;
    var to := OffsetAtGet(st);
    var x := LateHead(st.times[k], st.queue[k].time, to);
    LateHeadIsLate(st.times[k], st.queue[k].time, to);
    FirstIsEarly(st);
    assert k > 0 by { FirstHeadEarly(st.times[0], st.queue[0].time, to); }
    StepKeepsValid(st, Extract);
    var st' := Next(st, Extract);
    var rest := Push(x, k, k);
    PileRun(st', x, k, k);
    PiledAt(st'.times, x, k, k - 1, 0);
    evs := [Extract] + rest;
    assert evs[1..] == rest;
    DecodeTimeIs(st, evs, k);
  }

  lemma {:induction false} FirstHeadEarly(sorted: nat, time: nat, timeOffset: nat)
    requires sorted <= time
    ensures AlwaysEarly(sorted, time, timeOffset)
  {
  }

  // ---------------------------------------------------------------- a stream with a late packet

  /** Five frames and the next key frame. The last but one of the group makes the offset 200, which the times below it
      never reach. */
  const LATE_STREAM := [FrameAt(0)] + ([FrameAt(80)] + ([FrameAt(40)] + ([FrameAt(300)] + ([FrameAt(100)] + NEXT_KEY))))
  const NEXT_KEY := [GroupStart(340)]

  lemma {:induction false} LateSorts()
    ensures Insert([], 0) == [0] && Insert([0], 80) == [0, 80] && Insert([0, 80], 40) == [0, 40, 80]
    ensures Insert([0, 40, 80], 300) == [0, 40, 80, 300] && Insert([0, 40, 80, 300], 100) == [0, 40, 80, 100, 300]
    ensures Moves([], 0) == Moves([0], 80) == Moves([0, 40, 80], 300) == 0
    ensures Moves([0, 80], 40) == Moves([0, 40, 80, 300], 100) == 1
  {
  }

  lemma {:induction false} LateStarts(rest: seq<Frame>)
    ensures Leads(EMPTY, [], [FrameAt(0)] + ([FrameAt(80)] + rest), Buffered([0, 80], [0, 80], 0), [0, 80], rest)
  {
    hide Insert, Moves, Session, Steady, Buffered, FrameAt;
    LateSorts();
    PyramidOpens([FrameAt(80)] + rest);
    assert [0] + [80] == [0, 80];
    BufferedSession([0], [0], 0, 80, [0, 80], 0, rest);
  }

  lemma {:induction false} LateGoesOn(rest: seq<Frame>)
    ensures Leads(Buffered([0, 80], [0, 80], 0), [0, 80], [FrameAt(40)] + ([FrameAt(300)] + rest),
                  Buffered([0, 80, 40, 300], [0, 40, 80, 300], 2), [0, 80, 40, 300], rest)
  {
    hide Insert, Moves, Session, Steady, Buffered, FrameAt;
    LateSorts();
    assert [0, 80] + [40] == [0, 80, 40] && [0, 80, 40] + [300] == [0, 80, 40, 300];
    BufferedSession([0, 80], [0, 80], 0, 40, [0, 40, 80], 2, [FrameAt(300)] + rest);
    BufferedSession([0, 80, 40], [0, 40, 80], 2, 300, [0, 40, 80, 300], 2, rest);
  }

  lemma {:induction false} LateEnds(rest: seq<Frame>)
    ensures Leads(Buffered([0, 80, 40, 300], [0, 40, 80, 300], 2), [0, 80, 40, 300], [FrameAt(100)] + rest,
                  Buffered([0, 80, 40, 300, 100], [0, 40, 80, 100, 300], 2), [0, 80, 40, 300, 100], rest)
  {
    hide Insert, Moves, Session, Steady, Buffered, FrameAt;
    LateSorts();
    assert [0, 80, 40, 300] + [100] == [0, 80, 40, 300, 100];
    BufferedSession([0, 80, 40, 300], [0, 40, 80, 300], 2, 100, [0, 40, 80, 100, 300], 2, rest);
  }

  lemma {:induction false} LateWindow(st: State)
    requires st == Received(Buffered([0, 80, 40, 300, 100], [0, 40, 80, 100, 300], 2), GroupStart(340))
    ensures AtFirstExtraction(st) && st.times == [0, 40, 80, 100, 300, 340] && st.finished == 5 && st.ctr == 6
    ensures OffsetAtGet(st) == 200 && st.queue[2] == FrameAt(40).packet
  {
    assert Moves([0, 40, 80, 100, 300], 340) == 0;
    assert OffsetSearch(st.queue, st.times, 3, 0) == 40;
    assert OffsetSearch(st.queue, st.times, 5, 0) == 200;
  }

  lemma {:induction false} ThirdIsLate(st: State)
    requires st.Valid() && AtFirstExtraction(st) && OffsetAtGet(st) == 200
    requires st.times == [0, 40, 80, 100, 300, 340] && st.finished == 5 && st.ctr == 6
    requires st.queue[2] == FrameAt(40).packet
    ensures var r := Drain(st).taken; |r| > 2 && r[2].packet == FrameAt(40).packet.(time := 80)
  {
    hide Drain, OffsetAtGet;
    var n := |Drain(st).taken|;
    GroupLeaves(st, 5);
    DrainIsRun(st);
    DrainTakesHeadsInOrder(st, n);
    assert Extractions(n)[0] == Extract;
    WindowIsRetimed(st, Extractions(n));
  }

  /** A steady session in which the frame to be shown at 40 is decoded and shown at 80. */
  lemma {:induction false} FrameIsLate()
    ensures Steady(EMPTY, NOTHING, LATE_STREAM)
    ensures var r := Session(EMPTY, LATE_STREAM).taken; |r| > 2 && r[2].packet == LATE_STREAM[2].packet.(time := 80)
  {
    hide Drain, Received, Session, Steady, Buffered;
    LateStarts([FrameAt(40)] + ([FrameAt(300)] + ([FrameAt(100)] + NEXT_KEY)));
    LateGoesOn([FrameAt(100)] + NEXT_KEY);
    LateEnds(NEXT_KEY);
    var st := Buffered([0, 80, 40, 300, 100], [0, 40, 80, 100, 300], 2);
    NotYet([0, 80, 40, 300, 100], [0, 40, 80, 100, 300], 2);
    LastOfSession(st, Past([0, 80, 40, 300, 100], 0), GroupStart(340));
    LateWindow(Received(st, GroupStart(340)));
    ThirdIsLate(Received(st, GroupStart(340)));
  }
}
