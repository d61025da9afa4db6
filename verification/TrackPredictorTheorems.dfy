/** What the predictor guarantees over whole runs of arrivals and extractions. */
module TrackPredictorTheorems {
  import opened Basics
  import opened TrackPredictorSpec

  lemma {:induction false} RunFirst(st: State, e: Event, rest: seq<Event>)
    requires Enabled(st, e) && Feasible(Next(st, e), rest)
    ensures Feasible(st, [e] + rest)
    ensures Run(st, [e] + rest) == Outcome(Run(Next(st, e), rest).state, Emitted(st, e) + Run(Next(st, e), rest).taken)
  {
    hide Enabled, Next, Emitted;
    assert ([e] + rest)[1..] == rest && ([e] + rest)[0] == e;
  }

  // ---------------------------------------------------------------- order and conservation

  predicate SamePayload(a: Packet, b: Packet) {
    a == b.(time := a.time, offset := a.offset)
  }

  /** All packets of a run: those buffered at its start, then those that arrive. */
  function Through(st: State, evs: seq<Event>): seq<Packet> {
    st.queue + Arrivals(evs)
  }

  /** Every packet has either left or is still queued. */
  lemma {:induction false} NoneLost(st: State, evs: seq<Event>)
    requires Feasible(st, evs)
    ensures |Run(st, evs).taken| + |Run(st, evs).state.queue| == |Through(st, evs)|
    decreases |evs|
  {
    if evs == [] {
    } else {
      NoneLost(Next(st, evs[0]), evs[1..]);
    }
  }

  /** What is still queued are the packets after those that left, in order. */
  lemma {:induction false} StillQueued(st: State, evs: seq<Event>, k: nat)
    requires Feasible(st, evs) && k < |Run(st, evs).state.queue|
    requires |Run(st, evs).taken| + |Run(st, evs).state.queue| == |Through(st, evs)|
    ensures Run(st, evs).state.queue[k] == Through(st, evs)[|Run(st, evs).taken| + k]
    decreases |evs|
  {
    if evs == [] {
    } else {
      NoneLost(Next(st, evs[0]), evs[1..]);
      StillQueued(Next(st, evs[0]), evs[1..], k);
    }
  }

  /** The k-th packet to leave is the k-th packet that came. */
  lemma {:induction false} FirstInFirstOut(st: State, evs: seq<Event>, k: nat)
    requires Feasible(st, evs) && k < |Run(st, evs).taken| <= |Through(st, evs)|
    ensures SamePayload(Run(st, evs).taken[k].packet, Through(st, evs)[k])
    decreases |evs|
  {
    var st', evs' := Next(st, evs[0]), evs[1..];
    NoneLost(st', evs');
    if !evs[0].Extract? {
      FirstInFirstOut(st', evs', k);
    } else if k > 0 {
      FirstInFirstOut(st', evs', k - 1);
    }
  }

  /** Packets leave in arrival order, each once, and the rest is still queued in order. */
  lemma {:induction false} InOrderNoneLost(st: State, evs: seq<Event>)
    requires Feasible(st, evs)
    ensures var r := Run(st, evs); var all := st.queue + Arrivals(evs);
            && |r.taken| + |r.state.queue| == |all|
            && (forall k :: 0 <= k < |r.taken| ==> SamePayload(r.taken[k].packet, all[k]))
            && (forall k :: 0 <= k < |r.state.queue| ==> r.state.queue[k] == all[|r.taken| + k])
  {
    NoneLost(st, evs);
    forall k | 0 <= k < |Run(st, evs).taken|
      ensures SamePayload(Run(st, evs).taken[k].packet, Through(st, evs)[k])
    {
      FirstInFirstOut(st, evs, k);
    }
    forall k | 0 <= k < |Run(st, evs).state.queue|
      ensures Run(st, evs).state.queue[k] == Through(st, evs)[|Run(st, evs).taken| + k]
    {
      StillQueued(st, evs, k);
    }
  }

  lemma {:induction false} StepConserves(st: State, e: Event)
    requires st.Valid() && Enabled(st, e)
    ensures multiset(Next(st, e).times) + multiset(Heads(Emitted(st, e))) == multiset(st.times) + multiset(Times(Incoming(e)))
  {
    match e
    case Arrive(p) =>
      InsertKeepsSorted(st.times, p.time);
      assert Heads([]) == [] && Times(Incoming(e)) == [p.time];
    case Extract =>
      assert st.times == [st.times[0]] + st.times[1..];
      assert Heads(Emitted(st, e)) == [st.times[0]] && Times([]) == [];
    case Close =>
  }

  lemma {:induction false} HeadsConcat(a: seq<Taken>, b: seq<Taken>)
    ensures Heads(a + b) == Heads(a) + Heads(b)
  {
  }

  lemma {:induction false} TimesConcat(a: seq<Packet>, b: seq<Packet>)
    ensures Times(a + b) == Times(a) + Times(b)
  {
  }

  /** The sorted list is always the sorted rearrangement of every time that came in minus every head that left. */
  lemma {:induction false} TimesConserved(st: State, evs: seq<Event>)
    requires st.Valid() && Feasible(st, evs)
    ensures Sorted(Run(st, evs).state.times)
    ensures multiset(Run(st, evs).state.times) + multiset(Heads(Run(st, evs).taken))
            == multiset(st.times) + multiset(Times(Arrivals(evs)))
    decreases |evs|
  {
    if evs == [] {
      assert Heads([]) == [] && Times([]) == [];
    } else {
      var e, st', evs' := evs[0], Next(st, evs[0]), evs[1..];
      StepKeepsValid(st, e);
      TimesConserved(st', evs');
      StepConserves(st, e);
      var rest := Run(st', evs');
      HeadsConcat(Emitted(st, e), rest.taken);
      TimesConcat(Incoming(e), Arrivals(evs'));
      calc {
        multiset(rest.state.times) + multiset(Heads(Emitted(st, e)) + Heads(rest.taken));
        multiset(rest.state.times) + multiset(Heads(rest.taken)) + multiset(Heads(Emitted(st, e)));
        multiset(st'.times) + multiset(Heads(Emitted(st, e))) + multiset(Times(Arrivals(evs')));
        multiset(st.times) + multiset(Times(Incoming(e))) + multiset(Times(Arrivals(evs')));
        multiset(st.times) + multiset(Times(Incoming(e)) + Times(Arrivals(evs')));
      }
    }
  }

  // ---------------------------------------------------------------- decode times

  /** The k-th delete-min of a multiset that only grows in between is at most its k-th smallest element
      at the start. */
  lemma {:induction false} HeadStaysBelow(st: State, evs: seq<Event>, k: nat)
    requires st.Valid() && Feasible(st, evs) && k < |st.times| && k < |Run(st, evs).taken|
    ensures Run(st, evs).taken[k].head <= st.times[k]
    decreases |evs|
  {
    var st', evs' := Next(st, evs[0]), evs[1..];
    StepKeepsValid(st, evs[0]);
    match evs[0]
    case Arrive(p) =>
      HeadStaysBelow(st', evs', k);
      InsertLowers(st.times, p.time, k);
    case Extract =>
      if k > 0 {
        HeadStaysBelow(st', evs', k - 1);
      }
    case Close =>
      HeadStaysBelow(st', evs', k);
  }

  /** Once initialised with a delay, the offset never changes and every packet is retimed with it: the head is lowered
      by the offset if it reaches it, and the packet's own offset makes up for its original time, except for a
      difference under 3 ms, which is dropped. */
  lemma {:induction false} OffsetIsFixed(st: State, evs: seq<Event>, k: nat)
    requires Feasible(st, evs) && st.initialized && st.maxDelay > 0
    requires k < |Run(st, evs).taken| <= |Through(st, evs)|
    ensures var out := Run(st, evs).taken[k]; out.packet == Retimed(Through(st, evs)[k], out.head, st.timeOffset)
    ensures var src, p, head := Through(st, evs)[k], Run(st, evs).taken[k].packet, Run(st, evs).taken[k].head;
            && (head >= st.timeOffset ==> p.time + st.timeOffset == head) && (head < st.timeOffset ==> p.time == head)
            && (src.offset == 0 && src.time >= p.time + 3 ==> p.time + p.offset == src.time)
            && (src.offset == 0 && src.time < p.time + 3 ==> p.offset == 0)
    decreases |evs|
  {
    var st', evs' := Next(st, evs[0]), evs[1..];
    NoneLost(st', evs');
    if !evs[0].Extract? {
      OffsetIsFixed(st', evs', k);
    } else if k > 0 {
      OffsetIsFixed(st', evs', k - 1);
    }
  }

  /** The largest amount by which a sorted time exceeds the arrival time in the same slot, or 0. */
  ghost function LargestShift(pkts: seq<Packet>, times: seq<nat>, n: nat): (r: nat)
    requires n <= |pkts| && n <= |times|
    ensures forall i :: 0 <= i < n ==> times[i] - pkts[i].time <= r
    ensures r == 0 || exists i :: 0 <= i < n && times[i] - pkts[i].time == r
  {
    if n == 0 then 0
    else
      var r := LargestShift(pkts, times, n - 1);
      if times[n - 1] - pkts[n - 1].time > r then times[n - 1] - pkts[n - 1].time else r
  }

  ghost predicate ShiftsFit(pkts: seq<Packet>, times: seq<nat>)
    requires |pkts| == |times|
  {
    forall i :: 0 <= i < |pkts| ==> times[i] - pkts[i].time < TWO_TO_THE_32
  }

  lemma {:induction false} SearchFindsLargest(pkts: seq<Packet>, times: seq<nat>, n: nat)
    requires n <= |pkts| && n <= |times|
    requires forall i :: 0 <= i < n ==> times[i] - pkts[i].time < TWO_TO_THE_32
    ensures OffsetSearch(pkts, times, n, 0) == LargestShift(pkts, times, n)
  {
    if n > 0 {
      SearchFindsLargest(pkts, times, n - 1);
    }
  }

  /** The 32-bit search finds the largest shift exactly when every shift of the window fits 32 bits. */
  lemma {:induction false} OffsetExactIff(pkts: seq<Packet>, times: seq<nat>)
    requires |pkts| == |times|
    ensures OffsetSearch(pkts, times, |pkts|, 0) == LargestShift(pkts, times, |pkts|) <==> ShiftsFit(pkts, times)
  {
    if ShiftsFit(pkts, times) {
      SearchFindsLargest(pkts, times, |pkts|);
    }
  }

  /** A predictor that is about to fix its offset: packets buffered, a delay seen, nothing extracted yet. */
  ghost predicate AtFirstExtraction(st: State) {
    st.Valid() && !st.initialized && st.maxDelay > 0 && |st.queue| > 0
  }

  ghost predicate StartsExtracting(st: State, evs: seq<Event>) {
    evs != [] && evs[0] == Extract && Feasible(st, evs)
  }

  /** How the packets of the first window leave, for one run: retimed with the offset found at the first extraction,
      and showing their original time again unless they are within 3 ms of it. */
  lemma {:induction false} WindowIsRetimed(st: State, evs: seq<Event>)
    requires AtFirstExtraction(st) && StartsExtracting(st, evs)
    ensures var r := Run(st, evs).taken;
            forall k :: 0 <= k < |st.queue| && k < |r| ==>
              && r[k].head <= st.times[k]
              && r[k].packet == Retimed(st.queue[k], r[k].head, OffsetAtGet(st))
    ensures var r, to := Run(st, evs).taken, OffsetAtGet(st);
            forall k :: 0 <= k < |st.queue| && k < |r| ==>
              var p, orig := r[k].packet, st.queue[k].time;
              && (r[k].head >= to ==> p.time + to == r[k].head) && (r[k].head < to ==> p.time == r[k].head)
              && (if orig >= p.time + 3 then p.time + p.offset == orig else p.offset == 0)
  {
    var st', evs' := Take(st).0, evs[1..];
    assert forall k :: 0 <= k < |st.queue| ==> st.queue[k] in st.queue;
    forall k | 0 <= k < |st.queue| && k < |Run(st, evs).taken|
      ensures Run(st, evs).taken[k].head <= st.times[k]
      ensures Run(st, evs).taken[k].packet == Retimed(st.queue[k], Run(st, evs).taken[k].head, OffsetAtGet(st))
    {
      HeadStaysBelow(st, evs, k);
      if k > 0 {
        NoneLost(st', evs');
        OffsetIsFixed(st', evs', k - 1);
        assert Through(st', evs')[k - 1] == st.queue[k];
      }
    }
  }

  /** Every packet of the first window, however many packets arrive while it drains: its decode time is
      at most its presentation time exactly when its head could be lowered by the offset or already was
      early enough, and then decode time plus offset is at most 2 ms short of the original time. */
  lemma {:induction false} DecodeBeforePresentation(st: State, evs: seq<Event>)
    requires AtFirstExtraction(st) && StartsExtracting(st, evs)
    requires ShiftsFit(st.queue, st.times)
    ensures var r := Run(st, evs).taken;
            forall k :: 0 <= k < |st.queue| && k < |r| ==>
              var p, orig := r[k].packet, st.queue[k].time;
              && (p.time <= orig <==> r[k].head >= OffsetAtGet(st) || r[k].head <= orig)
              && (p.time <= orig ==> orig - 2 <= p.time + p.offset <= orig)
  {
    WindowIsRetimed(st, evs);
    OffsetExactIff(st.queue, st.times);
    var to := OffsetAtGet(st);
    var r := Run(st, evs).taken;
    forall k | 0 <= k < |st.queue| && k < |r|
      ensures var p, orig := r[k].packet, st.queue[k].time;
              && (p.time <= orig <==> r[k].head >= to || r[k].head <= orig)
              && (p.time <= orig ==> orig - 2 <= p.time + p.offset <= orig)
    {
      assert st.queue[k] in st.queue;
      assert st.times[k] - st.queue[k].time <= to;
    }
  }

  lemma {:induction false} DrainTakesHeadsInOrder(st: State, n: nat)
    requires st.Valid() && n <= |st.queue|
    ensures Feasible(st, Extractions(n)) && |Run(st, Extractions(n)).taken| == n
    ensures forall k :: 0 <= k < n ==> Run(st, Extractions(n)).taken[k].head == st.times[k]
    decreases n
  {
    if n > 0 {
      StepKeepsValid(st, Extract);
      DrainTakesHeadsInOrder(Take(st).0, n - 1);
      assert Extractions(n)[1..] == Extractions(n - 1);
    }
  }

  ghost predicate NeverLate(st: State, evs: seq<Event>)
    requires AtFirstExtraction(st) && Feasible(st, evs)
  {
    var r := Run(st, evs).taken;
    forall k :: 0 <= k < |st.queue| && k < |r| && r[k].head >= OffsetAtGet(st)
      ==> r[k].packet.time <= st.queue[k].time
  }

  /** The promise holds for every continuation exactly when no shift of the window needs more than 32 bits. */
  lemma {:induction false} NeverLateIff(st: State)
    requires AtFirstExtraction(st)
    ensures ShiftsFit(st.queue, st.times) <==> forall evs | StartsExtracting(st, evs) :: NeverLate(st, evs)
  {
    if ShiftsFit(st.queue, st.times) {
      forall evs | StartsExtracting(st, evs) ensures NeverLate(st, evs) {
        DecodeBeforePresentation(st, evs);
      }
    } else {
      var k :| 0 <= k < |st.queue| && st.times[k] - st.queue[k].time >= TWO_TO_THE_32;
      var evs := Extractions(|st.queue|);
      DrainTakesHeadsInOrder(st, |st.queue|);
      assert StartsExtracting(st, evs);
      WindowIsRetimed(st, evs);
      assert !NeverLate(st, evs);
    }
  }

  /** The packets buffered now are not late once their heads can be lowered by the offset. */
  ghost predicate WindowOnTime(st: State, evs: seq<Event>)
    requires Feasible(st, evs)
  {
    var r := Run(st, evs).taken;
    forall k :: 0 <= k < |st.queue| && k < |r| && r[k].head >= st.timeOffset ==> r[k].packet.time <= st.queue[k].time
  }

  /** The fixed offset covers what the buffered packets still need. */
  ghost predicate WindowCovered(st: State)
    requires |st.queue| == |st.times|
  {
    forall k :: 0 <= k < |st.times| && st.times[k] >= st.timeOffset ==> st.times[k] - st.queue[k].time <= st.timeOffset
  }

  /** At any moment after the first extraction, and after a flush that kept the old offset: the buffered packets are
      on time in every continuation exactly when the offset covers them as they stand. */
  lemma {:induction false} WindowOnTimeIff(st: State)
    requires st.Valid() && st.initialized && st.maxDelay > 0
    ensures WindowCovered(st) <==> forall evs | Feasible(st, evs) :: WindowOnTime(st, evs)
  {
    forall evs, k | Feasible(st, evs) && 0 <= k < |st.queue| && k < |Run(st, evs).taken|
      ensures var out := Run(st, evs).taken[k];
              out.head <= st.times[k] && out.packet == Retimed(st.queue[k], out.head, st.timeOffset)
    {
      HeadStaysBelow(st, evs, k);
      NoneLost(st, evs);
      OffsetIsFixed(st, evs, k);
      assert Through(st, evs)[k] == st.queue[k];
    }
    if !WindowCovered(st) {
      var k :| 0 <= k < |st.times| && st.times[k] >= st.timeOffset && st.times[k] - st.queue[k].time > st.timeOffset;
      var evs := Extractions(|st.queue|);
      DrainTakesHeadsInOrder(st, |st.queue|);
      assert !WindowOnTime(st, evs);
    }
  }

  /** Flushing is documented to make the object as new; it does exactly when there was nothing to forget. */
  lemma {:induction false} FlushIsNewIff(st: State)
    ensures Flush(st) == EMPTY <==> !st.initialized && st.maxDelay == 0 && st.timeOffset == 0
  {
  }
}
