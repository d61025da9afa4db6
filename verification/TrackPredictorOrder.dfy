/** When the predictor's output keeps its order: the sorted heads do within the delay, the decode times only under
    a condition on the first window. */
module TrackPredictorOrder {
  import opened Basics
  import opened TrackPredictorSpec
  import opened TrackPredictorTheorems

  // ---------------------------------------------------------------- streams within a delay

  function CountAbove(s: seq<nat>, x: nat): (n: nat)
    ensures n <= |s|
  {
    if s == [] then 0 else (if s[0] > x then 1 else 0) + CountAbove(s[1..], x)
  }

  function Largest(s: seq<nat>, x: nat): (m: nat)
    ensures m >= x && forall i :: 0 <= i < |s| ==> s[i] <= m
  {
    if s == [] then x else Largest(s[1..], if s[0] > x then s[0] else x)
  }

  /** The times that came so far, and the largest of them when the last group was finished. */
  datatype Past = Past(seen: seq<nat>, floor: nat)

  function Later(h: Past, e: Event): Past {
    match e
    case Arrive(p) => h.(seen := h.seen + [p.time])
    case Extract => h
    case Close => h.(floor := Largest(h.seen, h.floor))
  }

  /** A time that overtakes at most d earlier ones, and none of a finished group. */
  predicate MayArrive(h: Past, x: nat, d: nat) {
    CountAbove(h.seen, x) <= d && x >= h.floor
  }

  /** More than d packets are held, or some of a finished group. */
  predicate MayLeave(st: State, d: nat) {
    |st.times| > d || (st.finished != INVALID_TRACK_ID && st.finished > st.Removed())
  }

  predicate WithinDelay(st: State, h: Past, evs: seq<Event>, d: nat)
    requires Feasible(st, evs)
    decreases |evs|
  {
    evs == [] || (
      && (match evs[0]
          case Arrive(p) => MayArrive(h, p.time, d)
          case Extract => MayLeave(st, d)
          case Close => true)
      && WithinDelay(Next(st, evs[0]), Later(h, evs[0]), evs[1..], d))
  }

  // ---------------------------------------------------------------- counting

  lemma {:induction false} CountAboveAppend(s: seq<nat>, y: nat, x: nat)
    ensures CountAbove(s + [y], x) == CountAbove(s, x) + if y > x then 1 else 0
  {
    if s != [] {
      assert (s + [y])[1..] == s[1..] + [y];
      CountAboveAppend(s[1..], y, x);
    }
  }

  lemma {:induction false} CountAboveInsert(s: seq<nat>, y: nat, x: nat)
    ensures CountAbove(Insert(s, y), x) == CountAbove(s, x) + if y > x then 1 else 0
  {
    if s == [] || s[|s| - 1] <= y {
      CountAboveAppend(s, y, x);
    } else {
      var init, last := s[..|s| - 1], s[|s| - 1];
      assert s == init + [last];
      CountAboveInsert(init, y, x);
      CountAboveAppend(init, last, x);
      CountAboveAppend(Insert(init, y), last, x);
    }
  }

  /** A collection of elements that all occur in s counts at most as much as s does. */
  lemma {:induction false} CountAbovePart(s: seq<nat>, part: seq<nat>, x: nat)
    requires multiset(part) <= multiset(s)
    ensures CountAbove(part, x) <= CountAbove(s, x)
    decreases |part|
  {
    if part != [] {
      assert part == [part[0]] + part[1..];
      assert part[0] in multiset(s);
      var i :| 0 <= i < |s| && s[i] == part[0];
      CountAboveWithout(s, i, x);
      PartWithout(s, part, i);
      CountAbovePart(s[..i] + s[i + 1..], part[1..], x);
    }
  }

  lemma {:induction false} CountAboveWithout(s: seq<nat>, i: nat, x: nat)
    requires i < |s|
    ensures CountAbove(s, x) == CountAbove(s[..i] + s[i + 1..], x) + if s[i] > x then 1 else 0
  {
    if i == 0 {
      assert s[..0] + s[1..] == s[1..];
    } else {
      CountAboveWithout(s[1..], i - 1, x);
      assert (s[..i] + s[i + 1..])[1..] == s[1..][..i - 1] + s[1..][i..];
    }
  }

  lemma {:induction false} PartWithout(s: seq<nat>, part: seq<nat>, i: nat)
    requires part != [] && multiset(part) <= multiset(s) && i < |s| && s[i] == part[0]
    ensures multiset(part[1..]) <= multiset(s[..i] + s[i + 1..])
  {
    assert part == [part[0]] + part[1..];
    assert s == s[..i] + [s[i]] + s[i + 1..];
    assert multiset(part) == multiset{part[0]} + multiset(part[1..]);
    assert multiset(s) == multiset{s[i]} + multiset(s[..i] + s[i + 1..]);
    forall y: nat ensures multiset(part[1..])[y] <= multiset(s[..i] + s[i + 1..])[y] {
      assert multiset(part)[y] <= multiset(s)[y];
    }
  }

  /** Where a sorted list passes x decides the count. */
  lemma {:induction false} CountAtSplit(s: seq<nat>, x: nat, j: nat)
    requires Sorted(s) && j <= |s|
    ensures j > 0 && s[j - 1] <= x ==> CountAbove(s, x) <= |s| - j
    ensures j < |s| && s[j] > x ==> CountAbove(s, x) >= |s| - j
    decreases s, j
  {
    if s != [] {
      CountAtSplit(s[1..], x, if j == 0 then 0 else j - 1);
    }
  }

  // ---------------------------------------------------------------- the heads keep their order

  /** The history covers what is buffered, and enough of a finished group is still there. */
  ghost predicate Consistent(st: State, h: Past) {
    && multiset(st.times) <= multiset(h.seen)
    && (st.finished != INVALID_TRACK_ID
        ==> CountAbove(st.times, h.floor) + st.finished - st.Removed() <= |st.times|)
  }

  /** `last` went out: nothing smaller is left, and nothing smaller may still come. */
  ghost predicate PastHead(st: State, h: Past, d: nat, last: nat) {
    && Consistent(st, h)
    && (forall i :: 0 <= i < |st.times| ==> last <= st.times[i])
    && (forall y: nat :: y < last ==> !MayArrive(h, y, d))
  }

  lemma {:induction false} PastHeadArrive(st: State, h: Past, p: Packet, d: nat, last: nat)
    requires st.Valid() && PastHead(st, h, d, last) && MayArrive(h, p.time, d)
    ensures PastHead(Add(st, p), Later(h, Arrive(p)), d, last)
  {
    InsertKeepsSorted(st.times, p.time);
    CountAboveInsert(st.times, p.time, h.floor);
    var ts := Insert(st.times, p.time);
    assert forall i :: 0 <= i < |ts| ==> ts[i] in ts;
    forall y: nat | y < last ensures !MayArrive(Later(h, Arrive(p)), y, d) {
      assert !MayArrive(h, y, d);
      CountAboveAppend(h.seen, p.time, y);
    }
  }

  lemma {:induction false} PastHeadExtract(st: State, h: Past, d: nat, last: nat)
    requires st.Valid() && PastHead(st, h, d, last) && MayLeave(st, d) && |st.times| > 0
    ensures last <= st.times[0] && PastHead(Take(st).0, h, d, st.times[0])
  {
    assert st.times == [st.times[0]] + st.times[1..];
    forall y: nat | y < st.times[0] ensures !MayArrive(h, y, d) {
      CountAtSplit(st.times, y, 0);
      CountAbovePart(h.seen, st.times, y);
      CountAtSplit(st.times, h.floor, 0);
    }
  }

  lemma {:induction false} PastHeadClose(st: State, h: Past, d: nat, last: nat)
    requires st.Valid() && PastHead(st, h, d, last)
    ensures PastHead(Finish(st), Later(h, Close), d, last)
  {
    var floor := Largest(h.seen, h.floor);
    if st.times != [] {
      var top := st.times[|st.times| - 1];
      assert top in multiset(st.times);
      assert top in h.seen;
      CountAtSplit(st.times, floor, |st.times|);
    }
    forall y: nat | y < last ensures !MayArrive(Later(h, Close), y, d) {
      assert !MayArrive(h, y, d);
    }
  }

  lemma {:induction false} SortedCons(x: nat, s: seq<nat>)
    requires Sorted(s) && s != [] && x <= s[0]
    ensures Sorted([x] + s)
  {
  }

  /** While no packet overtakes more packets than are held back, nor one of a finished group, the heads that are
      handed out never go backwards. */
  lemma {:induction false} HeadsAreMonotone(st: State, h: Past, evs: seq<Event>, d: nat, last: nat)
    requires st.Valid() && Feasible(st, evs) && WithinDelay(st, h, evs, d) && PastHead(st, h, d, last)
    ensures Sorted([last] + Heads(Run(st, evs).taken))
    decreases |evs|
  {
    hide PastHead, MayArrive, MayLeave;
    if evs == [] {
      assert Heads([]) == [];
    } else {
      var st', h', evs' := Next(st, evs[0]), Later(h, evs[0]), evs[1..];
      StepKeepsValid(st, evs[0]);
      match evs[0]
      case Arrive(p) =>
        PastHeadArrive(st, h, p, d, last);
        HeadsAreMonotone(st', h', evs', d, last);
        assert Run(st, evs).taken == Run(st', evs').taken;
      case Extract =>
        PastHeadExtract(st, h, d, last);
        HeadsAreMonotone(st', h', evs', d, st.times[0]);
        HeadsConcat(Emitted(st, evs[0]), Run(st', evs').taken);
        assert Heads(Emitted(st, evs[0])) == [st.times[0]];
        SortedCons(last, [st.times[0]] + Heads(Run(st', evs').taken));
      case Close =>
        PastHeadClose(st, h, d, last);
        HeadsAreMonotone(st', h', evs', d, last);
        assert Run(st, evs).taken == Run(st', evs').taken;
    }
  }

  /** The same without a head before. */
  lemma {:induction false} HeadsSorted(st: State, h: Past, evs: seq<Event>, d: nat)
    requires st.Valid() && Consistent(st, h) && Feasible(st, evs) && WithinDelay(st, h, evs, d)
    ensures Sorted(Heads(Run(st, evs).taken))
  {
    HeadsAreMonotone(st, h, evs, d, 0);
    var hs := Heads(Run(st, evs).taken);
    assert forall i :: 0 <= i < |hs| ==> hs[i] == ([0] + hs)[i + 1];
  }

  // ---------------------------------------------------------------- the decode times

  function DecodeTimes(ts: seq<Taken>): (r: seq<nat>)
    ensures |r| == |ts|
  {
    seq(|ts|, i requires 0 <= i < |ts| => ts[i].packet.time)
  }

  function Lowered(head: nat, timeOffset: nat): nat {
    if head >= timeOffset then head - timeOffset else head
  }

  /** Every decode time is the head, lowered by the offset of the first window if it reaches that. */
  lemma {:induction false} DecodeTimeIs(st: State, evs: seq<Event>, k: nat)
    requires AtFirstExtraction(st) && StartsExtracting(st, evs) && k < |Run(st, evs).taken|
    ensures Run(st, evs).taken[k].packet.time == Lowered(Run(st, evs).taken[k].head, OffsetAtGet(st))
  {
    var st', evs' := Take(st).0, evs[1..];
    if k > 0 {
      NoneLost(st', evs');
      OffsetIsFixed(st', evs', k - 1);
    }
  }

  /** The smallest time that may still arrive once `times` are buffered and nothing has left. */
  function Earliest(times: seq<nat>, floor: nat, d: nat): nat {
    if |times| > d && times[|times| - 1 - d] > floor then times[|times| - 1 - d] else floor
  }

  lemma {:induction false} EarliestIsLeast(times: seq<nat>, h: Past, d: nat, x: nat)
    requires Sorted(times) && multiset(times) == multiset(h.seen)
    ensures MayArrive(h, x, d) <==> x >= Earliest(times, h.floor, d)
  {
    CountAbovePart(h.seen, times, x);
    CountAbovePart(times, h.seen, x);
    if |times| > d {
      CountAtSplit(times, x, |times| - d);
      CountAtSplit(times, x, |times| - 1 - d);
    }
  }

  /** A head is one of the first window, or arrived later and is no smaller than `least`. */
  predicate FromWindow(window: seq<nat>, least: nat, x: nat) { x in window || x >= least }

  lemma {:induction false} HeadsFromWindow(st: State, h: Past, evs: seq<Event>, d: nat, window: seq<nat>, least: nat,
                                           k: nat)
    requires st.Valid() && Feasible(st, evs) && WithinDelay(st, h, evs, d) && k < |Run(st, evs).taken|
    requires forall i :: 0 <= i < |st.times| ==> FromWindow(window, least, st.times[i])
    requires forall x: nat :: MayArrive(h, x, d) ==> x >= least
    ensures FromWindow(window, least, Run(st, evs).taken[k].head)
    decreases |evs|
  {
    hide MayLeave, FromWindow, MayArrive;
    var e, st', h', evs' := evs[0], Next(st, evs[0]), Later(h, evs[0]), evs[1..];
    StepKeepsValid(st, e);
    forall x: nat | MayArrive(h', x, d) ensures x >= least {
      NeverEasier(h, e, x, d);
    }
    match e
    case Arrive(p) =>
      WindowGrows(st, p, window, least);
      HeadsFromWindow(st', h', evs', d, window, least, k);
    case Extract =>
      if k > 0 {
        HeadsFromWindow(st', h', evs', d, window, least, k - 1);
      }
    case Close =>
      HeadsFromWindow(st', h', evs', d, window, least, k);
  }

  lemma {:induction false} NeverEasier(h: Past, e: Event, x: nat, d: nat)
    requires MayArrive(Later(h, e), x, d)
    ensures MayArrive(h, x, d)
  {
    if e.Arrive? {
      CountAboveAppend(h.seen, e.packet.time, x);
    }
  }

  lemma {:induction false} WindowGrows(st: State, p: Packet, window: seq<nat>, least: nat)
    requires st.Valid() && p.time >= least
    requires forall i :: 0 <= i < |st.times| ==> FromWindow(window, least, st.times[i])
    ensures forall i :: 0 <= i < |Add(st, p).times| ==> FromWindow(window, least, Add(st, p).times[i])
  {
    InsertKeepsSorted(st.times, p.time);
    var ts := Insert(st.times, p.time);
    forall i | 0 <= i < |ts| ensures FromWindow(window, least, ts[i]) {
      assert ts[i] in ts;
    }
  }

  /** Lowering only part of the times keeps their order: whatever is lowered, now or from a later arrival, was ahead
      by the whole offset of whatever is not. */
  ghost predicate KeepsOrder(times: seq<nat>, timeOffset: nat, least: nat) {
    timeOffset <= 1 ||
    forall a :: a in times && a < timeOffset ==>
      a + timeOffset <= least && forall b :: b in times && b >= timeOffset ==> a + timeOffset <= b
  }

  /** The first window's extraction may begin: its history is what is buffered, and enough is held. */
  ghost predicate Opening(st: State, h: Past, d: nat) {
    AtFirstExtraction(st) && Consistent(st, h) && multiset(st.times) == multiset(h.seen) && MayLeave(st, d)
  }

  ghost predicate Continues(st: State, h: Past, evs: seq<Event>, d: nat) {
    StartsExtracting(st, evs) && WithinDelay(st, h, evs, d)
  }

  lemma {:induction false} OrderKept(st: State, h: Past, evs: seq<Event>, d: nat)
    requires Opening(st, h, d) && Continues(st, h, evs, d)
    requires KeepsOrder(st.times, OffsetAtGet(st), Earliest(st.times, h.floor, d))
    ensures Sorted(DecodeTimes(Run(st, evs).taken))
  {
    var r, to, least := Run(st, evs).taken, OffsetAtGet(st), Earliest(st.times, h.floor, d);
    HeadsSorted(st, h, evs, d);
    forall x: nat | MayArrive(h, x, d) ensures x >= least {
      EarliestIsLeast(st.times, h, d, x);
    }
    forall i, j | 0 <= i < j < |r| ensures DecodeTimes(r)[i] <= DecodeTimes(r)[j] {
      DecodeTimeIs(st, evs, i);
      DecodeTimeIs(st, evs, j);
      HeadsFromWindow(st, h, evs, d, st.times, least, i);
      HeadsFromWindow(st, h, evs, d, st.times, least, j);
      assert Heads(r)[0] == st.times[0] <= Heads(r)[i] <= Heads(r)[j];
      assert st.times[0] in st.times;
    }
  }

  // ---------------------------------------------------------------- without a delay

  /** Nothing has moved so far: packets and times stand in the same order. */
  ghost predicate Unmoved(st: State) { st.maxDelay == 0 && Times(st.queue) == st.times }

  lemma {:induction false} UnmovedArrive(st: State, p: Packet)
    requires st.Valid() && Unmoved(st) && AllAtMost(st.times, p.time)
    ensures Unmoved(Add(st, p))
  {
    assert Insert(st.times, p.time) == st.times + [p.time] && Moves(st.times, p.time) == 0;
    TimesConcat(st.queue, [p.(offset := 0)]);
    assert Times([p.(offset := 0)]) == [p.time];
  }

  /** Nothing below the last packet may arrive when none may be overtaken. */
  lemma {:induction false} NoneOvertaken(st: State, h: Past, x: nat)
    requires st.Valid() && Consistent(st, h) && MayArrive(h, x, 0)
    ensures AllAtMost(st.times, x)
  {
    CountAbovePart(h.seen, st.times, x);
    forall i | 0 <= i < |st.times| ensures st.times[i] <= x {
      CountAtSplit(st.times, x, i);
    }
  }

  lemma {:induction false} UnmovedExtract(st: State)
    requires st.Valid() && Unmoved(st) && |st.queue| > 0
    ensures Unmoved(Take(st).0) && Take(st).1.packet.time == Take(st).1.head
  {
    assert Times(st.queue)[1..] == Times(st.queue[1..]);
    assert Times(st.queue)[0] == st.queue[0].time;
  }

  /** Then packets leave with the times they came with. */
  lemma {:induction false} UnmovedTimes(st: State, h: Past, evs: seq<Event>, last: nat, k: nat)
    requires st.Valid() && Unmoved(st) && Feasible(st, evs) && WithinDelay(st, h, evs, 0) && PastHead(st, h, 0, last)
    requires k < |Run(st, evs).taken|
    ensures Run(st, evs).taken[k].packet.time == Run(st, evs).taken[k].head
    decreases |evs|
  {
    hide PastHead, MayArrive, MayLeave, Unmoved, Take;
    var st', h', evs' := Next(st, evs[0]), Later(h, evs[0]), evs[1..];
    StepKeepsValid(st, evs[0]);
    match evs[0]
    case Arrive(p) =>
      PastHeadArrive(st, h, p, 0, last);
      ConsistentPast(st, h, last);
      NoneOvertaken(st, h, p.time);
      UnmovedArrive(st, p);
      UnmovedTimes(st', h', evs', last, k);
    case Extract =>
      PastHeadExtract(st, h, 0, last);
      UnmovedExtract(st);
      if k > 0 {
        UnmovedTimes(st', h', evs', st.times[0], k - 1);
      }
    case Close =>
      PastHeadClose(st, h, 0, last);
      UnmovedClose(st);
      UnmovedTimes(st', h', evs', last, k);
  }

  lemma {:induction false} ConsistentPast(st: State, h: Past, last: nat)
    requires PastHead(st, h, 0, last)
    ensures Consistent(st, h)
  {
  }

  lemma {:induction false} UnmovedClose(st: State)
    requires Unmoved(st)
    ensures Unmoved(Finish(st))
  {
  }

  lemma {:induction false} UnmovedInOrder(st: State, h: Past, evs: seq<Event>)
    requires st.Valid() && Unmoved(st) && Consistent(st, h) && Feasible(st, evs) && WithinDelay(st, h, evs, 0)
    ensures Sorted(DecodeTimes(Run(st, evs).taken))
  {
    HeadsSorted(st, h, evs, 0);
    var r := Run(st, evs).taken;
    forall i, j | 0 <= i < j < |r| ensures DecodeTimes(r)[i] <= DecodeTimes(r)[j] {
      UnmovedTimes(st, h, evs, 0, i);
      UnmovedTimes(st, h, evs, 0, j);
      assert Heads(r)[i] <= Heads(r)[j];
    }
  }

  // ---------------------------------------------------------------- and otherwise can go backwards

  function ArriveAt(time: nat): Event { Arrive(Packet(time, 0, 1, 0, 0, false, None)) }

  /** n late packets, and m packets taken out. */
  function Push(late: nat, n: nat, m: nat): seq<Event> {
    if n > 0 then [ArriveAt(late)] + Push(late, n - 1, m) else Extractions(m)
  }

  lemma {:induction false} NoneAbove(s: seq<nat>, x: nat)
    requires AllAtMost(s, x)
    ensures CountAbove(s, x) == 0
  {
    if s != [] {
      NoneAbove(s[1..], x);
    }
  }

  lemma {:induction false} TakenOut(st: State, h: Past, d: nat, m: nat)
    requires st.Valid() && m + d <= |st.times|
    ensures var evs := Extractions(m);
            && Feasible(st, evs) && WithinDelay(st, h, evs, d) && |Run(st, evs).taken| == m
            && forall k :: 0 <= k < m ==> Run(st, evs).taken[k].head == st.times[k]
    decreases m
  {
    DrainTakesHeadsInOrder(st, m);
    if m > 0 {
      StepKeepsValid(st, Extract);
      assert Extractions(m)[1..] == Extractions(m - 1);
      TakenOut(Next(st, Extract), h, d, m - 1);
    }
  }

  /** A packet later than all others goes to the end. */
  lemma {:induction false} LateArrival(st: State, h: Past, d: nat, late: nat)
    requires st.Valid() && AllAtMost(h.seen, late) && AllAtMost(st.times, late) && h.floor <= late
    ensures var e := ArriveAt(late); var st', h' := Next(st, e), Later(h, e);
            && Enabled(st, e) && st'.Valid() && MayArrive(h, late, d) && st'.times == st.times + [late]
            && AllAtMost(h'.seen, late) && AllAtMost(st'.times, late) && h'.floor <= late
  {
    NoneAbove(h.seen, late);
    StepKeepsValid(st, ArriveAt(late));
  }

  /** What d allows as the next event. */
  predicate Allowed(st: State, h: Past, e: Event, d: nat) {
    match e
    case Arrive(p) => MayArrive(h, p.time, d)
    case Extract => MayLeave(st, d)
    case Close => true
  }

  lemma {:induction false} EventFirst(st: State, h: Past, e: Event, rest: seq<Event>, d: nat)
    requires Enabled(st, e) && Allowed(st, h, e, d)
    requires Feasible(Next(st, e), rest) && WithinDelay(Next(st, e), Later(h, e), rest, d)
    ensures Feasible(st, [e] + rest) && WithinDelay(st, h, [e] + rest, d)
    ensures Run(st, [e] + rest).taken == Emitted(st, e) + Run(Next(st, e), rest).taken
  {
    hide Enabled, Next, Later, MayArrive, MayLeave, Emitted, Run;
    RunFirst(st, e, rest);
    assert ([e] + rest)[1..] == rest && ([e] + rest)[0] == e;
  }

  lemma {:induction false} PushedOut(st: State, h: Past, d: nat, late: nat, n: nat, m: nat)
    requires st.Valid() && m <= |st.times| && m + d <= |st.times| + n
    requires AllAtMost(h.seen, late) && AllAtMost(st.times, late) && h.floor <= late
    ensures var evs := Push(late, n, m);
            && Feasible(st, evs) && WithinDelay(st, h, evs, d) && |Run(st, evs).taken| == m
            && forall k :: 0 <= k < m ==> Run(st, evs).taken[k].head == st.times[k]
    decreases n
  {
    hide Next, Later, MayArrive, MayLeave, AllAtMost, Feasible, WithinDelay, Run;
    if n == 0 {
      TakenOut(st, h, d, m);
    } else {
      var e := ArriveAt(late);
      LateArrival(st, h, d, late);
      PushedOut(Next(st, e), Later(h, e), d, late, n - 1, m);
      EventFirst(st, h, e, Push(late, n - 1, m), d);
      assert [] + Run(Next(st, e), Push(late, n - 1, m)).taken == Run(Next(st, e), Push(late, n - 1, m)).taken;
    }
  }

  /** Whatever is buffered and whatever may arrive can be made to leave. */
  lemma {:induction false} AllCanLeave(st: State, h: Past, xs: seq<nat>, d: nat) returns (evs: seq<Event>)
    requires st.Valid() && multiset(st.times) <= multiset(h.seen)
    requires Sorted(xs) && forall x :: x in xs ==> MayArrive(h, x, d)
    ensures Feasible(st, evs) && WithinDelay(st, h, evs, d)
    ensures forall y :: y in st.times || y in xs ==> y in Heads(Run(st, evs).taken)
    decreases |xs|
  {
    if xs == [] {
      var late := Largest(h.seen, h.floor);
      forall i | 0 <= i < |st.times| ensures st.times[i] <= late {
        assert st.times[i] in multiset(st.times);
        assert st.times[i] in h.seen;
      }
      evs := Push(late, d, |st.times|);
      PushedOut(st, h, d, late, d, |st.times|);
      forall y | y in st.times ensures y in Heads(Run(st, evs).taken) {
        var k :| 0 <= k < |st.times| && st.times[k] == y;
        assert Heads(Run(st, evs).taken)[k] == y;
      }
    } else {
      var e := ArriveAt(xs[0]);
      var st', h' := Next(st, e), Later(h, e);
      InsertKeepsSorted(st.times, xs[0]);
      forall x | x in xs[1..] ensures MayArrive(h', x, d) {
        assert x in xs;
        CountAboveAppend(h.seen, xs[0], x);
      }
      var rest := AllCanLeave(st', h', xs[1..], d);
      evs := [e] + rest;
      assert evs[1..] == rest;
      assert Run(st, evs).taken == Run(st', rest).taken;
      forall y | y in st.times || y in xs ensures y in Heads(Run(st, evs).taken) {
        assert y in multiset(st'.times) || y in xs[1..];
      }
    }
  }

  lemma {:induction false} WindowCanLeave(st: State, h: Past, xs: seq<nat>, d: nat) returns (evs: seq<Event>)
    requires Opening(st, h, d) && Sorted(xs) && forall x :: x in xs ==> MayArrive(h, x, d)
    ensures Continues(st, h, evs, d)
    ensures forall y :: y in st.times || y in xs ==> y in Heads(Run(st, evs).taken)
  {
    hide Take, OffsetAtGet;
    assert st.times == [st.times[0]] + st.times[1..];
    StepKeepsValid(st, Extract);
    var st' := Next(st, Extract);
    Leaving(st);
    var rest := AllCanLeave(st', h, xs, d);
    evs := [Extract] + rest;
    assert evs[1..] == rest;
    HeadsConcat(Emitted(st, Extract), Run(st', rest).taken);
  }

  lemma {:induction false} Leaving(st: State)
    requires Enabled(st, Extract)
    ensures Next(st, Extract).times == st.times[1..] && Heads(Emitted(st, Extract)) == [st.times[0]]
  {
  }

  /** A head below the offset followed by one that the offset takes below it. */
  lemma {:induction false} GoesBackwards(st: State, h: Past, xs: seq<nat>, d: nat, a: nat, b: nat)
      returns (evs: seq<Event>)
    requires Opening(st, h, d) && Sorted(xs) && forall x :: x in xs ==> MayArrive(h, x, d)
    requires (a in st.times || a in xs) && (b in st.times || b in xs)
    requires a < OffsetAtGet(st) <= b < a + OffsetAtGet(st)
    ensures Continues(st, h, evs, d) && !Sorted(DecodeTimes(Run(st, evs).taken))
  {
    hide OffsetAtGet, WithinDelay, Feasible, Run;
    evs := WindowCanLeave(st, h, xs, d);
    var r := Run(st, evs).taken;
    assert a in Heads(r) && b in Heads(r);
    var i :| 0 <= i < |r| && Heads(r)[i] == a;
    var j :| 0 <= j < |r| && Heads(r)[j] == b;
    HeadsSorted(st, h, evs, d);
    DecodeTimeIs(st, evs, i);
    DecodeTimeIs(st, evs, j);
    assert DecodeTimes(r)[i] > DecodeTimes(r)[j];
  }

  /** The decode times of every continuation within the delay are in order exactly under this condition on the first
      window: the offset is taken from later heads only, and must not take them below the earlier ones. */
  lemma {:induction false} DecodeTimesInOrderIff(st: State, h: Past, d: nat)
    requires Opening(st, h, d)
    ensures KeepsOrder(st.times, OffsetAtGet(st), Earliest(st.times, h.floor, d)) <==>
            forall evs | Continues(st, h, evs, d) :: Sorted(DecodeTimes(Run(st, evs).taken))
  {
    var to, least := OffsetAtGet(st), Earliest(st.times, h.floor, d);
    if KeepsOrder(st.times, to, least) {
      forall evs | Continues(st, h, evs, d) ensures Sorted(DecodeTimes(Run(st, evs).taken)) {
        OrderKept(st, h, evs, d);
      }
    } else {
      var a :| a in st.times && a < to && !(a + to <= least && forall b :: b in st.times && b >= to ==> a + to <= b);
      var evs := OutOfOrder(st, h, d, a);
    }
  }

  lemma {:induction false} OutOfOrder(st: State, h: Past, d: nat, a: nat) returns (evs: seq<Event>)
    requires Opening(st, h, d) && OffsetAtGet(st) > 1 && a in st.times && a < OffsetAtGet(st)
    requires !(a + OffsetAtGet(st) <= Earliest(st.times, h.floor, d)
               && forall b :: b in st.times && b >= OffsetAtGet(st) ==> a + OffsetAtGet(st) <= b)
    ensures Continues(st, h, evs, d) && !Sorted(DecodeTimes(Run(st, evs).taken))
  {
    var to, least := OffsetAtGet(st), Earliest(st.times, h.floor, d);
    if least < to {
      EarliestIsLeast(st.times, h, d, to - 1);
      EarliestIsLeast(st.times, h, d, to);
      evs := GoesBackwards(st, h, [to - 1, to], d, to - 1, to);
    } else if least < a + to {
      EarliestIsLeast(st.times, h, d, least);
      evs := GoesBackwards(st, h, [least], d, a, least);
    } else {
      var b :| b in st.times && b >= to && a + to > b;
      evs := GoesBackwards(st, h, [], d, a, b);
    }
  }
}
