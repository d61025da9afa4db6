/** The sequential meaning of the timestamp predictor: a FIFO of packets next to a sorted list of
    presentation times. The class in TrackPredictor.dfy is proved to behave like these functions. */
module TrackPredictorSpec {

  import opened Basics

  const INVALID_TRACK_ID := 0xFFFF_FFFF

  /** One buffered packet. `data` is the payload handed to `add`, if any. */
  datatype Packet = Packet(time: nat, offset: nat, track: nat, size: nat, bytePos: nat, key: bool,
                           data: Option<seq<int>>)

  // ---------------------------------------------------------------- sorted insertion

  /** Moves x leftwards past every larger element at the end of s. */
  function Insert(s: seq<nat>, x: nat): (r: seq<nat>)
    ensures |r| == |s| + 1
  {
    if s == [] || s[|s| - 1] <= x then s + [x]
    else Insert(s[..|s| - 1], x) + [s[|s| - 1]]
  }

  /** How many places x moves. */
  function Moves(s: seq<nat>, x: nat): (n: nat)
    ensures n <= |s|
  {
    if s == [] || s[|s| - 1] <= x then 0 else 1 + Moves(s[..|s| - 1], x)
  }

  /** Insertion puts x where its move ends and keeps the rest in order. */
  lemma {:induction false} InsertAt(s: seq<nat>, x: nat, k: nat)
    requires k <= |s|
    ensures var c := |s| - Moves(s, x);
            Insert(s, x)[k] == if k < c then s[k] else if k == c then x else s[k - 1]
  {
    if s == [] || s[|s| - 1] <= x {
    } else if k < |s| {
      InsertAt(s[..|s| - 1], x, k);
    }
  }

  ghost predicate Sorted(s: seq<nat>) {
    forall i, j :: 0 <= i < j < |s| ==> s[i] <= s[j]
  }

  ghost predicate AllAtMost(s: seq<nat>, x: nat) {
    forall i :: 0 <= i < |s| ==> s[i] <= x
  }

  lemma {:induction false} InsertKeepsSorted(s: seq<nat>, x: nat)
    requires Sorted(s)
    ensures Sorted(Insert(s, x))
    ensures multiset(Insert(s, x)) == multiset(s) + multiset{x}
    ensures forall y :: y in Insert(s, x) ==> y == x || y in s
  {
    if s == [] || s[|s| - 1] <= x {
    } else {
      var last := s[|s| - 1];
      assert s == s[..|s| - 1] + [last];
      InsertKeepsSorted(s[..|s| - 1], x);
      var inner := Insert(s[..|s| - 1], x);
      assert forall i :: 0 <= i < |inner| ==> inner[i] in inner;
    }
  }

  /** Inserting into a sorted list lowers every position: the element at position j never rises. */
  lemma {:induction false} InsertLowers(s: seq<nat>, x: nat, j: nat)
    requires Sorted(s) && j < |s|
    ensures Insert(s, x)[j] <= s[j]
  {
    if s[|s| - 1] <= x {
    } else if j == |s| - 1 {
    } else {
      InsertLowers(s[..|s| - 1], x, j);
    }
  }

  // ---------------------------------------------------------------- state and steps

  /** The predictor of a video track, with as many slots as it needs. */
  datatype State = State(queue: seq<Packet>, times: seq<nat>, maxDelay: nat, timeOffset: nat,
                         ctr: nat, finished: nat, initialized: bool)
  {
    ghost predicate Valid() {
      && |queue| == |times|
      && |queue| <= ctr
      && Sorted(times)
      && (forall p :: p in queue ==> p.offset == 0)
      && timeOffset < TWO_TO_THE_32
      && (!initialized ==> |queue| == ctr && timeOffset == 0)
      && (finished == INVALID_TRACK_ID || finished <= ctr)
    }

    /** The packets taken out so far. */
    function Removed(): int { ctr - |queue| }

    predicate HasPackets() {
      || (finished != INVALID_TRACK_ID && finished > Removed())
      || ((initialized || ctr > 16) && |queue| > maxDelay)
    }
  }

  const EMPTY := State([], [], 0, 0, 0, INVALID_TRACK_ID, false)

  function NewMaxDelay(maxDelay: nat, initialized: bool, moves: nat): nat {
    if !initialized && moves > 0 && moves + 1 > maxDelay then moves + 1 else maxDelay
  }

  /** A packet enters with its presentation time and no offset. */
  function Add(st: State, p: Packet): State {
    st.(queue := st.queue + [p.(offset := 0)], times := Insert(st.times, p.time), ctr := st.ctr + 1,
        maxDelay := NewMaxDelay(st.maxDelay, st.initialized, Moves(st.times, p.time)))
  }

  function Finish(st: State): State { st.(finished := st.ctr) }

  function Flush(st: State): State {
    st.(queue := [], times := [], ctr := 0, finished := INVALID_TRACK_ID)
  }

  /** The offset search over the first n slots: a 32-bit running maximum of sorted time minus arrival time. */
  function OffsetSearch(pkts: seq<Packet>, times: seq<nat>, n: nat, start: nat): (r: nat)
    requires n <= |pkts| && n <= |times|
    requires start < TWO_TO_THE_32
    ensures r < TWO_TO_THE_32
  {
    if n == 0 then start
    else
      var r := OffsetSearch(pkts, times, n - 1, start);
      if pkts[n - 1].time < times[n - 1] && times[n - 1] - pkts[n - 1].time > r
      then (times[n - 1] - pkts[n - 1].time) % TWO_TO_THE_32 else r
  }

  /** The packet as it is handed out, given the smallest buffered time and the offset. */
  function Retimed(p: Packet, head: nat, timeOffset: nat): Packet {
    var time := if head >= timeOffset then head - timeOffset else head;
    var offset := if p.time > time then p.time - time else p.offset;
    p.(time := time, offset := if offset < 3 then 0 else offset)
  }

  function OffsetAtGet(st: State): nat
    requires |st.queue| == |st.times| && st.timeOffset < TWO_TO_THE_32
  {
    if st.initialized then st.timeOffset
    else OffsetSearch(st.queue, st.times, |st.queue|, st.timeOffset)
  }

  /** What an extraction hands out, and the sorted head it used. */
  datatype Taken = Taken(packet: Packet, head: nat)

  /** getPacketData for a video track followed by remove. */
  function Take(st: State): (r: (State, Taken))
    requires |st.queue| == |st.times| > 0 && st.timeOffset < TWO_TO_THE_32
  {
    var to := if st.maxDelay == 0 then st.timeOffset else OffsetAtGet(st);
    var p := if st.maxDelay == 0 then st.queue[0] else Retimed(st.queue[0], st.times[0], to);
    (st.(queue := st.queue[1..], times := st.times[1..], timeOffset := to, initialized := true),
     Taken(p, st.times[0]))
  }

  // ---------------------------------------------------------------- runs

  datatype Event = Arrive(packet: Packet) | Extract | Close

  /** Everything a run produces: the final state and what was taken, in order. */
  datatype Outcome = Outcome(state: State, taken: seq<Taken>)

  /** An extraction needs a buffered packet. */
  predicate Enabled(st: State, e: Event) {
    |st.queue| == |st.times| && st.timeOffset < TWO_TO_THE_32 && (e.Extract? ==> |st.queue| > 0)
  }

  function Next(st: State, e: Event): State
    requires Enabled(st, e)
  {
    match e
    case Arrive(p) => Add(st, p)
    case Extract => Take(st).0
    case Close => Finish(st)
  }

  function Emitted(st: State, e: Event): seq<Taken>
    requires Enabled(st, e)
  {
    match e
    case Arrive(p) => []
    case Extract => [Take(st).1]
    case Close => []
  }

  /** The packet an event brings in. */
  function Incoming(e: Event): seq<Packet> {
    match e
    case Arrive(p) => [p.(offset := 0)]
    case Extract => []
    case Close => []
  }

  predicate Feasible(st: State, evs: seq<Event>)
    decreases |evs|
  {
    evs == [] || (Enabled(st, evs[0]) && Feasible(Next(st, evs[0]), evs[1..]))
  }

  function Run(st: State, evs: seq<Event>): Outcome
    requires Feasible(st, evs)
    decreases |evs|
  {
    if evs == [] then Outcome(st, [])
    else
      var rest := Run(Next(st, evs[0]), evs[1..]);
      Outcome(rest.state, Emitted(st, evs[0]) + rest.taken)
  }

  function Arrivals(evs: seq<Event>): seq<Packet> {
    if evs == [] then [] else Incoming(evs[0]) + Arrivals(evs[1..])
  }

  function Extractions(n: nat): seq<Event> { seq(n, i => Extract) }

  function Times(ps: seq<Packet>): (ts: seq<nat>)
    ensures |ts| == |ps|
  {
    seq(|ps|, i requires 0 <= i < |ps| => ps[i].time)
  }

  function Heads(ts: seq<Taken>): (hs: seq<nat>)
    ensures |hs| == |ts|
  {
    seq(|ts|, i requires 0 <= i < |ts| => ts[i].head)
  }

  lemma {:induction false} StepKeepsValid(st: State, e: Event)
    requires st.Valid() && Enabled(st, e)
    ensures Next(st, e).Valid()
  {
    match e
    case Arrive(p) => InsertKeepsSorted(st.times, p.time);
    case Extract =>
    case Close =>
  }
}
