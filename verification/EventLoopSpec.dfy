/** Interval timers of the event loop: the queue, what callbacks may do to it, and the firing loop. */
module EventLoopSpec {
  import opened Basics

  datatype Timer = Timer(due: nat, id: nat)

  /** What a callback does while it runs; `now` is the clock it sees. */
  datatype Op =
    | Add(now: nat, millis: nat)
    | Remove(id: nat)
    | Reschedule(id: nat, now: nat, millis: nat)

  /** One run of a callback: what it does, and the increment it returns. */
  datatype Call = Call(ops: seq<Op>, incr: nat)

  /** A firing: which timer, when it was due, and what its callback did. */
  datatype Fired = Fired(id: nat, due: nat, call: Call)

  /** timerTimes in its iteration order, the keys of timerFuncs, timerCount */
  datatype State = State(times: seq<Timer>, funcs: set<nat>, count: nat)

  /** Insertion into a multimap: behind everything due no later. */
  function Insert(ts: seq<Timer>, t: Timer): (r: seq<Timer>)
    ensures |r| == |ts| + 1
  {
    if ts == [] then [t]
    else if ts[0].due <= t.due then [ts[0]] + Insert(ts[1..], t)
    else [t] + ts
  }

  predicate Sorted(ts: seq<Timer>) {
    |ts| <= 1 || (ts[0].due <= ts[1].due && Sorted(ts[1..]))
  }

  /** The queue without the first entry of this timer. */
  function Without(ts: seq<Timer>, id: nat): seq<Timer> {
    if ts == [] then []
    else if ts[0].id == id then ts[1..]
    else [ts[0]] + Without(ts[1..], id)
  }

  /** When a timer is next due, if it is scheduled. */
  function DueOf(ts: seq<Timer>, id: nat): Option<nat> {
    if ts == [] then None
    else if ts[0].id == id then Some(ts[0].due)
    else DueOf(ts[1..], id)
  }

  function Ids(ts: seq<Timer>): set<nat> {
    if ts == [] then {} else {ts[0].id} + Ids(ts[1..])
  }

  predicate Distinct(ts: seq<Timer>) {
    ts == [] || (ts[0].id !in Ids(ts[1..]) && Distinct(ts[1..]))
  }

  // ---------------------------------------------------------------- the operations

  /** addInterval; an interval of zero is refused. */
  function Added(s: State, now: nat, millis: nat): State {
    if millis == 0 then s
    else State(Insert(s.times, Timer(now + millis, s.count)), s.funcs + {s.count}, s.count + 1)
  }

  /** removeInterval */
  function Removed(s: State, id: nat): State { State(Without(s.times, id), s.funcs - {id}, s.count) }

  /** rescheduleInterval; a timer that is not scheduled is left alone. */
  function Rescheduled(s: State, id: nat, now: nat, millis: nat): State {
    if DueOf(s.times, id).None? then s
    else s.(times := Insert(Without(s.times, id), Timer(now + millis, id)))
  }

  function Apply(s: State, op: Op): State {
    match op
    case Add(now, millis) => Added(s, now, millis)
    case Remove(id) => Removed(s, id)
    case Reschedule(id, now, millis) => Rescheduled(s, id, now, millis)
  }

  function ApplyAll(s: State, ops: seq<Op>): State
    decreases ops
  {
    if ops == [] then s else ApplyAll(Apply(s, ops[0]), ops[1..])
  }

  /** One turn of the firing loop: the first timer is taken out, its callback runs, and it is put back at its due
      time plus the increment, or dropped. */
  function Fire(s: State, call: Call): State
    requires s.times != []
  {
    var t := s.times[0];
    var after := ApplyAll(s.(times := s.times[1..]), call.ops);
    if call.incr > 0 then after.(times := Insert(after.times, Timer(t.due + call.incr, t.id)))
    else after.(funcs := after.funcs - {t.id})
  }

  /** The first timer has no function: looking it up leaves an empty one, and calling that throws. */
  function Thrown(s: State): State
    requires s.times != []
  {
    State(s.times[1..], s.funcs + {s.times[0].id}, s.count)
  }

  // ---------------------------------------------------------------- termination

  /** Milliseconds by which a timer is overdue, counting the last one. */
  function Lag(t: Timer, start: nat): nat { if t.due > start then 0 else start - t.due + 1 }

  function Overdue(ts: seq<Timer>, start: nat): nat {
    if ts == [] then 0 else Lag(ts[0], start) + Overdue(ts[1..], start)
  }

  /** Callbacks look at the clock after the loop did, and reschedule other timers into the future. */
  predicate Lawful(op: Op, start: nat) {
    match op
    case Add(now, _) => now >= start
    case Remove(_) => true
    case Reschedule(_, now, millis) => now + millis > start
  }

  predicate AllLawful(ops: seq<Op>, start: nat)
    decreases ops
  {
    ops == [] || (Lawful(ops[0], start) && AllLawful(ops[1..], start))
  }

  lemma {:induction false} InsertOverdue(ts: seq<Timer>, t: Timer, start: nat)
    ensures Overdue(Insert(ts, t), start) == Overdue(ts, start) + Lag(t, start)
  {
    hide Lag;
    if ts == [] {
      assert [t][1..] == [];
    } else if ts[0].due <= t.due {
      InsertOverdue(ts[1..], t, start);
      assert ([ts[0]] + Insert(ts[1..], t))[1..] == Insert(ts[1..], t);
    } else {
      assert ([t] + ts)[1..] == ts;
    }
  }

  lemma {:induction false} WithoutOverdue(ts: seq<Timer>, id: nat, start: nat)
    ensures Overdue(Without(ts, id), start) <= Overdue(ts, start)
  {
    if ts != [] && ts[0].id != id {
      WithoutOverdue(ts[1..], id, start);
      assert ([ts[0]] + Without(ts[1..], id))[1..] == Without(ts[1..], id);
    }
  }

  lemma {:induction false} ApplyOverdue(s: State, op: Op, start: nat)
    requires Lawful(op, start)
    ensures Overdue(Apply(s, op).times, start) <= Overdue(s.times, start)
  {
    hide Insert, Without, DueOf, Overdue;
    match op
    case Add(now, millis) =>
      InsertOverdue(s.times, Timer(now + millis, s.count), start);
    case Remove(id) =>
      WithoutOverdue(s.times, id, start);
    case Reschedule(id, now, millis) =>
      WithoutOverdue(s.times, id, start);
      InsertOverdue(Without(s.times, id), Timer(now + millis, id), start);
  }

  lemma {:induction false} ApplyAllOverdue(s: State, ops: seq<Op>, start: nat)
    requires AllLawful(ops, start)
    ensures Overdue(ApplyAll(s, ops).times, start) <= Overdue(s.times, start)
    decreases ops
  {
    hide Apply, Lawful, Overdue;
    if ops != [] {
      ApplyOverdue(s, ops[0], start);
      ApplyAllOverdue(Apply(s, ops[0]), ops[1..], start);
    }
  }

  /** Every firing of an overdue timer lowers the total: the firing loop ends. */
  lemma {:induction false} FireLowers(s: State, call: Call, start: nat)
    requires s.times != [] && s.times[0].due <= start && AllLawful(call.ops, start)
    ensures Overdue(Fire(s, call).times, start) < Overdue(s.times, start)
  {
    hide Insert, ApplyAll, AllLawful;
    var t := s.times[0];
    var after := ApplyAll(s.(times := s.times[1..]), call.ops);
    ApplyAllOverdue(s.(times := s.times[1..]), call.ops, start);
    InsertOverdue(after.times, Timer(t.due + call.incr, t.id), start);
  }

  // ---------------------------------------------------------------- the firing loop

  /** Calling a function that is not there throws out of the phase. */
  datatype Outcome = Outcome(state: State, log: seq<Fired>, threw: bool)

  ghost predicate LawfulCalls(calls: nat -> Call, start: nat) {
    forall n: nat :: AllLawful(calls(n).ops, start)
  }

  /** The timer phase of await: calls(k) is what the k-th callback does. */
  ghost function Run(s: State, start: nat, calls: nat -> Call, k: nat): Outcome
    requires LawfulCalls(calls, start)
    decreases Overdue(s.times, start)
  {
    if s.times == [] || s.times[0].due > start then Outcome(s, [], false)
    else if s.times[0].id !in s.funcs then Outcome(Thrown(s), [], true)
    else
      FireLowers(s, calls(k), start);
      var rest := Run(Fire(s, calls(k)), start, calls, k + 1);
      Outcome(rest.state, [Fired(s.times[0].id, s.times[0].due, calls(k))] + rest.log, rest.threw)
  }
}
