/** What the firing loop guarantees, whatever the callbacks do to other timers. */
module EventLoopTheorems {
  import opened Basics
  import opened EventLoopSpec

  // ---------------------------------------------------------------- the queue stays sorted

  /** Nothing in the queue is due before `due`. */
  predicate AtLeast(ts: seq<Timer>, due: nat) {
    ts == [] || (ts[0].due >= due && AtLeast(ts[1..], due))
  }

  lemma {:induction false} SortedAtLeast(ts: seq<Timer>, due: nat)
    requires Sorted(ts) && (ts != [] ==> ts[0].due >= due)
    ensures AtLeast(ts, due)
  {
    if ts != [] {
      SortedAtLeast(ts[1..], due);
    }
  }

  lemma {:induction false} InsertSorted(ts: seq<Timer>, t: Timer, due: nat)
    requires Sorted(ts)
    ensures Sorted(Insert(ts, t))
    ensures AtLeast(ts, due) && t.due >= due ==> AtLeast(Insert(ts, t), due)
  {
    if ts == [] {
      assert [t][1..] == [];
    } else if ts[0].due <= t.due {
      InsertSorted(ts[1..], t, due);
      assert ([ts[0]] + Insert(ts[1..], t))[1..] == Insert(ts[1..], t);
    } else {
      assert ([t] + ts)[1..] == ts;
    }
  }

  lemma {:induction false} WithoutSorted(ts: seq<Timer>, id: nat, due: nat)
    requires Sorted(ts)
    ensures Sorted(Without(ts, id)) && (AtLeast(ts, due) ==> AtLeast(Without(ts, id), due))
    ensures ts != [] && Without(ts, id) != [] ==> Without(ts, id)[0].due >= ts[0].due
  {
    if ts != [] && ts[0].id != id {
      WithoutSorted(ts[1..], id, due);
      assert ([ts[0]] + Without(ts[1..], id))[1..] == Without(ts[1..], id);
    }
  }

  lemma {:induction false} ApplySorted(s: State, op: Op, start: nat, due: nat)
    requires Sorted(s.times) && Lawful(op, start) && due <= start && AtLeast(s.times, due)
    ensures Sorted(Apply(s, op).times) && AtLeast(Apply(s, op).times, due)
  {
    hide Insert, Without, DueOf, Sorted, AtLeast;
    match op
    case Add(now, millis) =>
      InsertSorted(s.times, Timer(now + millis, s.count), due);
    case Remove(id) =>
      WithoutSorted(s.times, id, due);
    case Reschedule(id, now, millis) =>
      WithoutSorted(s.times, id, due);
      InsertSorted(Without(s.times, id), Timer(now + millis, id), due);
  }

  lemma {:induction false} ApplyAllSorted(s: State, ops: seq<Op>, start: nat, due: nat)
    requires Sorted(s.times) && AllLawful(ops, start) && due <= start && AtLeast(s.times, due)
    ensures Sorted(ApplyAll(s, ops).times) && AtLeast(ApplyAll(s, ops).times, due)
    decreases ops
  {
    hide Apply, Lawful, Sorted, AtLeast;
    if ops != [] {
      ApplySorted(s, ops[0], start, due);
      ApplyAllSorted(Apply(s, ops[0]), ops[1..], start, due);
    }
  }

  /** After a firing nothing is due earlier than what just fired. */
  lemma {:induction false} FireSorted(s: State, call: Call, start: nat)
    requires Sorted(s.times) && s.times != [] && s.times[0].due <= start && AllLawful(call.ops, start)
    ensures Sorted(Fire(s, call).times) && AtLeast(Fire(s, call).times, s.times[0].due)
  {
    var t := s.times[0];
    SortedAtLeast(s.times, t.due);
    hide Insert, ApplyAll, AllLawful, AtLeast;
    assert AtLeast(s.times[1..], t.due);
    ApplyAllSorted(s.(times := s.times[1..]), call.ops, start, t.due);
    var after := ApplyAll(s.(times := s.times[1..]), call.ops);
    InsertSorted(after.times, Timer(t.due + call.incr, t.id), t.due);
  }

  lemma {:induction false} SortedTail(ts: seq<Timer>)
    requires ts != [] && Sorted(ts)
    ensures Sorted(ts[1..])
  {
  }

  /** Due times in firing order never go down, and none is after the start. */
  predicate Rising(log: seq<Fired>, from: nat, start: nat) {
    log == [] || (from <= log[0].due <= start && Rising(log[1..], log[0].due, start))
  }

  /** Timers fire in the order they are due, and afterwards, unless a call threw, every timer is due after the start of
      the phase. */
  lemma {:induction false} FiresInOrder(s: State, start: nat, calls: nat -> Call, k: nat, from: nat)
    requires LawfulCalls(calls, start) && Sorted(s.times) && AtLeast(s.times, from)
    ensures Rising(Run(s, start, calls, k).log, from, start)
    ensures Sorted(Run(s, start, calls, k).state.times)
    ensures !Run(s, start, calls, k).threw ==> AtLeast(Run(s, start, calls, k).state.times, start + 1)
    decreases Overdue(s.times, start)
  {
    hide Overdue, Insert, ApplyAll, Fire, Sorted;
    if s.times == [] {
    } else if s.times[0].due > start {
      SortedAtLeast(s.times, start + 1);
    } else if s.times[0].id !in s.funcs {
      SortedTail(s.times);
    } else {
      var head := Fired(s.times[0].id, s.times[0].due, calls(k));
      FireLowers(s, calls(k), start);
      FireSorted(s, calls(k), start);
      FiresInOrder(Fire(s, calls(k)), start, calls, k + 1, s.times[0].due);
      var rest := Run(Fire(s, calls(k)), start, calls, k + 1);
      assert ([head] + rest.log)[1..] == rest.log;
    }
  }

  // ---------------------------------------------------------------- scheduled and registered timers

  lemma {:induction false} InsertIds(ts: seq<Timer>, t: Timer)
    ensures Ids(Insert(ts, t)) == Ids(ts) + {t.id}
    ensures Distinct(Insert(ts, t)) <==> Distinct(ts) && t.id !in Ids(ts)
  {
    if ts == [] {
      assert [t][1..] == [];
    } else if ts[0].due <= t.due {
      InsertIds(ts[1..], t);
      assert ([ts[0]] + Insert(ts[1..], t))[1..] == Insert(ts[1..], t);
    } else {
      assert ([t] + ts)[1..] == ts;
    }
  }

  lemma {:induction false} WithoutIds(ts: seq<Timer>, id: nat)
    requires Distinct(ts)
    ensures Distinct(Without(ts, id)) && Ids(Without(ts, id)) == Ids(ts) - {id}
  {
    if ts != [] && ts[0].id != id {
      WithoutIds(ts[1..], id);
      assert ([ts[0]] + Without(ts[1..], id))[1..] == Without(ts[1..], id);
    }
  }

  /** Scheduled timers have distinct numbers below the counter. */
  predicate Numbered(s: State) {
    Distinct(s.times) && (forall id :: id in Ids(s.times) ==> id < s.count)
  }

  /** The scheduled timers are the registered ones, except `out`, whose callback is running. */
  predicate Matched(s: State, out: set<nat>) {
    && Numbered(s) && Ids(s.times) == s.funcs - out
    && (forall id :: id in s.funcs ==> id < s.count) && (forall id :: id in out ==> id < s.count)
  }

  lemma {:induction false} ApplyMatched(s: State, op: Op, out: set<nat>)
    requires Matched(s, out)
    ensures Matched(Apply(s, op), out)
    ensures forall id :: id in out ==> (id in Apply(s, op).funcs <==> id in s.funcs && op != Remove(id))
  {
    hide Insert, Without, DueOf, Ids, Distinct;
    match op
    case Add(now, millis) =>
      InsertIds(s.times, Timer(now + millis, s.count));
    case Remove(id) =>
      WithoutIds(s.times, id);
      assert s.funcs - {id} - out == s.funcs - out - {id};
    case Reschedule(id, now, millis) =>
      WithoutIds(s.times, id);
      InsertIds(Without(s.times, id), Timer(now + millis, id));
      DueIffScheduled(s.times, id);
      assert Ids(s.times) - {id} + {id} == Ids(s.times) || id !in Ids(s.times);
  }

  lemma {:induction false} DueIffScheduled(ts: seq<Timer>, id: nat)
    ensures DueOf(ts, id).Some? <==> id in Ids(ts)
  {
    if ts != [] {
      DueIffScheduled(ts[1..], id);
    }
  }

  lemma {:induction false} ApplyAllMatched(s: State, ops: seq<Op>, id: nat)
    requires Matched(s, {id})
    ensures Matched(ApplyAll(s, ops), {id})
    ensures id in ApplyAll(s, ops).funcs <==> id in s.funcs && Remove(id) !in ops
    decreases ops
  {
    hide Apply, Matched;
    if ops != [] {
      ApplyMatched(s, ops[0], {id});
      ApplyAllMatched(Apply(s, ops[0]), ops[1..], id);
    }
  }

  /** A firing keeps "scheduled equals registered" exactly when a callback that wants to go on has not removed its
      own timer: such a timer would be scheduled again without a function to run. */
  lemma {:induction false} FireMatchedIff(s: State, call: Call)
    requires Matched(s, {}) && s.times != []
    ensures Matched(Fire(s, call), {}) <==> call.incr == 0 || Remove(s.times[0].id) !in call.ops
  {
    hide Insert, ApplyAll, Ids, Distinct;
    var t := s.times[0];
    var during := s.(times := s.times[1..]);
    TakenOut(s.times);
    assert s.funcs - {t.id} == Ids(during.times);
    ApplyAllMatched(during, call.ops, t.id);
    var after := ApplyAll(during, call.ops);
    InsertIds(after.times, Timer(t.due + call.incr, t.id));
    assert after.funcs - {t.id} - {} == after.funcs - {t.id};
    assert after.funcs - {} == after.funcs;
    if t.id in after.funcs {
      assert after.funcs - {t.id} + {t.id} == after.funcs;
    }
  }

  lemma {:induction false} TakenOut(ts: seq<Timer>)
    requires ts != [] && Distinct(ts)
    ensures Distinct(ts[1..]) && ts[0].id in Ids(ts) && ts[0].id !in Ids(ts[1..]) && Ids(ts[1..]) == Ids(ts) - {ts[0].id}
  {
    assert Ids(ts) == {ts[0].id} + Ids(ts[1..]);
  }

  lemma {:induction false} HasFunction(s: State)
    requires Matched(s, {}) && s.times != []
    ensures s.times[0].id in s.funcs
  {
    assert s.times[0].id in Ids(s.times);
  }

  predicate NoneRemovesItself(log: seq<Fired>) {
    log == [] || ((log[0].call.incr == 0 || Remove(log[0].id) !in log[0].call.ops) && NoneRemovesItself(log[1..]))
  }

  /** Through a whole phase, then: nothing throws, every scheduled timer has exactly one entry and a function, and every
      function an entry. */
  lemma {:induction false} RunMatched(s: State, start: nat, calls: nat -> Call, k: nat)
    requires LawfulCalls(calls, start) && Matched(s, {}) && NoneRemovesItself(Run(s, start, calls, k).log)
    ensures !Run(s, start, calls, k).threw && Matched(Run(s, start, calls, k).state, {})
    decreases Overdue(s.times, start)
  {
    hide Overdue, Fire, Matched;
    if s.times != [] && s.times[0].due <= start {
      HasFunction(s);
      FireLowers(s, calls(k), start);
      var rest := Run(Fire(s, calls(k)), start, calls, k + 1);
      var log := Run(s, start, calls, k).log;
      assert log[1..] == rest.log && log[0] == Fired(s.times[0].id, s.times[0].due, calls(k));
      FireMatchedIff(s, calls(k));
      RunMatched(Fire(s, calls(k)), start, calls, k + 1);
    }
  }

  // ---------------------------------------------------------------- every timer follows its own schedule

  function CountAfter(count: nat, op: Op): nat { if op.Add? && op.millis > 0 then count + 1 else count }

  function CountAfterAll(count: nat, ops: seq<Op>): nat
    decreases ops
  {
    if ops == [] then count else CountAfterAll(CountAfter(count, ops[0]), ops[1..])
  }

  /** What an operation does to the due time of one timer. */
  function OpDue(d: Option<nat>, count: nat, op: Op, id: nat): Option<nat> {
    match op
    case Add(now, millis) => if millis > 0 && count == id then Some(now + millis) else d
    case Remove(other) => if other == id then None else d
    case Reschedule(other, now, millis) => if other == id && d.Some? then Some(now + millis) else d
  }

  function OpsDue(d: Option<nat>, count: nat, ops: seq<Op>, id: nat): Option<nat>
    decreases ops
  {
    if ops == [] then d else OpsDue(OpDue(d, count, ops[0], id), CountAfter(count, ops[0]), ops[1..], id)
  }

  /** The due time of one timer after a firing: its own due time plus its increment, or what the callback of
      another timer made of it. */
  function NextDue(d: Option<nat>, count: nat, f: Fired, id: nat): Option<nat> {
    if f.id == id then (if f.call.incr > 0 then Some(f.due + f.call.incr) else None)
    else OpsDue(d, count, f.call.ops, id)
  }

  /** The log shows this timer firing exactly at the due times of its own schedule, from d to `end`. */
  predicate Follows(d: Option<nat>, count: nat, log: seq<Fired>, id: nat, end: Option<nat>)
    decreases log
  {
    if log == [] then d == end
    else
      && (log[0].id == id ==> d == Some(log[0].due))
      && Follows(NextDue(d, count, log[0], id), CountAfterAll(count, log[0].call.ops), log[1..], id, end)
  }

  lemma {:induction false} InsertDue(ts: seq<Timer>, t: Timer, id: nat)
    ensures id != t.id ==> DueOf(Insert(ts, t), id) == DueOf(ts, id)
    ensures t.id !in Ids(ts) ==> DueOf(Insert(ts, t), t.id) == Some(t.due)
  {
    if ts == [] {
    } else if ts[0].due <= t.due {
      InsertDue(ts[1..], t, id);
      assert ([ts[0]] + Insert(ts[1..], t))[1..] == Insert(ts[1..], t);
    } else {
      assert ([t] + ts)[1..] == ts;
    }
  }

  lemma {:induction false} WithoutDue(ts: seq<Timer>, other: nat, id: nat)
    requires Distinct(ts)
    ensures DueOf(Without(ts, other), id) == if other == id then None else DueOf(ts, id)
  {
    if ts == [] {
    } else if ts[0].id != other {
      WithoutDue(ts[1..], other, id);
      assert ([ts[0]] + Without(ts[1..], other))[1..] == Without(ts[1..], other);
    } else {
      DueIffScheduled(ts[1..], other);
    }
  }

  lemma {:induction false} ApplyDue(s: State, op: Op, id: nat)
    requires Numbered(s)
    ensures DueOf(Apply(s, op).times, id) == OpDue(DueOf(s.times, id), s.count, op, id)
    ensures Numbered(Apply(s, op)) && Apply(s, op).count == CountAfter(s.count, op)
    ensures Ids(Apply(s, op).times) <= Ids(s.times) + if s.count < Apply(s, op).count then {s.count} else {}
  {
    hide Insert, Without, DueOf, Ids, Distinct;
    match op
    case Add(now, millis) =>
      InsertDue(s.times, Timer(now + millis, s.count), id);
      InsertIds(s.times, Timer(now + millis, s.count));
    case Remove(other) =>
      WithoutDue(s.times, other, id);
      WithoutIds(s.times, other);
    case Reschedule(other, now, millis) =>
      DueIffScheduled(s.times, other);
      WithoutDue(s.times, other, id);
      WithoutIds(s.times, other);
      InsertDue(Without(s.times, other), Timer(now + millis, other), id);
      InsertIds(Without(s.times, other), Timer(now + millis, other));
  }

  lemma {:induction false} ApplyAllDue(s: State, ops: seq<Op>, id: nat, out: nat)
    requires Numbered(s) && out < s.count && out !in Ids(s.times)
    ensures DueOf(ApplyAll(s, ops).times, id) == OpsDue(DueOf(s.times, id), s.count, ops, id)
    ensures Numbered(ApplyAll(s, ops)) && ApplyAll(s, ops).count == CountAfterAll(s.count, ops)
    ensures out < ApplyAll(s, ops).count && out !in Ids(ApplyAll(s, ops).times)
    decreases ops
  {
    hide Apply, OpDue, CountAfter, Numbered, DueOf, Ids;
    if ops != [] {
      ApplyDue(s, ops[0], id);
      CountGrows(s.count, ops[0]);
      ApplyAllDue(Apply(s, ops[0]), ops[1..], id, out);
    }
  }

  lemma {:induction false} CountGrows(count: nat, op: Op)
    ensures CountAfter(count, op) >= count
  {
  }

  lemma {:induction false} FireDue(s: State, call: Call, id: nat)
    requires Numbered(s) && s.times != []
    ensures Numbered(Fire(s, call)) && Fire(s, call).count == CountAfterAll(s.count, call.ops)
    ensures DueOf(Fire(s, call).times, id)
            == NextDue(DueOf(s.times, id), s.count, Fired(s.times[0].id, s.times[0].due, call), id)
  {
    hide Insert, ApplyAll, OpsDue, CountAfterAll;
    var t := s.times[0];
    var during := s.(times := s.times[1..]);
    TakenOut(s.times);
    ApplyAllDue(during, call.ops, id, t.id);
    var after := ApplyAll(during, call.ops);
    InsertDue(after.times, Timer(t.due + call.incr, t.id), id);
    InsertIds(after.times, Timer(t.due + call.incr, t.id));
    DueIffScheduled(after.times, t.id);
  }

  /** Whatever else is scheduled: the firings of each timer, and its due time afterwards, are those of its own
      schedule. There is no drift: a repeat is due its increment after the time the last one was due. */
  lemma {:induction false} FollowsSchedule(s: State, start: nat, calls: nat -> Call, k: nat, id: nat)
    requires LawfulCalls(calls, start) && Numbered(s)
    ensures var r := Run(s, start, calls, k);
            !r.threw ==> Follows(DueOf(s.times, id), s.count, r.log, id, DueOf(r.state.times, id))
    decreases Overdue(s.times, start)
  {
    hide Overdue, Fire, NextDue, CountAfterAll, Numbered;
    if s.times != [] && s.times[0].due <= start && s.times[0].id in s.funcs {
      FireLowers(s, calls(k), start);
      var rest := Run(Fire(s, calls(k)), start, calls, k + 1);
      var log := Run(s, start, calls, k).log;
      assert log[1..] == rest.log && log[0] == Fired(s.times[0].id, s.times[0].due, calls(k));
      FireDue(s, calls(k), id);
      FollowsSchedule(Fire(s, calls(k)), start, calls, k + 1, id);
    }
  }

  // ---------------------------------------------------------------- catching up

  /** No callback of another timer touches this one, and its own asks for the same positive increment each time. */
  predicate Steady(log: seq<Fired>, id: nat, incr: nat) {
    log == [] ||
    (&& (if log[0].id == id then log[0].call.incr == incr else Leaves(log[0].call.ops, id))
     && Steady(log[1..], id, incr))
  }

  predicate Leaves(ops: seq<Op>, id: nat)
    decreases ops
  {
    ops == [] || (ops[0] != Remove(id) && !(ops[0].Reschedule? && ops[0].id == id) && Leaves(ops[1..], id))
  }

  function FiringsOf(log: seq<Fired>, id: nat): seq<nat> {
    if log == [] then []
    else if log[0].id == id then [log[0].due] + FiringsOf(log[1..], id)
    else FiringsOf(log[1..], id)
  }

  /** d, d + incr, d + 2 incr, ... up to the start. */
  function Repeats(d: nat, incr: nat, start: nat): seq<nat>
    requires incr > 0
    decreases start - d
  {
    if d > start then [] else [d] + Repeats(d + incr, incr, start)
  }

  lemma {:induction false} LeftAlone(d: Option<nat>, count: nat, ops: seq<Op>, id: nat)
    requires id < count && Leaves(ops, id)
    ensures OpsDue(d, count, ops, id) == d && CountAfterAll(count, ops) >= count
    decreases ops
  {
    if ops != [] {
      LeftAlone(d, CountAfter(count, ops[0]), ops[1..], id);
    }
  }

  lemma {:induction false} CountAllGrows(count: nat, ops: seq<Op>)
    ensures CountAfterAll(count, ops) >= count
    decreases ops
  {
    if ops != [] {
      CountAllGrows(CountAfter(count, ops[0]), ops[1..]);
    }
  }

  /** A steady timer fires at exactly its missed due times, all of them and none twice, and is next due at the
      first one after the start. */
  lemma {:induction false} CatchesUp(d: nat, count: nat, log: seq<Fired>, id: nat, end: Option<nat>, incr: nat,
                                     from: nat, start: nat)
    requires incr > 0 && id < count && Steady(log, id, incr) && Rising(log, from, start)
    requires Follows(Some(d), count, log, id, end) && (end.Some? ==> end.value > start)
    ensures FiringsOf(log, id) == Repeats(d, incr, start)
    ensures end == Some(d + incr * |Repeats(d, incr, start)|)
    decreases log
  {
    hide Leaves, OpsDue, CountAfterAll;
    if log == [] {
    } else {
      var f := log[0];
      CountAllGrows(count, f.call.ops);
      var after := CountAfterAll(count, f.call.ops);
      if f.id == id {
        CatchesUp(d + incr, after, log[1..], id, end, incr, f.due, start);
        OneMore(incr, |Repeats(d + incr, incr, start)|);
      } else {
        LeftAlone(Some(d), count, f.call.ops, id);
        CatchesUp(d, after, log[1..], id, end, incr, f.due, start);
      }
    }
  }

  lemma {:induction false} OneMore(incr: nat, n: nat)
    ensures incr * (n + 1) == incr + incr * n
  {
  }

  lemma {:induction false} AllLater(ts: seq<Timer>, due: nat, id: nat)
    requires AtLeast(ts, due)
    ensures DueOf(ts, id).Some? ==> DueOf(ts, id).value >= due
  {
    if ts != [] && ts[0].id != id {
      AllLater(ts[1..], due, id);
    }
  }

  /** The same for a whole phase. */
  lemma {:induction false} RunCatchesUp(s: State, start: nat, calls: nat -> Call, id: nat, d: nat, incr: nat)
    requires LawfulCalls(calls, start) && Sorted(s.times) && Numbered(s) && incr > 0
    requires DueOf(s.times, id) == Some(d)
    requires !Run(s, start, calls, 0).threw && Steady(Run(s, start, calls, 0).log, id, incr)
    ensures FiringsOf(Run(s, start, calls, 0).log, id) == Repeats(d, incr, start)
    ensures DueOf(Run(s, start, calls, 0).state.times, id) == Some(d + incr * |Repeats(d, incr, start)|)
  {
    hide Run, Follows, Steady, Rising, Repeats, FiringsOf;
    var r := Run(s, start, calls, 0);
    SortedAtLeast(s.times, 0);
    FiresInOrder(s, start, calls, 0, 0);
    FollowsSchedule(s, start, calls, 0, id);
    AllLater(r.state.times, start + 1, id);
    DueIffScheduled(s.times, id);
    CatchesUp(d, s.count, r.log, id, DueOf(r.state.times, id), incr, 0, start);
  }

  /** The repeats are the due times from d in steps of incr: one for every whole increment up to the start. */
  lemma {:induction false} RepeatsCounted(d: nat, incr: nat, start: nat, k: nat)
    requires incr > 0 && k < |Repeats(d, incr, start)|
    ensures Repeats(d, incr, start)[k] == d + incr * k <= start
    decreases start - d
  {
    if k > 0 {
      RepeatsCounted(d + incr, incr, start, k - 1);
      OneMore(incr, k - 1);
    }
  }
}
