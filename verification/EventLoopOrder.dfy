/** Which timer comes first: those due at the same time fire in the order they were scheduled. */
module EventLoopOrder {
  import opened Basics
  import opened EventLoopSpec
  import opened EventLoopTheorems

  /** A new entry goes behind everything due no later and before everything due later. */
  lemma {:induction false} InsertPlace(ts: seq<Timer>, t: Timer) returns (k: nat)
    requires Sorted(ts)
    ensures k <= |ts| && Insert(ts, t) == ts[..k] + [t] + ts[k..]
    ensures forall j :: 0 <= j < k ==> ts[j].due <= t.due
    ensures forall j :: k <= j < |ts| ==> ts[j].due > t.due
  {
    k := 0;
    if ts != [] && ts[0].due <= t.due {
      hide Sorted;
      SortedTail(ts);
      var rest := InsertPlace(ts[1..], t);
      k := rest + 1;
      assert ts[..k] == [ts[0]] + ts[1..][..rest] && ts[k..] == ts[1..][rest..];
      forall j | 0 <= j < |ts|
        ensures j < k ==> ts[j].due <= t.due
        ensures j >= k ==> ts[j].due > t.due
      {
        if j > 0 {
          assert ts[j] == ts[1..][j - 1];
        }
      }
    } else if ts != [] {
      SortedAtLeast(ts, ts[0].due);
      hide Sorted;
      forall j | 0 <= j < |ts|
        ensures ts[j].due > t.due
      {
        AllAtLeast(ts, ts[0].due, j);
      }
    }
  }

  lemma {:induction false} AllAtLeast(ts: seq<Timer>, due: nat, j: nat)
    requires AtLeast(ts, due) && j < |ts|
    ensures ts[j].due >= due
  {
    if j > 0 {
      AllAtLeast(ts[1..], due, j - 1);
    }
  }

  // ---------------------------------------------------------------- what each operation does to the schedule

  /** A new timer is due its interval after now, under a number of its own; nothing else changes. */
  lemma {:induction false} AddSchedules(s: State, now: nat, millis: nat, id: nat)
    requires Numbered(s)
    ensures millis == 0 ==> Apply(s, Add(now, millis)) == s
    ensures millis > 0 ==> DueOf(Apply(s, Add(now, millis)).times, s.count) == Some(now + millis)
    ensures millis > 0 ==> Apply(s, Add(now, millis)).funcs == s.funcs + {s.count}
    ensures millis > 0 ==> Apply(s, Add(now, millis)).count == s.count + 1
    ensures id != s.count ==> DueOf(Apply(s, Add(now, millis)).times, id) == DueOf(s.times, id)
  {
    hide Insert, DueOf, Ids;
    InsertDue(s.times, Timer(now + millis, s.count), id);
    InsertDue(s.times, Timer(now + millis, s.count), s.count);
  }

  /** A removed timer is neither scheduled nor registered; nothing else changes. */
  lemma {:induction false} RemoveUnschedules(s: State, other: nat, id: nat)
    requires Numbered(s)
    ensures DueOf(Apply(s, Remove(other)).times, id) == if id == other then None else DueOf(s.times, id)
    ensures Apply(s, Remove(other)).funcs == s.funcs - {other} && Apply(s, Remove(other)).count == s.count
  {
    hide Without, DueOf, Ids;
    WithoutDue(s.times, other, id);
  }

  /** A scheduled timer is moved to its interval after now; nothing else changes. */
  lemma {:induction false} RescheduleMoves(s: State, other: nat, now: nat, millis: nat, id: nat)
    requires Numbered(s)
    ensures DueOf(Apply(s, Reschedule(other, now, millis)).times, id)
            == if id == other && other in Ids(s.times) then Some(now + millis) else DueOf(s.times, id)
    ensures Apply(s, Reschedule(other, now, millis)).funcs == s.funcs
    ensures Apply(s, Reschedule(other, now, millis)).count == s.count
  {
    hide Insert, Without, DueOf, Ids, Distinct;
    DueIffScheduled(s.times, other);
    WithoutDue(s.times, other, id);
    WithoutIds(s.times, other);
    InsertDue(Without(s.times, other), Timer(now + millis, other), id);
    InsertDue(Without(s.times, other), Timer(now + millis, other), other);
  }

  // ---------------------------------------------------------------- first scheduled, first fired

  /** a has an entry, and it comes before any of b. */
  predicate Ahead(ts: seq<Timer>, a: nat, b: nat) {
    ts != [] && ts[0].id != b && (ts[0].id == a || Ahead(ts[1..], a, b))
  }

  /** A timer that is scheduled anew stands behind another exactly when it is due no earlier: at the same time the one
      scheduled first comes first. */
  lemma {:induction false} ScheduledBehindIff(ts: seq<Timer>, a: nat, t: Timer)
    requires Sorted(ts) && t.id !in Ids(ts) && DueOf(ts, a).Some?
    ensures Ahead(Insert(ts, t), a, t.id) <==> DueOf(ts, a).value <= t.due
    ensures Ahead(Insert(ts, t), t.id, a) <==> t.due < DueOf(ts, a).value
  {
    if ts[0].due <= t.due {
      assert ([ts[0]] + Insert(ts[1..], t))[1..] == Insert(ts[1..], t);
      if ts[0].id != a {
        ScheduledBehindIff(ts[1..], a, t);
      }
    } else {
      SortedAtLeast(ts, ts[0].due);
      AllLater(ts, ts[0].due, a);
      DueIffScheduled(ts, a);
      assert ([t] + ts)[1..] == ts;
    }
  }

  lemma {:induction false} InsertAhead(ts: seq<Timer>, t: Timer, a: nat, b: nat)
    requires Ahead(ts, a, b) && t.id != b
    ensures Ahead(Insert(ts, t), a, b)
  {
    if ts[0].due <= t.due {
      assert ([ts[0]] + Insert(ts[1..], t))[1..] == Insert(ts[1..], t);
      if ts[0].id != a {
        InsertAhead(ts[1..], t, a, b);
      }
    } else {
      assert ([t] + ts)[1..] == ts;
    }
  }

  lemma {:induction false} WithoutAhead(ts: seq<Timer>, other: nat, a: nat, b: nat)
    requires Ahead(ts, a, b) && other != a
    ensures Ahead(Without(ts, other), a, b)
  {
    if ts[0].id != other {
      assert ([ts[0]] + Without(ts[1..], other))[1..] == Without(ts[1..], other);
      if ts[0].id != a {
        WithoutAhead(ts[1..], other, a, b);
      }
    }
  }

  lemma {:induction false} OpsAhead(s: State, ops: seq<Op>, a: nat, b: nat)
    requires Ahead(s.times, a, b) && b < s.count && Leaves(ops, a) && Leaves(ops, b)
    ensures Ahead(ApplyAll(s, ops).times, a, b)
    decreases ops
  {
    hide Insert, Without, DueOf, Ahead;
    if ops != [] {
      match ops[0] {
        case Add(now, millis) =>
          InsertAhead(s.times, Timer(now + millis, s.count), a, b);
        case Remove(id) =>
          WithoutAhead(s.times, id, a, b);
        case Reschedule(id, now, millis) =>
          WithoutAhead(s.times, id, a, b);
          InsertAhead(Without(s.times, id), Timer(now + millis, id), a, b);
      }
      OpsAhead(Apply(s, ops[0]), ops[1..], a, b);
    }
  }

  /** No callback removes or reschedules either of them before the first one fires. */
  predicate Untouched(log: seq<Fired>, a: nat, b: nat) {
    log == [] || log[0].id == a
    || (Leaves(log[0].call.ops, a) && Leaves(log[0].call.ops, b) && Untouched(log[1..], a, b))
  }

  /** Every firing of b comes after one of a. */
  predicate FiresFirst(log: seq<Fired>, a: nat, b: nat) {
    log == [] || log[0].id == a || (log[0].id != b && FiresFirst(log[1..], a, b))
  }

  lemma {:induction false} FireAhead(s: State, call: Call, a: nat, b: nat)
    requires Ahead(s.times, a, b) && s.times[0].id != a && b < s.count && Leaves(call.ops, a) && Leaves(call.ops, b)
    ensures Ahead(Fire(s, call).times, a, b)
  {
    var during := s.(times := s.times[1..]);
    assert Ahead(during.times, a, b);
    hide Insert, ApplyAll, Ahead, Leaves;
    OpsAhead(during, call.ops, a, b);
    var t := s.times[0];
    assert t.id != b by {
      NotHead(s.times, a, b);
    }
    if call.incr > 0 {
      InsertAhead(ApplyAll(during, call.ops).times, Timer(t.due + call.incr, t.id), a, b);
    }
  }

  lemma {:induction false} NotHead(ts: seq<Timer>, a: nat, b: nat)
    requires Ahead(ts, a, b)
    ensures ts != [] && ts[0].id != b
  {
  }

  /** Of two timers the one that stands ahead fires first, whatever other callbacks add, remove or move. */
  lemma {:induction false} FiresInTurn(s: State, start: nat, calls: nat -> Call, k: nat, a: nat, b: nat)
    requires LawfulCalls(calls, start) && Numbered(s) && Ahead(s.times, a, b) && b < s.count
    requires Untouched(Run(s, start, calls, k).log, a, b)
    ensures FiresFirst(Run(s, start, calls, k).log, a, b)
    decreases Overdue(s.times, start)
  {
    hide Overdue, Fire, Numbered, Ahead, Leaves;
    NotHead(s.times, a, b);
    if s.times != [] && s.times[0].due <= start && s.times[0].id in s.funcs && s.times[0].id != a {
      FireLowers(s, calls(k), start);
      var rest := Run(Fire(s, calls(k)), start, calls, k + 1);
      var log := Run(s, start, calls, k).log;
      assert log[1..] == rest.log && log[0] == Fired(s.times[0].id, s.times[0].due, calls(k));
      FireDue(s, calls(k), b);
      CountAllGrows(s.count, calls(k).ops);
      FireAhead(s, calls(k), a, b);
      FiresInTurn(Fire(s, calls(k)), start, calls, k + 1, a, b);
    }
  }

  /** Timers scheduled for the same time fire in the order in which they were scheduled. */
  lemma {:induction false} SameTimeInOrder(s: State, a: nat, now: nat, millis: nat, start: nat, calls: nat -> Call)
    requires LawfulCalls(calls, start) && Numbered(s) && Sorted(s.times) && millis > 0
    requires DueOf(s.times, a) == Some(now + millis)
    requires Untouched(Run(Apply(s, Add(now, millis)), start, calls, 0).log, a, s.count)
    ensures FiresFirst(Run(Apply(s, Add(now, millis)), start, calls, 0).log, a, s.count)
  {
    hide Run, Insert, DueOf, Ahead, Sorted, Untouched, FiresFirst, Ids, Distinct;
    var t := Timer(now + millis, s.count);
    ScheduledBehindIff(s.times, a, t);
    InsertIds(s.times, t);
    FiresInTurn(Apply(s, Add(now, millis)), start, calls, 0, a, s.count);
  }

  // ---------------------------------------------------------------- a function that is not there

  /** The phase ends at a due timer without a function: it loses its entry and gets an empty function. */
  lemma {:induction false} ThrowsAtOnce(s: State, start: nat, calls: nat -> Call, k: nat)
    requires LawfulCalls(calls, start) && s.times != [] && s.times[0].due <= start && s.times[0].id !in s.funcs
    ensures Run(s, start, calls, k).threw && Run(s, start, calls, k).log == []
    ensures Run(s, start, calls, k).state == State(s.times[1..], s.funcs + {s.times[0].id}, s.count)
  {
    hide Overdue;
  }

  /** After a throw some registered timer has no entry in the queue. */
  lemma {:induction false} ThrowLeavesStray(s: State, start: nat, calls: nat -> Call, k: nat) returns (id: nat)
    requires LawfulCalls(calls, start) && Numbered(s) && Run(s, start, calls, k).threw
    ensures id in Run(s, start, calls, k).state.funcs && id !in Ids(Run(s, start, calls, k).state.times)
    decreases Overdue(s.times, start)
  {
    hide Overdue, Fire;
    id := s.times[0].id;
    if id in s.funcs {
      FireLowers(s, calls(k), start);
      FireDue(s, calls(k), 0);
      id := ThrowLeavesStray(Fire(s, calls(k)), start, calls, k + 1);
    } else {
      TakenOut(s.times);
    }
  }
}
