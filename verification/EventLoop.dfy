/** The event loop's timer tables as the code updates them. */
module EventLoop {
  import opened Basics
  import opened EventLoopSpec
  import opened EventLoopTheorems

  class Loop {
    var timerTimes: seq<Timer>
    var timerFuncs: set<nat>
    var timerCount: nat

    ghost function View(): State
      reads this
    {
      State(timerTimes, timerFuncs, timerCount)
    }

    /** Sorted queue, one entry for every registered timer and none else. */
    ghost predicate Valid()
      reads this
    {
      Sorted(timerTimes) && Matched(View(), {})
    }

    constructor ()
      ensures Valid() && timerTimes == []
    {
      timerTimes, timerFuncs, timerCount := [], {}, 0;
    }

    /** None for a zero interval. */
    method AddInterval(now: nat, millis: nat) returns (id: Option<nat>)
      modifies this
      ensures View() == Added(old(View()), now, millis)
      ensures id == if millis == 0 then None else Some(old(timerCount))
    {
      if millis == 0 {
        return None;
      }
      timerFuncs := timerFuncs + {timerCount};
      timerTimes := Insert(timerTimes, Timer(now + millis, timerCount));
      id := Some(timerCount);
      timerCount := timerCount + 1;
    }

    /** Takes the first entry of a timer out of the queue. */
    method EraseTime(id: nat) returns (found: bool)
      modifies this`timerTimes
      ensures timerTimes == Without(old(timerTimes), id)
      ensures found <==> DueOf(old(timerTimes), id).Some?
    {
      hide Without, DueOf;
      var it: nat := 0;
      assert timerTimes[0..] == timerTimes;
      while it < |timerTimes|
        invariant it <= |timerTimes| && timerTimes == old(timerTimes)
        invariant timerTimes[..it] + Without(timerTimes[it..], id) == Without(timerTimes, id)
        invariant DueOf(timerTimes[it..], id) == DueOf(timerTimes, id)
      {
        SearchStep(timerTimes, it, id);
        if timerTimes[it].id == id {
          timerTimes := timerTimes[..it] + timerTimes[it + 1..];
          return true;
        }
        it := it + 1;
      }
      NotThere([], id);
      assert timerTimes[..it] + [] == timerTimes;
      return false;
    }

    method RemoveInterval(id: nat)
      modifies this
      ensures View() == Removed(old(View()), id)
    {
      timerFuncs := timerFuncs - {id};
      var _ := EraseTime(id);
    }

    method RescheduleInterval(id: nat, now: nat, millis: nat)
      modifies this`timerTimes
      ensures View() == Rescheduled(old(View()), id, now, millis)
    {
      var found := EraseTime(id);
      if !found {
        NotThere(old(timerTimes), id);
        return;
      }
      timerTimes := Insert(timerTimes, Timer(now + millis, id));
    }

    /** One run of a callback. */
    method RunCallback(ops: seq<Op>)
      modifies this
      ensures View() == ApplyAll(old(View()), ops)
    {
      hide Insert, Without, DueOf;
      var i := 0;
      assert ops[0..] == ops;
      while i < |ops|
        invariant 0 <= i <= |ops|
        invariant ApplyAll(View(), ops[i..]) == ApplyAll(old(View()), ops)
        decreases |ops| - i
      {
        var left := ops[i..];
        assert left[1..] == ops[i + 1..];
        match ops[i] {
          case Add(now, millis) => var _ := AddInterval(now, millis);
          case Remove(id) => RemoveInterval(id);
          case Reschedule(id, now, millis) => RescheduleInterval(id, now, millis);
        }
        i := i + 1;
      }
    }

    static lemma {:induction false} RunUnfolds(s: State, start: nat, calls: nat -> Call, k: nat)
      requires LawfulCalls(calls, start) && s.times != [] && s.times[0].due <= start && s.times[0].id in s.funcs
      ensures var rest := Run(Fire(s, calls(k)), start, calls, k + 1);
              && Run(s, start, calls, k).state == rest.state
              && Run(s, start, calls, k).log == [Fired(s.times[0].id, s.times[0].due, calls(k))] + rest.log
              && Run(s, start, calls, k).threw == rest.threw
      ensures Overdue(Fire(s, calls(k)).times, start) < Overdue(s.times, start)
    {
      hide Overdue, AllLawful, Fire;
      FireLowers(s, calls(k), start);
    }

    static lemma {:induction false} RunStops(s: State, start: nat, calls: nat -> Call, k: nat)
      requires LawfulCalls(calls, start)
      ensures s.times == [] || s.times[0].due > start ==> Run(s, start, calls, k) == Outcome(s, [], false)
      ensures s.times != [] && s.times[0].due <= start && s.times[0].id !in s.funcs
              ==> Run(s, start, calls, k) == Outcome(Thrown(s), [], true)
    {
    }

    /** The firing loop of await. */
    method FireDue(startTime: nat, calls: nat -> Call) returns (log: seq<Fired>, threw: bool)
      requires LawfulCalls(calls, startTime)
      modifies this
      ensures Outcome(View(), log, threw) == Run(old(View()), startTime, calls, 0)
    {
      hide ApplyAll, Insert, Overdue, AllLawful, Run;
      log, threw := [], false;
      while timerTimes != [] && timerTimes[0].due <= startTime
        invariant Run(old(View()), startTime, calls, 0).state == Run(View(), startTime, calls, |log|).state
        invariant Run(old(View()), startTime, calls, 0).log == log + Run(View(), startTime, calls, |log|).log
        invariant Run(old(View()), startTime, calls, 0).threw == Run(View(), startTime, calls, |log|).threw
        decreases Overdue(timerTimes, startTime)
      {
        var t, tid := timerTimes[0].due, timerTimes[0].id;
        ghost var was := View();
        RunStops(was, startTime, calls, |log|);
        timerTimes := timerTimes[1..];
        if tid !in timerFuncs {
          timerFuncs := timerFuncs + {tid};
          assert log + [] == log;
          return log, true;
        }
        var call := calls(|log|);
        RunUnfolds(was, startTime, calls, |log|);
        RunCallback(call.ops);
        if call.incr > 0 {
          timerTimes := Insert(timerTimes, Timer(t + call.incr, tid));
        } else {
          timerFuncs := timerFuncs - {tid};
        }
        assert View() == Fire(was, call);
        Assoc(log, [Fired(tid, t, call)], Run(View(), startTime, calls, |log| + 1).log);
        log := log + [Fired(tid, t, call)];
      }
      RunStops(View(), startTime, calls, |log|);
      assert log + [] == log;
    }

    /** The timer phase of await: fires everything due at the start, then shortens the wait to the next due time. */
    method FireTimers(startTime: nat, calls: nat -> Call, maxMs: nat)
        returns (log: seq<Fired>, wait: nat, threw: bool)
      requires Valid() && LawfulCalls(calls, startTime)
      modifies this
      ensures Outcome(View(), log, threw) == Run(old(View()), startTime, calls, 0)
      ensures Rising(log, 0, startTime) && Sorted(timerTimes)
      ensures NoneRemovesItself(log) ==> !threw && Valid()
      ensures !threw ==> AtLeast(timerTimes, startTime + 1) && wait <= maxMs
      ensures !threw ==> forall id: nat :: DueOf(timerTimes, id).Some? ==> startTime + wait <= DueOf(timerTimes, id).value
      ensures !threw ==> wait == maxMs || (timerTimes != [] && startTime + wait == timerTimes[0].due)
    {
      hide Sorted, Matched, Run, Rising, Overdue;
      ghost var before := View();
      log, threw := FireDue(startTime, calls);
      SortedAtLeast(before.times, 0);
      FiresInOrder(before, startTime, calls, 0, 0);
      if NoneRemovesItself(log) {
        RunMatched(before, startTime, calls, 0);
      }
      wait := maxMs;
      if !threw && timerTimes != [] {
        if maxMs > timerTimes[0].due - startTime {
          wait := timerTimes[0].due - startTime;
        }
        NoneBefore(timerTimes);
      }
    }
  }

  lemma {:induction false} SearchStep(ts: seq<Timer>, it: nat, id: nat)
    requires it < |ts|
    ensures ts[it].id == id ==> Without(ts[it..], id) == ts[it + 1..] && DueOf(ts[it..], id).Some?
    ensures ts[it].id != id ==> ts[..it] + Without(ts[it..], id) == ts[..it + 1] + Without(ts[it + 1..], id)
    ensures ts[it].id != id ==> DueOf(ts[it..], id) == DueOf(ts[it + 1..], id)
  {
    assert ts[it..][1..] == ts[it + 1..];
    assert ts[..it + 1] == ts[..it] + [ts[it]];
  }

  lemma {:induction false} NotThere(ts: seq<Timer>, id: nat)
    ensures DueOf([], id).None?
    ensures DueOf(ts, id).None? ==> Without(ts, id) == ts
  {
    if ts != [] {
      NotThere(ts[1..], id);
    }
  }

  lemma {:induction false} NoneBefore(ts: seq<Timer>)
    requires ts != [] && Sorted(ts)
    ensures forall id: nat :: DueOf(ts, id).Some? ==> ts[0].due <= DueOf(ts, id).value
  {
    SortedAtLeast(ts, ts[0].due);
    forall id: nat
      ensures DueOf(ts, id).Some? ==> ts[0].due <= DueOf(ts, id).value
    {
      AllLater(ts, ts[0].due, id);
    }
  }
}
