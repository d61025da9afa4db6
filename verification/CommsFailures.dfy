/** What can go wrong on the shared page, shown by runs from a fresh one, and exactly when it does. */
module CommsFailures {
  import opened CommsProtocol
  import opened CommsSafety
  import opened CommsVisibility

  // ---------------------------------------------------------------- building runs

  ghost predicate Reaches(s: State, t: State) {
    exists actions :: Feasible(s, actions) && Run(s, actions) == t
  }

  lemma {:induction false} RunAppend(s: State, a: seq<Action>, b: seq<Action>)
    requires Feasible(s, a) && Feasible(Run(s, a), b)
    ensures Feasible(s, a + b) && Run(s, a + b) == Run(Run(s, a), b)
    decreases |a|
  {
    if a == [] {
      assert a + b == b;
    } else {
      RunAppend(Do(s, a[0]), a[1..], b);
      assert (a + b)[1..] == a[1..] + b && (a + b)[0] == a[0];
    }
  }

  lemma {:induction false} OneStep(s: State, a: Action)
    requires Can(s, a)
    ensures Reaches(s, Do(s, a))
  {
    hide Can, Do;
    assert [a][1..] == [] && [a][0] == a;
    assert Feasible(Do(s, a), []) && Run(Do(s, a), []) == Do(s, a);
    assert Feasible(s, [a]) && Run(s, [a]) == Do(s, a);
  }

  lemma {:induction false} Then(s: State, t: State, u: State)
    requires Reaches(s, t) && Reaches(t, u)
    ensures Reaches(s, u)
  {
    var a :| Feasible(s, a) && Run(s, a) == t;
    var b :| Feasible(t, b) && Run(t, b) == u;
    RunAppend(s, a, b);
  }

  /** A client's steps: it stands elsewhere, and the page and the semaphore are as given. */
  function With(s: State, c: nat, p: Client, holder: Holder, records: seq<Record>): State {
    s.(clients := s.clients[c := p], holder := holder, records := records)
  }

  /** The client has seen a free record, and the semaphore is free. */
  predicate CanClaim(s: State, c: nat, i: nat) {
    && c in s.clients && Live(s, c) && s.clients[c] == Waiting(i) && i < |s.records|
    && s.records[i].status == INVALID && s.holder == Nobody
  }

  /** Right after the claim is published. */
  function Published(s: State, c: nat, i: nat): State
    requires CanClaim(s, c, i)
  {
    With(s, c, ReadingEnd(i), HeldBy(c), s.records[i := Record(ACTIVE | s.flags, s.pids[c])])
      .(late := if InScan(s.master) && i < s.master.rc then s.late + {i} else s.late)
  }

  /** The count covers record i. */
  function Counted(s: State, c: nat, i: nat): State {
    var t := SetClient(s, c, Releasing(i));
    if s.endPos <= i then t.(endPos := i + 1, cut := set j | j in s.cut && j > i) else t
  }

  /** After an undisturbed claim. */
  function AfterClaim(s: State, c: nat, i: nat): State
    requires CanClaim(s, c, i)
  {
    SetClient(Counted(Published(s, c, i), c, i).(holder := Nobody), c, Owning(i))
  }

  lemma {:induction false} ClaimLocks(s: State, c: nat, i: nat)
    requires CanClaim(s, c, i)
    ensures Reaches(s, With(s, c, WritingPid(i), HeldBy(c), s.records))
  {
    hide Reaches;
    var a := Advance(c);
    var t1 := With(s, c, Rechecking(i), HeldBy(c), s.records);
    var t2 := With(s, c, WritingPid(i), HeldBy(c), s.records);
    assert Do(s, a) == t1 && Do(t1, a) == t2;
    OneStep(s, a);
    OneStep(t1, a);
    Then(s, t1, t2);
  }

  lemma {:induction false} ClaimWrites(s: State, c: nat, i: nat)
    requires CanClaim(s, c, i)
    ensures Reaches(With(s, c, WritingPid(i), HeldBy(c), s.records), Published(s, c, i))
  {
    hide Reaches;
    var a := Advance(c);
    var t2, t4 := With(s, c, WritingPid(i), HeldBy(c), s.records), Published(s, c, i);
    var t3 := With(s, c, WritingStatus(i), HeldBy(c), s.records[i := Record(INVALID, s.pids[c])]);
    assert Do(t2, a) == t3 && Do(t3, a) == t4;
    OneStep(t2, a);
    OneStep(t3, a);
    Then(t2, t3, t4);
  }

  lemma {:induction false} Counts(s: State, c: nat, i: nat)
    requires c in s.clients && Live(s, c) && s.clients[c] == ReadingEnd(i) && i < |s.records|
    ensures Reaches(s, Counted(s, c, i))
  {
    hide Reaches;
    var a := Advance(c);
    OneStep(s, a);
    if s.endPos <= i {
      var t := SetClient(s, c, WritingEnd(i));
      assert Do(s, a) == t && Do(t, a) == Counted(s, c, i);
      OneStep(t, a);
      Then(s, t, Counted(s, c, i));
    }
  }

  lemma {:induction false} Releases(s: State, c: nat, i: nat)
    requires c in s.clients && Live(s, c) && s.clients[c] == Releasing(i) && i < |s.records|
    ensures Reaches(s, SetClient(s.(holder := Nobody), c, Owning(i)))
  {
    hide Reaches;
    OneStep(s, Advance(c));
  }

  lemma {:induction false} Claims(s: State, c: nat, i: nat)
    requires CanClaim(s, c, i)
    ensures Reaches(s, AfterClaim(s, c, i))
  {
    hide Reaches;
    var t2, t4 := With(s, c, WritingPid(i), HeldBy(c), s.records), Published(s, c, i);
    ClaimLocks(s, c, i);
    ClaimWrites(s, c, i);
    Counts(t4, c, i);
    Releases(Counted(t4, c, i), c, i);
    Then(s, t2, t4);
    Then(s, t4, Counted(t4, c, i));
    Then(s, Counted(t4, c, i), AfterClaim(s, c, i));
  }

  /** A client that passes the used records below i and finds record i free. */
  ghost predicate FirstFree(s: State, i: nat) {
    i < |s.records| && s.records[i].status == INVALID && forall j :: 0 <= j < i ==> s.records[j].status != INVALID
  }

  lemma {:induction false} Probes(s: State, c: nat, from: nat, i: nat)
    requires c in s.clients && Live(s, c) && s.clients[c] == Probing(from) && from <= i && FirstFree(s, i)
    ensures Reaches(s, SetClient(s, c, Waiting(i)))
    decreases i - from
  {
    hide Reaches;
    OneStep(s, Advance(c));
    if from < i {
      var t := SetClient(s, c, Probing(from + 1));
      assert Do(s, Advance(c)) == t;
      Probes(t, c, from + 1, i);
      assert SetClient(t, c, Waiting(i)) == SetClient(s, c, Waiting(i));
      Then(s, t, SetClient(s, c, Waiting(i)));
    }
  }

  /** A new process has found record i. */
  function Joined(s: State, c: nat, i: nat): State {
    s.(clients := s.clients[c := Waiting(i)], pids := s.pids[c := c])
  }

  /** A number free for a new client and its process. */
  predicate Unknown(s: State, c: nat) { c > 0 && c !in s.clients && c !in s.pids && c !in s.dead }

  lemma {:induction false} Joins(s: State, c: nat, i: nat)
    requires Unknown(s, c) && FirstFree(s, i)
    ensures Reaches(s, Joined(s, c, i))
  {
    hide Reaches;
    var t := Do(s, Spawn(c, c));
    OneStep(s, Spawn(c, c));
    Probes(t, c, 0, i);
    assert SetClient(t, c, Waiting(i)) == Joined(s, c, i);
    Then(s, t, Joined(s, c, i));
  }

  lemma {:induction false} Owns(s: State, c: nat, i: nat)
    requires Unknown(s, c) && FirstFree(s, i) && s.holder == Nobody
    ensures Reaches(s, AfterClaim(Joined(s, c, i), c, i))
  {
    hide Reaches;
    Joins(s, c, i);
    Claims(Joined(s, c, i), c, i);
    Then(s, Joined(s, c, i), AfterClaim(Joined(s, c, i), c, i));
  }

  /** The client has disconnected. */
  function AfterLeave(s: State, c: nat, i: nat): State
    requires i < |s.records|
  {
    SetClient(SetStatus(s, i, DISCONNECT | s.records[i].status), c, Disconnected(i))
  }

  predicate OwnsRecord(s: State, c: nat, i: nat) {
    && c in s.clients && Live(s, c) && s.clients[c] == Owning(i) && i < |s.records|
    && s.records[i].status != INVALID && !Gone(s.records[i].status) && s.records[i].pid == s.pids[c]
  }

  /** The client has worked out its last status. */
  function Leaving(s: State, c: nat, i: nat): State
    requires i < |s.records|
  {
    SetClient(s, c, Updating(i, DISCONNECT | s.records[i].status))
  }

  lemma {:induction false} StartsLeaving(s: State, c: nat, i: nat)
    requires OwnsRecord(s, c, i)
    ensures Reaches(s, Leaving(s, c, i))
  {
    hide Reaches, Gone;
    OneStep(s, Touch(c, DISCONNECT, false));
  }

  lemma {:induction false} EndsLeaving(s: State, c: nat, i: nat, value: bv8)
    requires c in s.clients && Live(s, c) && i < |s.records| && s.clients[c] == Updating(i, DISCONNECT | value)
    ensures Reaches(s, SetClient(SetStatus(s, i, DISCONNECT | value), c, Disconnected(i)))
  {
    hide Reaches;
    assert Gone(DISCONNECT | value);
    OneStep(s, Advance(c));
  }

  lemma {:induction false} Leaves(s: State, c: nat, i: nat)
    requires OwnsRecord(s, c, i)
    ensures Reaches(s, AfterLeave(s, c, i))
  {
    hide Reaches, Gone, Live;
    StartsLeaving(s, c, i);
    Overwritten(s, c, i);
    EndsLeaving(Leaving(s, c, i), c, i, s.records[i].status);
    Then(s, Leaving(s, c, i), AfterLeave(s, c, i));
  }

  lemma {:induction false} Overwritten(s: State, c: nat, i: nat)
    requires i < |s.records|
    ensures var t := Leaving(s, c, i);
            && c in t.clients && t.clients[c] == Updating(i, DISCONNECT | s.records[i].status) && i < |t.records|
            && (Live(s, c) ==> Live(t, c))
            && SetClient(SetStatus(t, i, DISCONNECT | s.records[i].status), c, Disconnected(i)) == AfterLeave(s, c, i)
  {
    assert s.clients[c := Updating(i, DISCONNECT | s.records[i].status)][c := Disconnected(i)]
        == s.clients[c := Disconnected(i)];
  }

  lemma {:induction false} NewOwner(s: State, c: nat, i: nat)
    requires Unknown(s, c) && FirstFree(s, i) && !Gone(s.flags)
    requires s.holder == Nobody
    ensures OwnsRecord(AfterClaim(Joined(s, c, i), c, i), c, i)
  {
    NamedBits();
  }

  // ---------------------------------------------------------------- finishAll

  /** The client has disconnected, and its record is in use without the mark. */
  predicate Forgotten(s: State, c: nat, i: nat) {
    && c in s.clients && Live(s, c) && s.clients[c] == Disconnected(i)
    && Busy(s, i) && !Gone(s.records[i].status) && s.records[i].pid == s.pids[c]
  }

  /** The master has read the status of record i and is about to write it back. */
  lemma {:induction false} Requests(s: State)
    requires s.master == Idle && 0 < s.endPos && s.records != []
    requires s.records[0].status != INVALID && !Gone(s.records[0].status)
    ensures Reaches(s, s.(master := WritingRequest(0, s.records[0].status)))
  {
    hide Reaches, Gone;
    var t1, t2 := s.(master := Finishing(0)), s.(master := Requesting(0));
    var t3 := s.(master := WritingRequest(0, s.records[0].status));
    assert Do(s, StartFinish) == t1 && Do(t1, AdvanceMaster) == t2 && Do(t2, AdvanceMaster) == t3;
    OneStep(s, StartFinish);
    OneStep(t1, AdvanceMaster);
    OneStep(t2, AdvanceMaster);
    Then(s, t1, t2);
    Then(s, t2, t3);
  }

  lemma {:induction false} WritesBack(s: State, seen: bv8)
    requires s.master == WritingRequest(0, seen) && s.records != []
    ensures Reaches(s, SetStatus(s, 0, REQDISCONNECT | seen).(master := Finishing(1)))
  {
    hide Reaches;
    OneStep(s, AdvanceMaster);
  }

  lemma {:induction false} Forgets(s: State, c: nat)
    requires OwnsRecord(s, c, 0) && s.master == Idle && 0 < s.endPos
    ensures exists t :: Reaches(s, t) && Forgotten(t, c, 0)
  {
    hide Reaches;
    var seen := s.records[0].status;
    var t1 := s.(master := WritingRequest(0, seen));
    Requests(s);
    Leaves(t1, c, 0);
    var t2 := AfterLeave(t1, c, 0);
    WritesBack(t2, seen);
    var t3 := SetStatus(t2, 0, REQDISCONNECT | seen).(master := Finishing(1));
    Then(s, t1, t2);
    Then(s, t2, t3);
    StillInUse(t3, c, seen);
  }

  lemma {:induction false} StillInUse(t: State, c: nat, seen: bv8)
    requires c in t.clients && Live(t, c) && t.clients[c] == Disconnected(0) && t.records != []
    requires !Gone(seen) && t.records[0] == Record(REQDISCONNECT | seen, t.pids[c])
    ensures Forgotten(t, c, 0)
  {
    NamedBits();
  }

  /** A number not yet in use. */
  lemma {:induction false} NewNumber(used: set<nat>) returns (c: nat)
    ensures c > 0 && c !in used
  {
    c := LargestIn(used) + 1;
  }

  ghost function LargestIn(used: set<nat>): (m: nat)
    ensures forall x :: x in used ==> x <= m
  {
    if used == {} then 0
    else
      var x :| x in used;
      var rest := LargestIn(used - {x});
      assert forall y :: y in used ==> y == x || y in used - {x};
      if x > rest then x else rest
  }

  /** From every fresh page: finishAll writes back a status it read earlier, a client disconnects in between, and its
      record stays in use without the mark. */
  lemma {:induction false} DisconnectCanBeLost(s: State)
    requires Init(s)
    ensures exists actions, c :: Feasible(s, actions) && Forgotten(Run(s, actions), c, 0)
  {
    hide Reaches;
    var c := NewNumber(s.dead);
    Owns(s, c, 0);
    NewOwner(s, c, 0);
    var t1 := AfterClaim(Joined(s, c, 0), c, 0);
    Forgets(t1, c);
    var t :| Reaches(t1, t) && Forgotten(t, c, 0);
    Then(s, t1, t);
    var actions := RunTo(s, t);
  }

  lemma {:induction false} RunTo(s: State, t: State) returns (actions: seq<Action>)
    requires Reaches(s, t)
    ensures Feasible(s, actions) && Run(s, actions) == t
  {
    actions :| Feasible(s, actions) && Run(s, actions) == t;
  }

  // ---------------------------------------------------------------- exactly when a disconnect is lost

  /** The master writes back a status from before the disconnect. */
  predicate Losing(s: State, a: Action) {
    && a.AdvanceMaster? && s.master.WritingRequest? && s.master.i < |s.records|
    && Gone(s.records[s.master.i].status) && !Gone(s.master.seen)
  }

  /** Whatever is marked disconnected stays so until it is free. */
  ghost predicate KeepsMarks(s: State, s': State) {
    && |s'.records| == |s.records|
    && forall i :: 0 <= i < |s.records| && Gone(s.records[i].status)
         ==> Gone(s'.records[i].status) || s'.records[i].status == INVALID
  }

  lemma {:induction false} ClientKeepsMarks(s: State, c: nat)
    requires Inv(s) && CanAdvance(s, c)
    ensures KeepsMarks(s, AdvanceClient(s, c))
  {
    assert ClientOk(s, c);
    NamedBits();
  }

  lemma {:induction false} MasterMarksIff(s: State)
    requires Inv(s) && CanAdvanceMaster(s)
    ensures KeepsMarks(s, AdvanceTheMaster(s)) <==> !Losing(s, AdvanceMaster)
  {
    NamedBits();
    if s.master.WritingRequest? {
      var i, s' := s.master.i, AdvanceTheMaster(s);
      assert Gone(s'.records[i].status) <==> Gone(s.master.seen);
    }
  }

  /** One step loses a disconnect exactly when it writes back an older status. */
  lemma {:induction false} StepMarksIff(s: State, a: Action)
    requires Inv(s) && Can(s, a)
    ensures KeepsMarks(s, Do(s, a)) <==> !Losing(s, a)
  {
    if a.Advance? {
      ClientKeepsMarks(s, a.c);
    } else if a.AdvanceMaster? {
      MasterMarksIff(s);
    }
  }

  ghost predicate NeverLosing(s: State, actions: seq<Action>)
    requires Feasible(s, actions)
    decreases |actions|
  {
    actions == [] || (!Losing(s, actions[0]) && NeverLosing(Do(s, actions[0]), actions[1..]))
  }

  ghost predicate AlwaysKeepsMarks(s: State, actions: seq<Action>)
    requires Feasible(s, actions)
    decreases |actions|
  {
    actions == [] || (KeepsMarks(s, Do(s, actions[0])) && AlwaysKeepsMarks(Do(s, actions[0]), actions[1..]))
  }

  /** Over every run: disconnects last until their records are freed exactly when the master never writes back a status
      that is older than a disconnect. */
  lemma {:induction false} MarksLastIff(s: State, actions: seq<Action>)
    requires Inv(s) && Feasible(s, actions)
    ensures AlwaysKeepsMarks(s, actions) <==> NeverLosing(s, actions)
    decreases |actions|
  {
    if actions != [] {
      StepMarksIff(s, actions[0]);
      StepKeepsInv(s, actions[0]);
      MarksLastIff(Do(s, actions[0]), actions[1..]);
    }
  }

  // ---------------------------------------------------------------- exactly when a request to disconnect is lost

  predicate Asked(status: bv8) { status & REQDISCONNECT != 0 }

  /** A client, or the scan that marks it dead, writes back a status from before the request. */
  predicate LosingRequest(s: State, a: Action) {
    || (a.Advance? && a.c in s.clients && s.clients[a.c].Updating? && s.clients[a.c].index < |s.records|
        && Asked(s.records[s.clients[a.c].index].status) && !Asked(s.clients[a.c].value))
    || (a.AdvanceMaster? && s.master.Marking? && s.master.id < |s.records|
        && Asked(s.records[s.master.id].status) && !Asked(s.master.seen))
  }

  /** Whoever is asked to disconnect stays asked until the record is free. */
  ghost predicate KeepsRequests(s: State, s': State) {
    && |s'.records| == |s.records|
    && forall i :: 0 <= i < |s.records| && Asked(s.records[i].status)
         ==> Asked(s'.records[i].status) || s'.records[i].status == INVALID
  }

  lemma {:induction false} RequestBits(seen: bv8)
    ensures Asked(REQDISCONNECT | seen) && !Asked(INVALID) && !Asked(ACTIVE)
    ensures DISCONNECT | seen != INVALID && (Asked(DISCONNECT | seen) <==> Asked(seen))
    ensures Asked(ACTIVE | seen) <==> Asked(seen)
  {
  }

  lemma {:induction false} ClientRequestsIff(s: State, c: nat)
    requires Inv(s) && CanAdvance(s, c)
    ensures KeepsRequests(s, AdvanceClient(s, c)) <==> !LosingRequest(s, Advance(c))
  {
    hide Asked;
    assert ClientOk(s, c);
    RequestBits(INVALID);
    if s.clients[c].Updating? {
      var i, s' := s.clients[c].index, AdvanceClient(s, c);
      assert s'.records[i].status == s.clients[c].value;
    }
  }

  lemma {:induction false} MasterRequestsIff(s: State)
    requires Inv(s) && CanAdvanceMaster(s)
    ensures KeepsRequests(s, AdvanceTheMaster(s)) <==> !LosingRequest(s, AdvanceMaster)
  {
    hide Asked, Gone, Framed, ClientsOk, Exclusive, MasterOk;
    var m, s' := s.master, AdvanceTheMaster(s);
    if m.Marking? {
      RequestBits(m.seen);
      assert s'.records[m.id].status == DISCONNECT | m.seen;
    } else if m.WritingRequest? {
      RequestBits(m.seen);
    }
  }

  /** One step loses a request exactly when it writes back an older status. */
  lemma {:induction false} StepRequestsIff(s: State, a: Action)
    requires Inv(s) && Can(s, a)
    ensures KeepsRequests(s, Do(s, a)) <==> !LosingRequest(s, a)
  {
    if a.Advance? {
      ClientRequestsIff(s, a.c);
    } else if a.AdvanceMaster? {
      MasterRequestsIff(s);
    }
  }

  ghost predicate NeverLosingRequests(s: State, actions: seq<Action>)
    requires Feasible(s, actions)
    decreases |actions|
  {
    actions == [] || (!LosingRequest(s, actions[0]) && NeverLosingRequests(Do(s, actions[0]), actions[1..]))
  }

  ghost predicate AlwaysKeepsRequests(s: State, actions: seq<Action>)
    requires Feasible(s, actions)
    decreases |actions|
  {
    actions == [] || (KeepsRequests(s, Do(s, actions[0])) && AlwaysKeepsRequests(Do(s, actions[0]), actions[1..]))
  }

  /** Over every run: requests last until their records are freed exactly when no status from before one is written
      back. */
  lemma {:induction false} RequestsLastIff(s: State, actions: seq<Action>)
    requires Inv(s) && Feasible(s, actions)
    ensures AlwaysKeepsRequests(s, actions) <==> NeverLosingRequests(s, actions)
    decreases |actions|
  {
    if actions != [] {
      StepRequestsIff(s, actions[0]);
      StepKeepsInv(s, actions[0]);
      RequestsLastIff(Do(s, actions[0]), actions[1..]);
    }
  }

  lemma {:induction false} Touches(s: State, c: nat, i: nat)
    requires OwnsRecord(s, c, i)
    ensures Reaches(s, SetClient(s, c, Updating(i, ACTIVE | s.records[i].status)))
  {
    hide Reaches, Gone;
    OneStep(s, Touch(c, ACTIVE, false));
  }

  /** A client that works out a status before finishAll asks it, and is about to write it afterwards. */
  lemma {:induction false} ForgetsRequest(s: State, c: nat) returns (t: State)
    requires OwnsRecord(s, c, 0) && s.master == Idle && 0 < s.endPos && !Asked(s.records[0].status)
    ensures Reaches(s, t) && Can(t, Advance(c)) && !KeepsRequests(t, Do(t, Advance(c)))
  {
    hide Reaches;
    var seen := s.records[0].status;
    NamedBits();
    RequestBits(seen);
    assert !Gone(ACTIVE | seen) && ACTIVE | seen != INVALID;
    Touches(s, c, 0);
    var t1 := SetClient(s, c, Updating(0, ACTIVE | seen));
    Requests(t1);
    var t2 := t1.(master := WritingRequest(0, seen));
    WritesBack(t2, seen);
    t := SetStatus(t2, 0, REQDISCONNECT | seen).(master := Finishing(1));
    Then(s, t1, t2);
    Then(s, t2, t);
    assert Do(t, Advance(c)).records[0].status == ACTIVE | seen;
  }

  lemma {:induction false} KeepsToTheEnd(s: State, actions: seq<Action>, a: Action)
    requires Feasible(s, actions) && Can(Run(s, actions), a)
    ensures Feasible(s, actions + [a])
    ensures AlwaysKeepsRequests(s, actions + [a]) ==> KeepsRequests(Run(s, actions), Do(Run(s, actions), a))
    decreases |actions|
  {
    hide Can, Do, KeepsRequests;
    if actions == [] {
      assert [] + [a] == [a];
    } else {
      KeepsToTheEnd(Do(s, actions[0]), actions[1..], a);
      assert (actions + [a])[1..] == actions[1..] + [a] && (actions + [a])[0] == actions[0];
    }
  }

  predicate RecordAsked(s: State, i: nat) {
    i < |s.records| && s.records[i].status != INVALID ==> Asked(s.records[i].status)
  }

  predicate ClientAsked(s: State, c: nat) { c in s.clients && s.clients[c].Updating? ==> Asked(s.clients[c].value) }

  predicate MasterAsked(m: Master) { m.CheckingPid? || m.CheckingAlive? || m.Marking? ==> Asked(m.seen) }

  /** Every status carries the request, because the flags of every new client do. */
  ghost predicate AllAsked(s: State) {
    && Asked(s.flags) && MasterAsked(s.master)
    && (forall i: nat :: RecordAsked(s, i)) && (forall c: nat :: ClientAsked(s, c))
  }

  lemma {:induction false} MergedAsk(a: bv8, b: bv8)
    ensures Asked(b) ==> Asked(a | b)
  {
  }

  lemma {:induction false} ClientQuiet(s: State, c: nat)
    requires CanAdvance(s, c) && !WritesRecord(s.clients[c])
    ensures AdvanceClient(s, c).records == s.records
  {
    hide Gone;
  }

  /** What a writing client leaves in its own record. */
  lemma {:induction false} ClientWrites(s: State, c: nat)
    requires CanAdvance(s, c) && WritesRecord(s.clients[c])
    ensures var p, s' := s.clients[c], AdvanceClient(s, c);
            && p.index < |s.records| && s'.records == s.records[p.index := s'.records[p.index]]
            && s'.records[p.index].status == (if p.WritingPid? then s.records[p.index].status
                                              else if p.WritingStatus? then ACTIVE | s.flags else p.value)
  {
    hide Gone;
  }

  lemma {:induction false} ClientRecordAsked(s: State, c: nat, i: nat)
    requires CanAdvance(s, c) && Asked(s.flags) && ClientAsked(s, c) && RecordAsked(s, i)
    ensures RecordAsked(AdvanceClient(s, c), i)
  {
    hide Asked, AdvanceClient;
    MergedAsk(ACTIVE, s.flags);
    if WritesRecord(s.clients[c]) {
      ClientWrites(s, c);
    } else {
      ClientQuiet(s, c);
    }
  }

  lemma {:induction false} ClientStaysAsked(s: State, c: nat)
    requires CanAdvance(s, c) && AllAsked(s)
    ensures AllAsked(AdvanceClient(s, c))
  {
    hide Asked, Gone, RecordAsked;
    var s' := AdvanceClient(s, c);
    forall i: nat ensures RecordAsked(s', i) {
      ClientRecordAsked(s, c, i);
    }
    forall d: nat ensures ClientAsked(s', d) {
      assert ClientAsked(s, d);
    }
  }

  lemma {:induction false} MasterRecordAsked(s: State, i: nat)
    requires CanAdvanceMaster(s) && MasterAsked(s.master) && RecordAsked(s, i)
    ensures RecordAsked(AdvanceTheMaster(s), i)
  {
    hide Asked, Gone;
    if s.master.Marking? {
      MergedAsk(DISCONNECT, s.master.seen);
    } else if s.master.WritingRequest? {
      RequestBits(s.master.seen);
    }
  }

  lemma {:induction false} MasterSeenAsked(s: State)
    requires CanAdvanceMaster(s) && MasterAsked(s.master) && forall i: nat :: RecordAsked(s, i)
    ensures MasterAsked(AdvanceTheMaster(s).master)
  {
    hide Asked, Gone, SetStatus;
    if s.master.Scanning? {
      assert RecordAsked(s, s.master.id);
    }
  }

  lemma {:induction false} MasterStaysAsked(s: State)
    requires CanAdvanceMaster(s) && AllAsked(s)
    ensures AllAsked(AdvanceTheMaster(s))
  {
    hide Asked, Gone, RecordAsked, MasterAsked, AdvanceTheMaster;
    var s' := AdvanceTheMaster(s);
    MasterShape(s);
    MasterSeenAsked(s);
    forall i: nat ensures RecordAsked(s', i) {
      MasterRecordAsked(s, i);
    }
    forall c: nat ensures ClientAsked(s', c) {
      assert ClientAsked(s, c);
    }
  }

  lemma {:induction false} TouchStaysAsked(s: State, c: nat, bits: bv8, blind: bool)
    requires Inv(s) && Can(s, Touch(c, bits, blind)) && AllAsked(s)
    ensures AllAsked(Do(s, Touch(c, bits, blind)))
  {
    hide Asked, Gone;
    assert ClientOk(s, c);
    assert RecordAsked(s, s.clients[c].index);
    MergedAsk(bits, if blind then s.flags else s.records[s.clients[c].index].status);
    SameRecordsAsked(s, Do(s, Touch(c, bits, blind)), c);
  }

  /** Steps that change one client and no record. */
  lemma {:induction false} SameRecordsAsked(s: State, s': State, c: nat)
    requires AllAsked(s) && s'.records == s.records && s'.flags == s.flags
    requires s'.master == s.master || s'.master.Scanning? || s'.master.Finishing?
    requires forall d :: d != c && d in s'.clients ==> d in s.clients && s'.clients[d] == s.clients[d]
    requires ClientAsked(s', c)
    ensures AllAsked(s')
  {
    hide Asked;
    forall i: nat ensures RecordAsked(s', i) {
      assert RecordAsked(s, i);
    }
    forall d: nat ensures ClientAsked(s', d) {
      assert ClientAsked(s, d);
    }
  }

  lemma {:induction false} StaysAsked(s: State, a: Action)
    requires Inv(s) && Can(s, a) && AllAsked(s)
    ensures AllAsked(Do(s, a))
  {
    hide Asked, CanAdvance, CanAdvanceMaster, AdvanceClient, AdvanceTheMaster, AllAsked, Inv;
    match a
    case Advance(c) => ClientStaysAsked(s, c);
    case AdvanceMaster => MasterStaysAsked(s);
    case Touch(c, bits, blind) => TouchStaysAsked(s, c, bits, blind);
    case Spawn(c, _) => SameRecordsAsked(s, Do(s, a), c);
    case Crash(_) => OthersStayAsked(s, Do(s, a));
    case StartScan => OthersStayAsked(s, Do(s, a));
    case StartFinish => OthersStayAsked(s, Do(s, a));
  }

  lemma {:induction false} OthersStayAsked(s: State, s': State)
    requires AllAsked(s) && s'.records == s.records && s'.flags == s.flags && s'.clients == s.clients
    requires s'.master == s.master || s'.master.Scanning? || s'.master.Finishing?
    ensures AllAsked(s')
  {
    hide Asked;
    assert ClientAsked(s, 0);
    SameRecordsAsked(s, s', 0);
  }

  lemma {:induction false} AskedKeepsRequests(s: State, actions: seq<Action>)
    requires Inv(s) && Feasible(s, actions) && AllAsked(s)
    ensures AlwaysKeepsRequests(s, actions)
    decreases |actions|
  {
    hide AllAsked;
    if actions != [] {
      StepKeepsInv(s, actions[0]);
      StaysAsked(s, actions[0]);
      StillAsked(s, Do(s, actions[0]));
      RecordsStay(s, [actions[0]]);
      assert [actions[0]][1..] == [];
      AskedKeepsRequests(Do(s, actions[0]), actions[1..]);
    }
  }

  lemma {:induction false} StillAsked(s: State, s': State)
    requires AllAsked(s')
    ensures |s.records| == |s'.records| ==> KeepsRequests(s, s')
  {
    hide Asked;
    if |s.records| == |s'.records| {
      forall i | 0 <= i < |s.records| && Asked(s.records[i].status)
        ensures Asked(s'.records[i].status) || s'.records[i].status == INVALID
      {
        assert RecordAsked(s', i);
      }
    }
  }

  /** From a fresh page a request can be lost in some interleaving, unless the flags that every client sets hold it
      already. */
  lemma {:induction false} RequestCanBeLostIff(s: State)
    requires Init(s)
    ensures !Asked(s.flags) <==> exists actions :: Feasible(s, actions) && !AlwaysKeepsRequests(s, actions)
  {
    InitInv(s);
    if Asked(s.flags) {
      FreshAsked(s);
      forall actions | Feasible(s, actions) ensures AlwaysKeepsRequests(s, actions) {
        AskedKeepsRequests(s, actions);
      }
    } else {
      RequestIsLost(s);
    }
  }

  lemma {:induction false} FreshAsked(s: State)
    requires Init(s) && Asked(s.flags)
    ensures AllAsked(s)
  {
    hide Asked;
  }

  lemma {:induction false} RequestIsLost(s: State)
    requires Init(s) && !Asked(s.flags)
    ensures exists actions :: Feasible(s, actions) && !AlwaysKeepsRequests(s, actions)
  {
    hide Reaches, AlwaysKeepsRequests, KeepsRequests;
    var c := NewNumber(s.dead);
    Owns(s, c, 0);
    NewOwner(s, c, 0);
    RequestBits(s.flags);
    var t1 := AfterClaim(Joined(s, c, 0), c, 0);
    var t := ForgetsRequest(t1, c);
    Then(s, t1, t);
    var actions := RunTo(s, t);
    KeepsToTheEnd(s, actions, Advance(c));
  }

  // ---------------------------------------------------------------- the shrink

  /** A live owner beyond the count, where no scan looks. */
  ghost predicate OwnsHidden(s: State, c: nat, i: nat) {
    LiveOwner(s, c, i) && s.clients[c].Owning? && i >= s.endPos
  }

  /** The scan passes a record in use by a live process. */
  lemma {:induction false} ScanPasses(s: State, rc: nat, id: nat, maxRec: nat)
    requires s.master == Scanning(rc, id, maxRec) && id < rc && id < |s.records|
    requires s.records[id].status != INVALID && !Gone(s.records[id].status)
    requires s.records[id].pid > 0 && s.records[id].pid !in s.dead
    ensures Reaches(s, s.(master := Scanning(rc, id + 1, id)))
  {
    hide Reaches, Gone;
    var seen := s.records[id].status;
    var t1, t2 := s.(master := CheckingPid(rc, id, maxRec, seen)), s.(master := CheckingAlive(rc, id, maxRec, seen));
    var t3 := s.(master := Scanning(rc, id + 1, id));
    assert Do(s, AdvanceMaster) == t1 && Do(t1, AdvanceMaster) == t2 && Do(t2, AdvanceMaster) == t3;
    OneStep(s, AdvanceMaster);
    OneStep(t1, AdvanceMaster);
    OneStep(t2, AdvanceMaster);
    Then(s, t1, t2);
    Then(s, t2, t3);
  }

  /** Two records: the first in use by a live process, the count at two. */
  predicate FirstOfTwo(s: State) {
    && s.master == Idle && s.endPos == 2 <= |s.records| && s.records[0].status != INVALID && !Gone(s.records[0].status)
    && s.records[0].pid > 0 && s.records[0].pid !in s.dead
  }

  /** A scan that has passed the first of two records. */
  lemma {:induction false} ScansFirst(s: State)
    requires FirstOfTwo(s)
    ensures Reaches(s, s.(master := Scanning(2, 1, 0), late := {}))
  {
    hide Reaches, Gone;
    var t := s.(master := Scanning(2, 0, 0), late := {});
    OneStep(s, StartScan);
    ScanPasses(t, 2, 0, 0);
    Then(s, t, s.(master := Scanning(2, 1, 0), late := {}));
  }

  /** One scan frees the second record and keeps the count, as the record was in use when the scan met it. */
  lemma {:induction false} ScanFreesSecond(s: State)
    requires FirstOfTwo(s) && Gone(s.records[1].status)
    ensures Reaches(s, SetStatus(s, 1, INVALID).(late := {}))
  {
    hide Reaches;
    NamedBits();
    ScansFirst(s);
    var t1 := s.(master := Scanning(2, 1, 0), late := {});
    var t2, t4 := t1.(master := Freeing(2, 1, 0)), SetStatus(s, 1, INVALID).(late := {});
    var t3 := t4.(master := Scanning(2, 2, 1));
    assert Do(t1, AdvanceMaster) == t2 && Do(t2, AdvanceMaster) == t3 && Do(t3, AdvanceMaster) == t4;
    OneStep(t1, AdvanceMaster);
    OneStep(t2, AdvanceMaster);
    OneStep(t3, AdvanceMaster);
    Then(s, t1, t2);
    Then(s, t2, t3);
    Then(s, t3, t4);
  }

  /** The next scan finds it free and decides to shrink. */
  lemma {:induction false} ScanDecides(s: State)
    requires FirstOfTwo(s) && s.records[1].status == INVALID
    ensures Reaches(s, s.(master := WantingShrink(2, 0), late := {}))
  {
    hide Reaches, Gone;
    ScansFirst(s);
    var t1 := s.(master := Scanning(2, 1, 0), late := {});
    var t2, t3 := t1.(master := Scanning(2, 2, 0)), t1.(master := WantingShrink(2, 0));
    assert Do(t1, AdvanceMaster) == t2 && Do(t2, AdvanceMaster) == t3;
    OneStep(t1, AdvanceMaster);
    OneStep(t2, AdvanceMaster);
    Then(s, t1, t2);
    Then(s, t2, t3);
  }

  /** The shrink, as decided. */
  lemma {:induction false} Shrinks(s: State, c: nat)
    requires s.holder == Nobody && s.master == WantingShrink(2, 0) && s.endPos <= 2
    requires c in s.clients && Live(s, c) && s.clients[c] == Owning(1)
    ensures exists t :: Reaches(s, t) && OwnsHidden(t, c, 1)
  {
    hide Reaches;
    var t1 := s.(holder := HeldByMaster, master := CheckingEnd(2, 0));
    var t2 := s.(holder := HeldByMaster, master := Shrinking(2, 0));
    var t3 := Do(t2, AdvanceMaster);
    assert Do(s, AdvanceMaster) == t1 && Do(t1, AdvanceMaster) == t2;
    OneStep(s, AdvanceMaster);
    OneStep(t1, AdvanceMaster);
    OneStep(t2, AdvanceMaster);
    Then(s, t1, t2);
    Then(s, t2, t3);
    assert OwnsHidden(t3, c, 1);
  }

  /** Nothing but the first record in use, by client a. */
  predicate OneOwner(s: State, a: nat) {
    && OwnsRecord(s, a, 0) && s.pids[a] > 0 && s.master == Idle && s.holder == Nobody && !Gone(s.flags)
    && s.endPos == 1 && |s.records| >= 2 && s.records[1].status == INVALID
  }

  lemma {:induction false} UnknownClient(s: State) returns (c: nat)
    ensures Unknown(s, c)
  {
    c := NewNumber(s.clients.Keys + s.pids.Keys + s.dead);
  }

  lemma {:induction false} FirstIsTaken(s: State) returns (t: State, a: nat)
    requires Init(s) && |s.records| >= 2
    ensures Reaches(s, t) && OneOwner(t, a)
  {
    hide Reaches;
    a := UnknownClient(s);
    Owns(s, a, 0);
    NewOwner(s, a, 0);
    t := AfterClaim(Joined(s, a, 0), a, 0);
  }

  lemma {:induction false} SecondIsTaken(s: State, a: nat) returns (t: State, b: nat)
    requires OneOwner(s, a)
    ensures Reaches(s, t) && FirstOfTwo(t) && t.holder == Nobody && !Gone(t.flags) && OwnsRecord(t, b, 1)
  {
    hide Reaches;
    b := UnknownClient(s);
    Owns(s, b, 1);
    NewOwner(s, b, 1);
    t := AfterClaim(Joined(s, b, 1), b, 1);
  }

  lemma {:induction false} SecondIsFreed(s: State, b: nat) returns (t: State)
    requires FirstOfTwo(s) && s.holder == Nobody && !Gone(s.flags) && OwnsRecord(s, b, 1)
    ensures Reaches(s, t) && FirstOfTwo(t) && t.holder == Nobody && !Gone(t.flags) && t.records[1].status == INVALID
  {
    hide Reaches;
    Leaves(s, b, 1);
    var u := AfterLeave(s, b, 1);
    NamedBits();
    assert Gone(DISCONNECT | s.records[1].status);
    ScanFreesSecond(u);
    t := SetStatus(u, 1, INVALID).(late := {});
    Then(s, u, t);
  }

  lemma {:induction false} SecondIsHidden(s: State)
    requires FirstOfTwo(s) && s.holder == Nobody && !Gone(s.flags) && s.records[1].status == INVALID
    ensures exists t, c :: Reaches(s, t) && OwnsHidden(t, c, 1)
  {
    hide Reaches, OwnsHidden;
    ScanDecides(s);
    var t1 := s.(master := WantingShrink(2, 0), late := {});
    var c := UnknownClient(t1);
    Owns(t1, c, 1);
    NewOwner(t1, c, 1);
    var t2 := AfterClaim(Joined(t1, c, 1), c, 1);
    Shrinks(t2, c);
    var t :| Reaches(t2, t) && OwnsHidden(t, c, 1);
    Then(s, t1, t2);
    Then(s, t2, t);
  }

  /** A page of one record is never cut: the count never falls below one. */
  lemma {:induction false} CountStaysPositive(s: State, actions: seq<Action>)
    requires Feasible(s, actions) && s.endPos >= 1
    ensures Run(s, actions).endPos >= 1
    decreases |actions|
  {
    if actions != [] {
      CountStaysPositive(Do(s, actions[0]), actions[1..]);
    }
  }

  /** From a fresh page, a scan can free a record and the next one decide to shrink while a new client claims it again:
      its live owner is then beyond the count. It takes a page of at least two records, and on every such page it can
      happen. */
  lemma {:induction false} ShrinkCanHideIff(s: State)
    requires Init(s)
    ensures |s.records| >= 2
            <==> exists actions, c, i :: Feasible(s, actions) && OwnsHidden(Run(s, actions), c, i)
  {
    if |s.records| >= 2 {
      LiveOwnerIsHidden(s);
    } else {
      forall actions, c, i | Feasible(s, actions) ensures !OwnsHidden(Run(s, actions), c, i) {
        OneRecordIsSafe(s, actions, c, i);
      }
    }
  }

  lemma {:induction false} LiveOwnerIsHidden(s: State)
    requires Init(s) && |s.records| >= 2
    ensures exists actions, c, i :: Feasible(s, actions) && OwnsHidden(Run(s, actions), c, i)
  {
    hide *;
    var t1, a := FirstIsTaken(s);
    var t2, b := SecondIsTaken(t1, a);
    var t3 := SecondIsFreed(t2, b);
    SecondIsHidden(t3);
    var t4, c :| Reaches(t3, t4) && OwnsHidden(t4, c, 1);
    Then(s, t1, t2);
    Then(s, t2, t3);
    Then(s, t3, t4);
    var actions := RunTo(s, t4);
  }

  lemma {:induction false} OneRecordIsSafe(s: State, actions: seq<Action>, c: nat, i: nat)
    requires Init(s) && Feasible(s, actions) && |s.records| == 1
    ensures !OwnsHidden(Run(s, actions), c, i)
  {
    CountStaysPositive(s, actions);
    InitInv(s);
    SafeInEveryRun(s, actions);
    RecordsStay(s, actions);
    var r := Run(s, actions);
    if LiveOwner(r, c, i) {
      assert ClientOk(r, c);
    }
  }

  lemma {:induction false} RecordsStay(s: State, actions: seq<Action>)
    requires Feasible(s, actions)
    ensures |Run(s, actions).records| == |s.records|
    decreases |actions|
  {
    if actions != [] {
      RecordsStay(Do(s, actions[0]), actions[1..]);
    }
  }
}
