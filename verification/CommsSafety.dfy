/** What every interleaving keeps. */
module CommsSafety {
  import opened CommsProtocol

  // ---------------------------------------------------------------- the invariant

  /** What a client's position says about its record. */
  ghost predicate ClientOk(s: State, c: nat)
    requires c in s.clients
  {
    var p := s.clients[c];
    && c in s.pids && s.pids[c] > 0
    && (Critical(p) <==> s.holder == HeldBy(c))
    && (!p.Failed? && !p.Probing? ==> p.index < |s.records|)
    && (p.WritingPid? ==> s.records[p.index].status == INVALID)
    && (p.WritingStatus? ==> s.records[p.index].status == INVALID && s.records[p.index].pid == s.pids[c])
    && (p.WritingEnd? ==> s.endPos <= p.index)
    && (p.Releasing? ==> p.index < s.endPos)
    && (p.Updating? ==> p.value != INVALID)
    && (Claimed(p) && Live(s, c) ==> HeldRecord(s, c, p.index))
  }

  /** The record carries the client's pid and is marked neither free nor disconnected. */
  predicate HeldRecord(s: State, c: nat, i: nat)
    requires c in s.pids && i < |s.records|
  {
    s.records[i].status != INVALID && !Gone(s.records[i].status) && s.records[i].pid == s.pids[c]
  }

  /** A live owner of record i. */
  predicate LiveOwner(s: State, c: nat, i: nat) {
    c in s.clients && Live(s, c) && Claimed(s.clients[c]) && s.clients[c].index == i
  }

  ghost predicate Unowned(s: State, i: nat) { forall c :: !LiveOwner(s, c, i) }

  /** No two live clients own the same record. */
  ghost predicate Exclusive(s: State) {
    forall c, d, i :: LiveOwner(s, c, i) && LiveOwner(s, d, i) ==> c == d
  }

  ghost predicate MasterOk(s: State) {
    && (HoldsMaster(s.master) <==> s.holder == HeldByMaster)
    && match s.master
       case CheckingPid(rc, id, _, seen) => Busy(s, id) && seen != INVALID && !Gone(seen)
       case CheckingAlive(rc, id, _, seen) => Busy(s, id) && seen != INVALID && !Gone(seen)
       case Marking(rc, id, _, seen) => Busy(s, id) && Unowned(s, id)
       case Freeing(rc, id, _) => Busy(s, id) && Unowned(s, id)
       case Requesting(i) => Busy(s, i)
       case WritingRequest(i, seen) => Busy(s, i) && (Gone(seen) ==> Unowned(s, i))
       case _ => true
  }

  predicate Busy(s: State, i: nat) { i < |s.records| && s.records[i].status != INVALID }

  ghost predicate Framed(s: State) {
    && !Gone(s.flags)
    && 0 < |s.records| && s.endPos <= |s.records|
    && (s.holder.HeldBy? ==> s.holder.client in s.clients)
    && (InScan(s.master) ==> s.master.rc <= |s.records| && s.master.maxRec < |s.records|)
    && s.pids.Keys == s.clients.Keys
  }

  ghost predicate ClientsOk(s: State) {
    forall c :: c in s.clients ==> ClientOk(s, c)
  }

  ghost predicate Inv(s: State) {
    Framed(s) && ClientsOk(s) && Exclusive(s) && MasterOk(s)
  }

  // ---------------------------------------------------------------- status bits

  lemma {:induction false} NamedBits()
    ensures Gone(DISCONNECT) && !Gone(ACTIVE) && !Gone(REQDISCONNECT) && !Gone(INVALID)
    ensures ACTIVE != INVALID && DISCONNECT != INVALID && REQDISCONNECT != INVALID
  {
  }

  // ---------------------------------------------------------------- every step keeps it

  lemma {:induction false} InitInv(s: State)
    requires Init(s)
    ensures Inv(s)
  {
  }

  /** Who owns what can only have shrunk. */
  ghost predicate NoNewOwners(s: State, s': State) {
    forall d, i :: LiveOwner(s', d, i) ==> LiveOwner(s, d, i)
  }

  lemma {:induction false} FewerOwners(s: State, s': State)
    requires NoNewOwners(s, s')
    ensures Exclusive(s) ==> Exclusive(s')
    ensures forall i :: Unowned(s, i) ==> Unowned(s', i)
  {
  }

  // Spawn, crash and touch write no record and leave the master and the semaphore alone.

  lemma {:induction false} SpawnKeeps(s: State, c: nat, pid: nat)
    requires Inv(s) && Can(s, Spawn(c, pid))
    ensures Inv(Do(s, Spawn(c, pid)))
  {
    var s' := Do(s, Spawn(c, pid));
    forall d | d in s'.clients ensures ClientOk(s', d) {
      if d != c {
        assert ClientOk(s, d);
      }
    }
    FewerOwners(s, s');
  }

  lemma {:induction false} CrashKeeps(s: State, pid: nat)
    requires Inv(s)
    ensures Inv(Do(s, Crash(pid)))
  {
    var s' := Do(s, Crash(pid));
    forall d | d in s'.clients ensures ClientOk(s', d) {
      assert ClientOk(s, d);
    }
    FewerOwners(s, s');
  }

  lemma {:induction false} TouchKeeps(s: State, c: nat, bits: bv8, blind: bool)
    requires Inv(s) && Can(s, Touch(c, bits, blind))
    ensures Inv(Do(s, Touch(c, bits, blind)))
  {
    var s' := Do(s, Touch(c, bits, blind));
    hide MasterOk;
    assert ClientOk(s, c);
    forall d | d in s'.clients ensures ClientOk(s', d) {
      assert ClientOk(s, d);
    }
    FewerOwners(s, s');
  }

  // ---------------------------------------------------------------- client steps

  lemma {:induction false} ClientSelf(s: State, c: nat)
    requires Framed(s) && CanAdvance(s, c) && ClientOk(s, c)
    ensures ClientOk(AdvanceClient(s, c), c)
  {
    NamedBits();
  }

  lemma {:induction false} ClientFramed(s: State, c: nat)
    requires Framed(s) && CanAdvance(s, c) && ClientOk(s, c)
    ensures Framed(AdvanceClient(s, c))
  {
  }

  predicate WritesRecord(p: Client) { p.WritingPid? || p.WritingStatus? || p.Updating? }

  lemma {:induction false} ClientOtherQuiet(s: State, c: nat, d: nat)
    requires CanAdvance(s, c) && ClientOk(s, c) && d in s.clients && ClientOk(s, d) && c != d
    requires !WritesRecord(s.clients[c])
    ensures ClientOk(AdvanceClient(s, c), d)
  {
  }

  lemma {:induction false} ClientOtherWrites(s: State, c: nat, d: nat)
    requires CanAdvance(s, c) && ClientOk(s, c) && d in s.clients && ClientOk(s, d) && c != d
    requires WritesRecord(s.clients[c])
    requires forall i :: !(LiveOwner(s, c, i) && LiveOwner(s, d, i))
    ensures ClientOk(AdvanceClient(s, c), d)
  {
    var p, q := s.clients[c], s.clients[d];
    if p.Updating? {
      assert LiveOwner(s, c, p.index);
    }
    if Claimed(q) && Live(s, d) {
      assert LiveOwner(s, d, q.index) && q.index != p.index;
    }
  }

  /** Another client keeps its footing: it does not hold the semaphore if c does, and it does not own the
      record c writes. */
  lemma {:induction false} ClientOther(s: State, c: nat, d: nat)
    requires CanAdvance(s, c) && ClientOk(s, c) && d in s.clients && ClientOk(s, d) && c != d
    requires forall i :: !(LiveOwner(s, c, i) && LiveOwner(s, d, i))
    ensures ClientOk(AdvanceClient(s, c), d)
  {
    if WritesRecord(s.clients[c]) {
      ClientOtherWrites(s, c, d);
    } else {
      ClientOtherQuiet(s, c, d);
    }
  }

  lemma {:induction false} ClientOwners(s: State, c: nat)
    requires CanAdvance(s, c)
    ensures forall d, i :: LiveOwner(AdvanceClient(s, c), d, i) ==>
              LiveOwner(s, d, i) || (d == c && s.clients[c].WritingStatus? && i == s.clients[c].index)
  {
  }

  /** A free record has no live owner. */
  lemma {:induction false} FreeUnowned(s: State, i: nat)
    requires ClientsOk(s) && i < |s.records|
    requires s.records[i].status == INVALID || Gone(s.records[i].status) || s.records[i].pid in s.dead
    ensures Unowned(s, i)
  {
    forall c ensures !LiveOwner(s, c, i) {
      if c in s.clients {
        assert ClientOk(s, c);
      }
    }
  }

  lemma {:induction false} ClientExclusive(s: State, c: nat)
    requires Inv(s) && CanAdvance(s, c)
    ensures Exclusive(AdvanceClient(s, c))
  {
    ClientOwners(s, c);
    assert ClientOk(s, c);
    if s.clients[c].WritingStatus? {
      FreeUnowned(s, s.clients[c].index);
    }
  }

  /** What the master knows of a busy record outlives a client step. */
  lemma {:induction false} ClientBusy(s: State, c: nat, i: nat)
    requires CanAdvance(s, c) && ClientOk(s, c) && Framed(s) && Busy(s, i)
    ensures Busy(AdvanceClient(s, c), i)
    ensures Unowned(s, i) ==> Unowned(AdvanceClient(s, c), i)
  {
    ClientOwners(s, c);
  }

  lemma {:induction false} ClientMaster(s: State, c: nat)
    requires Inv(s) && CanAdvance(s, c)
    ensures MasterOk(AdvanceClient(s, c))
  {
    hide Gone;
    assert ClientOk(s, c);
    var m := s.master;
    if m.CheckingPid? || m.CheckingAlive? || m.Marking? || m.Freeing? {
      ClientBusy(s, c, m.id);
    } else if m.Requesting? || m.WritingRequest? {
      ClientBusy(s, c, m.i);
    }
  }

  lemma {:induction false} ClientStepKeeps(s: State, c: nat)
    requires Inv(s) && CanAdvance(s, c)
    ensures Inv(AdvanceClient(s, c))
  {
    var s' := AdvanceClient(s, c);
    ClientFramed(s, c);
    forall d | d in s'.clients ensures ClientOk(s', d) {
      if d == c {
        ClientSelf(s, c);
      } else {
        assert ClientOk(s, d);
        ClientOther(s, c, d);
      }
    }
    ClientExclusive(s, c);
    ClientMaster(s, c);
  }

  // ---------------------------------------------------------------- master steps

  /** A master step touches neither the clients nor the size of the page, and only shrinks the count. */
  lemma {:induction false} MasterShape(s: State)
    requires CanAdvanceMaster(s)
    ensures var s' := AdvanceTheMaster(s);
            && s'.clients == s.clients && s'.pids == s.pids && s'.flags == s.flags && |s'.records| == |s.records|
            && s'.endPos == (if s.master.Shrinking? then s.master.maxRec + 1 else s.endPos)
            && (s'.holder == s.holder || !s'.holder.HeldBy?)
  {
    hide Gone;
    match s.master
    case Scanning(rc, id, _) => assert id < rc ==> id < |s.records|;
    case _ =>
  }

  lemma {:induction false} MasterScans(s: State)
    requires CanAdvanceMaster(s)
    requires InScan(s.master) ==> s.master.rc <= |s.records| && s.master.maxRec < |s.records|
    ensures var m := AdvanceTheMaster(s).master;
            InScan(m) ==> m.rc <= |s.records| && m.maxRec < |s.records|
  {
    hide Gone, SetStatus;
    match s.master
    case Scanning(rc, id, _) => assert id < rc ==> id < |s.records|;
    case _ =>
  }

  lemma {:induction false} MasterFramed(s: State)
    requires Framed(s) && CanAdvanceMaster(s)
    ensures Framed(AdvanceTheMaster(s))
  {
    hide AdvanceTheMaster, Gone;
    MasterShape(s);
    MasterScans(s);
  }

  predicate WritesStatus(m: Master) { m.Marking? || m.Freeing? || m.WritingRequest? }

  lemma {:induction false} MasterClientQuiet(s: State, d: nat)
    requires MasterOk(s) && CanAdvanceMaster(s) && d in s.clients && ClientOk(s, d)
    requires !WritesStatus(s.master)
    ensures ClientOk(AdvanceTheMaster(s), d)
  {
    hide Gone, Unowned, Busy, LiveOwner;
    assert AdvanceTheMaster(s).records == s.records && AdvanceTheMaster(s).clients == s.clients;
  }

  lemma {:induction false} MarkingClient(s: State, d: nat)
    requires MasterOk(s) && s.master.Marking? && d in s.clients && ClientOk(s, d)
    ensures CanAdvanceMaster(s) && ClientOk(AdvanceTheMaster(s), d)
  {
    var m := s.master;
    assert !LiveOwner(s, d, m.id);
  }

  lemma {:induction false} FreeingClient(s: State, d: nat)
    requires MasterOk(s) && s.master.Freeing? && d in s.clients && ClientOk(s, d)
    ensures CanAdvanceMaster(s) && ClientOk(AdvanceTheMaster(s), d)
  {
    var m := s.master;
    assert !LiveOwner(s, d, m.id);
  }

  lemma {:induction false} RequestClient(s: State, d: nat)
    requires MasterOk(s) && s.master.WritingRequest? && d in s.clients && ClientOk(s, d)
    ensures CanAdvanceMaster(s) && ClientOk(AdvanceTheMaster(s), d)
  {
    var m := s.master;
    NamedBits();
    assert Unowned(s, m.i) ==> !LiveOwner(s, d, m.i);
  }

  /** A client outlives a master step: a status is written only where no live client owns, or without the
      disconnect bit. */
  lemma {:induction false} MasterClient(s: State, d: nat)
    requires MasterOk(s) && CanAdvanceMaster(s) && d in s.clients && ClientOk(s, d)
    ensures ClientOk(AdvanceTheMaster(s), d)
  {
    if s.master.Marking? {
      MarkingClient(s, d);
    } else if s.master.Freeing? {
      FreeingClient(s, d);
    } else if s.master.WritingRequest? {
      RequestClient(s, d);
    } else {
      MasterClientQuiet(s, d);
    }
  }

  lemma {:induction false} MasterOwners(s: State)
    requires CanAdvanceMaster(s)
    ensures forall d, i :: LiveOwner(AdvanceTheMaster(s), d, i) <==> LiveOwner(s, d, i)
  {
  }

  lemma {:induction false} MasterMaster(s: State)
    requires Inv(s) && CanAdvanceMaster(s)
    ensures MasterOk(AdvanceTheMaster(s))
  {
    hide Gone, ClientOk, ClientsOk, Exclusive, LiveOwner;
    MasterOwners(s);
    FewerOwners(s, AdvanceTheMaster(s));
    match s.master
    case Scanning(rc, id, _) => if id < rc && Gone(s.records[id].status) { FreeUnowned(s, id); }
    case CheckingAlive(_, id, _, _) => if s.records[id].pid in s.dead { FreeUnowned(s, id); }
    case Requesting(i) => if Gone(s.records[i].status) { FreeUnowned(s, i); }
    case _ =>
  }

  lemma {:induction false} MasterStepKeeps(s: State)
    requires Inv(s) && CanAdvanceMaster(s)
    ensures Inv(AdvanceTheMaster(s))
  {
    var s' := AdvanceTheMaster(s);
    MasterFramed(s);
    forall d | d in s'.clients ensures ClientOk(s', d) {
      assert ClientOk(s, d);
      MasterClient(s, d);
    }
    MasterOwners(s);
    MasterMaster(s);
  }

  lemma {:induction false} StartKeeps(s: State, m: Master, late: set<nat>)
    requires Inv(s) && s.master.Idle? && (m == Scanning(s.endPos, 0, 0) || m == Finishing(0))
    ensures Inv(s.(master := m, late := late))
  {
    var s' := s.(master := m, late := late);
    forall d | d in s'.clients ensures ClientOk(s', d) {
      assert ClientOk(s, d);
    }
    FewerOwners(s, s');
  }

  // ---------------------------------------------------------------- every run keeps it

  lemma {:induction false} StepKeepsInv(s: State, a: Action)
    requires Inv(s) && Can(s, a)
    ensures Inv(Do(s, a))
  {
    match a
    case Spawn(c, pid) => SpawnKeeps(s, c, pid);
    case Advance(c) => ClientStepKeeps(s, c);
    case Touch(c, bits, blind) => TouchKeeps(s, c, bits, blind);
    case Crash(pid) => CrashKeeps(s, pid);
    case StartScan => StartKeeps(s, Scanning(s.endPos, 0, 0), {});
    case StartFinish => StartKeeps(s, Finishing(0), s.late);
    case AdvanceMaster => MasterStepKeeps(s);
  }

  /** In every interleaving from a fresh page: no record has two live owners, and the record of a live
      owner that has not disconnected carries its pid and is neither free nor marked disconnected. */
  lemma {:induction false} SafeInEveryRun(s: State, actions: seq<Action>)
    requires Inv(s) && Feasible(s, actions)
    ensures Inv(Run(s, actions))
    decreases |actions|
  {
    if actions != [] {
      StepKeepsInv(s, actions[0]);
      SafeInEveryRun(Do(s, actions[0]), actions[1..]);
    }
  }

  lemma {:induction false} OwnersAreSafe(s: State, actions: seq<Action>, c: nat, d: nat, i: nat)
    requires Init(s) && Feasible(s, actions) && LiveOwner(Run(s, actions), c, i)
    ensures i < |Run(s, actions).records| && HeldRecord(Run(s, actions), c, i)
    ensures LiveOwner(Run(s, actions), d, i) ==> c == d
  {
    InitInv(s);
    SafeInEveryRun(s, actions);
    assert ClientOk(Run(s, actions), c);
  }

  /** The scan leaves the record of a live owner exactly as it is. */
  lemma {:induction false} ScanSparesOwners(s: State, c: nat, i: nat)
    requires Inv(s) && CanAdvanceMaster(s) && InScan(s.master) && LiveOwner(s, c, i)
    ensures i < |s.records| && AdvanceTheMaster(s).records[i] == s.records[i]
  {
    assert ClientOk(s, c);
    if s.master.Marking? || s.master.Freeing? {
      assert !LiveOwner(s, c, s.master.id);
    }
  }
}
