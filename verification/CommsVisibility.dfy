/** When the master's shrink of the record count can and cannot cut off a record in use. */
module CommsVisibility {
  import opened CommsProtocol
  import opened CommsSafety

  /** The semaphore holder has published a claim on record i but not yet raised the count. */
  predicate Publishing(s: State, i: nat) {
    && s.holder.HeldBy? && s.holder.client in s.clients
    && var p := s.clients[s.holder.client];
       (p.ReadingEnd? || p.WritingEnd?) && p.index == i
  }

  predicate Accounted(s: State, i: nat) {
    Busy(s, i) ==> i < s.endPos || i in s.cut || Publishing(s, i)
  }

  /** How far the scan has got. */
  function Progress(m: Master): nat
    requires InScan(m)
  {
    if m.WantingShrink? || m.CheckingEnd? || m.Shrinking? then m.rc else m.id
  }

  /** The scan has seen everything in use behind it, except what was claimed behind its back. */
  predicate Seen(s: State, i: nat)
    requires InScan(s.master)
  {
    i < Progress(s.master) && i < s.master.rc && Busy(s, i) ==> i <= s.master.maxRec || i in s.late
  }

  ghost predicate VisInv(s: State) {
    && Inv(s)
    && (forall i :: Accounted(s, i))
    && (InScan(s.master) ==> forall i :: Seen(s, i))
    && CountKept(s)
  }

  /** While the master scans, the count does not fall below what it read; and what was cut off is beyond the count. */
  ghost predicate CountKept(s: State) {
    && (InScan(s.master) ==> s.master.rc <= s.endPos)
    && (s.master.WantingShrink? || s.master.CheckingEnd? || s.master.Shrinking? ==> s.master.maxRec < s.master.rc)
    && (s.master.Shrinking? ==> s.endPos <= s.master.rc)
    && (forall i: nat :: i in s.cut ==> s.endPos <= i)
  }

  lemma {:induction false} ClientCount(s: State, c: nat)
    requires Inv(s) && CanAdvance(s, c) && CountKept(s)
    ensures CountKept(AdvanceClient(s, c))
  {
    assert ClientOk(s, c);
  }

  lemma {:induction false} ClientAccounted(s: State, c: nat, i: nat)
    requires Inv(s) && CanAdvance(s, c) && Accounted(s, i)
    ensures Accounted(AdvanceClient(s, c), i)
  {
    assert ClientOk(s, c);
    if s.holder.HeldBy? {
      assert ClientOk(s, s.holder.client);
    }
  }

  lemma {:induction false} ClientSeen(s: State, c: nat, i: nat)
    requires Inv(s) && CanAdvance(s, c) && InScan(s.master) && Seen(s, i)
    ensures Seen(AdvanceClient(s, c), i)
  {
    assert ClientOk(s, c);
  }

  lemma {:induction false} ClientVisible(s: State, c: nat)
    requires VisInv(s) && CanAdvance(s, c)
    ensures VisInv(AdvanceClient(s, c))
  {
    hide CountKept;
    var s' := AdvanceClient(s, c);
    ClientStepKeeps(s, c);
    ClientCount(s, c);
    forall i ensures Accounted(s', i) {
      ClientAccounted(s, c, i);
    }
    if InScan(s.master) {
      forall i ensures Seen(s', i) {
        ClientSeen(s, c, i);
      }
    }
    assert ClientOk(s, c);
  }

  lemma {:induction false} MasterBusy(s: State, i: nat)
    requires MasterOk(s) && CanAdvanceMaster(s) && Busy(AdvanceTheMaster(s), i)
    ensures Busy(s, i)
  {
    hide Gone, Unowned;
  }

  lemma {:induction false} MasterPublishing(s: State, i: nat)
    requires MasterOk(s) && CanAdvanceMaster(s) && Publishing(s, i)
    ensures Publishing(AdvanceTheMaster(s), i)
  {
    hide Gone, Unowned, Busy;
    match s.master
    case Scanning(rc, id, _) => assert id < rc ==> id < |s.records|;
    case _ =>
  }

  lemma {:induction false} MasterCut(s: State)
    requires CanAdvanceMaster(s)
    ensures var s' := AdvanceTheMaster(s);
            s'.cut == if s.master.Shrinking? then s.cut + set i | i in s.late && i > s.master.maxRec else s.cut
  {
    hide Gone;
    match s.master
    case Scanning(rc, id, _) => assert id < rc ==> id < |s.records|;
    case _ =>
  }

  /** The count a scan read stays with it to the shrink. */
  lemma {:induction false} MasterScanCount(s: State)
    requires CanAdvanceMaster(s)
    requires s.master.WantingShrink? || s.master.CheckingEnd? || s.master.Shrinking? ==> s.master.maxRec < s.master.rc
    ensures var m, m' := s.master, AdvanceTheMaster(s).master;
            && (InScan(m') ==> InScan(m) && m'.rc == m.rc)
            && (m'.WantingShrink? || m'.CheckingEnd? || m'.Shrinking? ==> m'.maxRec < m'.rc)
            && (m'.Shrinking? ==> s.endPos <= m'.rc) && (m.Shrinking? ==> !InScan(m'))
  {
    hide Gone, SetStatus;
    match s.master
    case Scanning(rc, id, _) => assert id < rc ==> id < |s.records|;
    case _ =>
  }

  lemma {:induction false} MasterCount(s: State)
    requires CanAdvanceMaster(s) && CountKept(s)
    ensures CountKept(AdvanceTheMaster(s))
  {
    hide Gone, AdvanceTheMaster;
    MasterShape(s);
    MasterCut(s);
    MasterScanCount(s);
  }

  lemma {:induction false} MasterAccounted(s: State, i: nat)
    requires VisInv(s) && CanAdvanceMaster(s)
    ensures Accounted(AdvanceTheMaster(s), i)
  {
    hide Gone, AdvanceTheMaster, Busy, ClientsOk, Exclusive, Framed;
    var s' := AdvanceTheMaster(s);
    if Busy(s', i) {
      MasterBusy(s, i);
      MasterShape(s);
      MasterCut(s);
      assert Accounted(s, i);
      if Publishing(s, i) {
        MasterPublishing(s, i);
      }
      if s.master.Shrinking? {
        assert Seen(s, i);
      }
    }
  }

  lemma {:induction false} ScanStepSeen(s: State, i: nat)
    requires s.master.Scanning? && CanAdvanceMaster(s) && Seen(s, i) && InScan(AdvanceTheMaster(s).master)
    ensures Seen(AdvanceTheMaster(s), i)
  {
  }

  /** Everything up to a record the scan has handled counts as seen. */
  lemma {:induction false} RecordStepSeen(s: State, i: nat)
    requires s.master.CheckingPid? || s.master.CheckingAlive? || s.master.Marking? || s.master.Freeing?
    requires CanAdvanceMaster(s) && Seen(s, i)
    ensures InScan(AdvanceTheMaster(s).master) && Seen(AdvanceTheMaster(s), i)
  {
  }

  lemma {:induction false} MasterSeen(s: State, i: nat)
    requires CanAdvanceMaster(s) && InScan(s.master) && InScan(AdvanceTheMaster(s).master) && Seen(s, i)
    ensures Seen(AdvanceTheMaster(s), i)
  {
    if s.master.Scanning? {
      ScanStepSeen(s, i);
    } else if s.master.CheckingPid? || s.master.CheckingAlive? || s.master.Marking? || s.master.Freeing? {
      RecordStepSeen(s, i);
    }
  }

  lemma {:induction false} MasterVisible(s: State)
    requires VisInv(s) && CanAdvanceMaster(s)
    ensures VisInv(AdvanceTheMaster(s))
  {
    hide CountKept;
    var s' := AdvanceTheMaster(s);
    MasterStepKeeps(s);
    MasterCount(s);
    forall i ensures Accounted(s', i) {
      MasterAccounted(s, i);
    }
    if InScan(s'.master) {
      assert InScan(s.master);
      forall i ensures Seen(s', i) {
        assert Seen(s, i);
        MasterSeen(s, i);
      }
    }
  }

  lemma {:induction false} StepVisible(s: State, a: Action)
    requires VisInv(s) && Can(s, a)
    ensures VisInv(Do(s, a))
  {
    var s' := Do(s, a);
    StepKeepsInv(s, a);
    match a
    case Advance(c) => ClientVisible(s, c);
    case AdvanceMaster => MasterVisible(s);
    case Spawn(_, _) => SameVisibility(s, s');
    case Touch(c, _, _) => assert ClientOk(s, c); SameVisibility(s, s');
    case Crash(_) => SameVisibility(s, s');
    case StartScan =>
      forall i ensures Accounted(s', i) { assert Accounted(s, i); }
    case StartFinish =>
      forall i ensures Accounted(s', i) { assert Accounted(s, i); }
  }

  /** Steps that touch neither the page nor the semaphore holder. */
  lemma {:induction false} SameVisibility(s: State, s': State)
    requires VisInv(s) && s'.records == s.records && s'.endPos == s.endPos && s'.holder == s.holder
    requires s'.master == s.master && s'.late == s.late && s'.cut == s.cut
    requires s.holder.HeldBy? ==> s.holder.client in s.clients && s.holder.client in s'.clients
                                  && s'.clients[s.holder.client] == s.clients[s.holder.client]
    ensures forall i :: Accounted(s', i)
    ensures InScan(s'.master) ==> forall i :: Seen(s', i)
    ensures CountKept(s')
  {
    forall i ensures Accounted(s', i) {
      assert Accounted(s, i);
    }
    if InScan(s.master) {
      forall i ensures Seen(s', i) {
        assert Seen(s, i);
      }
    }
  }

  lemma {:induction false} VisibleInEveryRun(s: State, actions: seq<Action>)
    requires VisInv(s) && Feasible(s, actions)
    ensures VisInv(Run(s, actions))
    decreases |actions|
  {
    if actions != [] {
      StepVisible(s, actions[0]);
      VisibleInEveryRun(Do(s, actions[0]), actions[1..]);
    }
  }

  // ---------------------------------------------------------------- what a shrink can cut off

  /** Every record in use is below the count, or about to raise it. */
  ghost predicate AllVisible(s: State) {
    forall i: nat :: Busy(s, i) ==> i < s.endPos || Publishing(s, i)
  }

  /** A shrink never hides a record at or above the count its scan read: by the time it happens under the
      semaphore, whatever is in use there has been hidden since an earlier shrink. */
  lemma {:induction false} ShrinkSparesNewRecords(s: State, i: nat)
    requires VisInv(s) && s.master.Shrinking? && s.master.rc <= i && Busy(s, i)
    ensures i in s.cut && i >= s.endPos
  {
    assert Accounted(s, i);
  }

  /** A shrink hides nothing more exactly when nothing between the last record the scan saw in use and the count it
      read has come into use. */
  lemma {:induction false} ShrinkVisibleIff(s: State)
    requires VisInv(s) && s.master.Shrinking?
    ensures (forall i: nat :: Busy(s, i) && i !in s.cut ==> i < AdvanceTheMaster(s).endPos)
            <==> forall i: nat :: s.master.maxRec < i < s.master.rc && Busy(s, i) ==> i in s.cut
  {
    forall i: nat | Busy(s, i) && i !in s.cut ensures i < s.master.rc {
      assert Accounted(s, i);
    }
  }

  /** Nothing is claimed below the count of a running scan. */
  ghost predicate NoLateClaims(s: State, actions: seq<Action>)
    requires Feasible(s, actions)
    decreases |actions|
  {
    s.late == {} && (actions != [] ==> NoLateClaims(Do(s, actions[0]), actions[1..]))
  }

  lemma {:induction false} NothingCut(s: State, actions: seq<Action>)
    requires Feasible(s, actions) && NoLateClaims(s, actions) && s.cut == {}
    ensures Run(s, actions).cut == {}
    decreases |actions|
  {
    if actions != [] {
      NothingCut(Do(s, actions[0]), actions[1..]);
    }
  }

  /** In every run in which no record below a running scan's count is claimed, every record in use stays
      below the count. */
  lemma {:induction false} StaysVisible(s: State, actions: seq<Action>)
    requires Init(s) && Feasible(s, actions) && NoLateClaims(s, actions)
    ensures AllVisible(Run(s, actions))
  {
    VisibleInEveryRun(s, actions);
    NothingCut(s, actions);
    var r := Run(s, actions);
    forall i: nat | Busy(r, i) ensures i < r.endPos || Publishing(r, i) {
      assert Accounted(r, i);
    }
  }
}
