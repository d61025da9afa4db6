/** What each protocol does when nobody interferes: step by step it is the operation it is meant to be. */
module CommsAlone {
  import opened CommsProtocol
  import opened CommsSafety
  import opened CommsPage

  /** n times the same action leads from s to t. */
  predicate StepsTo(s: State, a: Action, n: nat, t: State)
    decreases n
  {
    if n == 0 then s == t else Can(s, a) && StepsTo(Do(s, a), a, n - 1, t)
  }

  /** Repeating one action leads from s to t. */
  ghost predicate Alone(s: State, a: Action, t: State) { exists n: nat :: StepsTo(s, a, n, t) }

  function Repeat(a: Action, n: nat): (r: seq<Action>)
    ensures |r| == n
  {
    seq(n, _ => a)
  }

  /** Such repetitions are among the runs of the other theorems. */
  lemma {:induction false} RepeatRuns(s: State, a: Action, n: nat, t: State)
    requires StepsTo(s, a, n, t)
    ensures Feasible(s, Repeat(a, n)) && Run(s, Repeat(a, n)) == t
    decreases n
  {
    hide Can, Do;
    if n > 0 {
      RepeatRuns(Do(s, a), a, n - 1, t);
      assert Repeat(a, n)[1..] == Repeat(a, n - 1);
    }
  }

  lemma {:induction false} StepsJoin(s: State, a: Action, m: nat, t: State, n: nat, u: State)
    requires StepsTo(s, a, m, t) && StepsTo(t, a, n, u)
    ensures StepsTo(s, a, m + n, u)
    decreases m
  {
    hide Can, Do;
    if m > 0 {
      StepsJoin(Do(s, a), a, m - 1, t, n, u);
    }
  }

  lemma {:induction false} Then(s: State, a: Action, t: State, u: State)
    requires Alone(s, a, t) && Alone(t, a, u)
    ensures Alone(s, a, u)
  {
    hide StepsTo;
    var m: nat :| StepsTo(s, a, m, t);
    var n: nat :| StepsTo(t, a, n, u);
    StepsJoin(s, a, m, t, n, u);
  }

  lemma {:induction false} Step(s: State, a: Action)
    requires Can(s, a)
    ensures Alone(s, a, Do(s, a))
  {
    hide Can, Do;
    assert StepsTo(Do(s, a), a, 0, Do(s, a));
    assert StepsTo(s, a, 1, Do(s, a));
  }

  lemma {:induction false} Stay(s: State, a: Action)
    ensures Alone(s, a, s)
  {
    assert StepsTo(s, a, 0, s);
  }

  // ---------------------------------------------------------------- the scan

  /** The scan at record id, as it passes to the next one. */
  function PastRecord(s: State): State
    requires s.master.Scanning? && s.master.id < |s.records|
  {
    var m := s.master;
    s.(records := s.records[m.id := Scanned(s.records[m.id], s.dead)],
       master := Scanning(m.rc, m.id + 1, if s.records[m.id].status == INVALID then m.maxRec else m.id))
  }

  lemma {:induction false} RecordAlone(s: State)
    requires s.master.Scanning? && s.master.id < s.master.rc <= |s.records|
    ensures Alone(s, AdvanceMaster, PastRecord(s))
  {
    hide Alone, Gone;
    var m := s.master;
    var r := s.records[m.id];
    var a := Do(s, AdvanceMaster);
    Step(s, AdvanceMaster);
    if r.status == INVALID {
      assert PastRecord(s) == a;
    } else if Gone(r.status) {
      Step(a, AdvanceMaster);
      assert Do(a, AdvanceMaster) == PastRecord(s);
      Then(s, AdvanceMaster, a, PastRecord(s));
    } else {
      LivingAlone(s);
    }
  }

  /** A record in use is asked for its process, and marked if that is dead. */
  lemma {:induction false} LivingAlone(s: State)
    requires s.master.Scanning? && s.master.id < s.master.rc <= |s.records|
    requires s.records[s.master.id].status != INVALID && !Gone(s.records[s.master.id].status)
    ensures Alone(s, AdvanceMaster, PastRecord(s))
  {
    hide Alone, Gone;
    var m := s.master;
    var r := s.records[m.id];
    var a := Do(s, AdvanceMaster);
    Step(s, AdvanceMaster);
    var b := Do(a, AdvanceMaster);
    Step(a, AdvanceMaster);
    Then(s, AdvanceMaster, a, b);
    if r.pid > 0 {
      var c := Do(b, AdvanceMaster);
      Step(b, AdvanceMaster);
      Then(s, AdvanceMaster, b, c);
      if r.pid in s.dead {
        Step(c, AdvanceMaster);
        Then(s, AdvanceMaster, c, Do(c, AdvanceMaster));
        assert Do(c, AdvanceMaster) == PastRecord(s);
      } else {
        assert c == PastRecord(s);
      }
    } else {
      assert b == PastRecord(s);
    }
  }

  function ScannedBelow(rs: seq<Record>, dead: set<nat>, k: nat): (r: seq<Record>)
    ensures |r| == |rs|
  {
    seq(|rs|, i requires 0 <= i < |rs| => if i < k then Scanned(rs[i], dead) else rs[i])
  }

  /** The scan has handled the records below k. */
  function ScanAt(s: State, k: nat): State
    requires k <= |s.records|
  {
    s.(records := ScannedBelow(s.records, s.dead, k), master := Scanning(s.endPos, k, LastUsed(s.records, k)), late := {})
  }

  lemma {:induction false} ScanTo(s: State, k: nat)
    requires k <= s.endPos <= |s.records|
    ensures Alone(ScanAt(s, 0), AdvanceMaster, ScanAt(s, k))
  {
    hide Alone, Scanned;
    if k == 0 {
      Stay(ScanAt(s, 0), AdvanceMaster);
    } else {
      ScanTo(s, k - 1);
      var t := ScanAt(s, k - 1);
      RecordAlone(t);
      assert t.records[k - 1 := Scanned(s.records[k - 1], s.dead)] == ScannedBelow(s.records, s.dead, k);
      assert PastRecord(t) == ScanAt(s, k);
      Then(ScanAt(s, 0), AdvanceMaster, t, PastRecord(t));
    }
  }

  /** The page and the master after an undisturbed scan. */
  function AfterScan(s: State): State {
    var last := LastUsed(s.records, if s.endPos <= |s.records| then s.endPos else |s.records|);
    s.(records := ScannedBelow(s.records, s.dead, s.endPos), endPos := if last + 1 < s.endPos then last + 1 else s.endPos,
       late := {})
  }

  lemma {:induction false} ScanEnds(s: State)
    requires s.master.Idle? && s.holder == Nobody && s.endPos <= |s.records|
    ensures Alone(ScanAt(s, s.endPos), AdvanceMaster, AfterScan(s))
  {
    hide Alone, LastUsed, ScannedBelow;
    var t := ScanAt(s, s.endPos);
    var a := Do(t, AdvanceMaster);
    Step(t, AdvanceMaster);
    if a.master.WantingShrink? {
      ShrinkAlone(a);
      Then(t, AdvanceMaster, a, AfterScan(s));
    } else {
      assert a == AfterScan(s);
    }
  }

  lemma {:induction false} ShrinkAlone(s: State)
    requires s.master.WantingShrink? && s.holder == Nobody && s.late == {} && s.endPos == s.master.rc
    ensures Alone(s, AdvanceMaster, s.(endPos := s.master.maxRec + 1, master := Idle))
  {
    hide Alone;
    var a := Do(s, AdvanceMaster);
    Step(s, AdvanceMaster);
    var b := Do(a, AdvanceMaster);
    Step(a, AdvanceMaster);
    Then(s, AdvanceMaster, a, b);
    var c := Do(b, AdvanceMaster);
    Step(b, AdvanceMaster);
    Then(s, AdvanceMaster, b, c);
    assert c.cut == s.cut;
    Step(c, AdvanceMaster);
    Then(s, AdvanceMaster, c, Do(c, AdvanceMaster));
    assert Do(c, AdvanceMaster) == s.(endPos := s.master.maxRec + 1, master := Idle);
  }

  /** A scan nobody interferes with ends, and is COMM_LOOP: below the count it frees what was marked and marks what
      belongs to a dead process, it leaves everything else alone, and it shrinks the count to the last record in use. */
  lemma {:induction false} ScanAlone(s: State) returns (t: State)
    requires Inv(s) && s.master.Idle? && s.holder == Nobody
    ensures Can(s, StartScan) && Alone(Do(s, StartScan), AdvanceMaster, t) && t.master.Idle? && !Can(t, AdvanceMaster)
    ensures |t.records| == |s.records| && s.endPos <= |s.records|
    ensures forall i :: 0 <= i < |s.records| ==>
              t.records[i] == if i < s.endPos then Scanned(s.records[i], s.dead) else s.records[i]
    ensures var last := LastUsed(s.records, s.endPos); t.endPos == if last + 1 < s.endPos then last + 1 else s.endPos
    ensures t == s.(records := t.records, endPos := t.endPos, late := {})
  {
    hide Alone, Scanned, ClientsOk, Exclusive, MasterOk;
    assert ScannedBelow(s.records, s.dead, 0) == s.records;
    assert Do(s, StartScan) == ScanAt(s, 0);
    ScanTo(s, s.endPos);
    ScanEnds(s);
    Then(ScanAt(s, 0), AdvanceMaster, ScanAt(s, s.endPos), AfterScan(s));
    t := AfterScan(s);
  }

  /** In plain numbers: a status with the disconnect bit 0x20 becomes 0, one in use by a dead process gets the bit. */
  lemma {:induction false} ScannedIs(r: Record, dead: set<nat>)
    ensures Scanned(r, dead).pid == r.pid
    ensures Scanned(r, dead).status == if r.status & 0x20 != 0 then 0
                                       else if r.status != 0 && r.pid > 0 && r.pid in dead then 0x20 | r.status
                                       else r.status
  {
    assert r.status == 0 ==> r.status & 0x20 == 0;
  }

  /** Two scans free the record of a process that has died. */
  lemma {:induction false} DeadIsFreed(s: State, i: nat) returns (t: State, u: State)
    requires Inv(s) && s.master.Idle? && s.holder == Nobody && i < s.endPos
    ensures Alone(s.(master := Scanning(s.endPos, 0, 0), late := {}), AdvanceMaster, t) && t.master.Idle?
    ensures Alone(t.(master := Scanning(t.endPos, 0, 0), late := {}), AdvanceMaster, u) && u.master.Idle?
    ensures i < |s.records| == |u.records|
    ensures s.records[i].pid > 0 && s.records[i].pid in s.dead ==> u.records[i].status == 0
  {
    hide Alone, Scanned;
    t := ScanAlone(s);
    AloneKeepsInv(s, t);
    u := ScanAlone(t);
    var r := s.records[i];
    TwoScansFree(r, s.dead);
    if i >= t.endPos && Scanned(r, s.dead).status != INVALID {
      ScanKeepsVisible(s.records, s.endPos, s.dead, i);
    }
  }

  lemma {:induction false} AloneKeepsInv(s: State, t: State)
    requires Inv(s) && Can(s, StartScan) && Alone(Do(s, StartScan), AdvanceMaster, t)
    ensures Inv(t)
  {
    hide StepsTo, Inv, Can, Do;
    StepKeepsInv(s, StartScan);
    var n: nat :| StepsTo(Do(s, StartScan), AdvanceMaster, n, t);
    RepeatRuns(Do(s, StartScan), AdvanceMaster, n, t);
    SafeInEveryRun(Do(s, StartScan), Repeat(AdvanceMaster, n));
  }

  // ---------------------------------------------------------------- the claim

  /** The records from j to k are in use. */
  predicate InUse(rs: seq<Record>, j: nat, k: nat) {
    forall i :: j <= i < k && i < |rs| ==> rs[i].status != 0
  }

  lemma {:induction false} ProbesTo(s: State, c: nat, j: nat, k: nat)
    requires c in s.clients && Live(s, c) && s.clients[c] == Probing(j) && j <= k <= |s.records| && InUse(s.records, j, k)
    ensures Alone(s, Advance(c), SetClient(s, c, Probing(k)))
    decreases k
  {
    hide Alone, Live;
    if k == j {
      assert SetClient(s, c, Probing(j)) == s;
      Stay(s, Advance(c));
    } else {
      ProbesTo(s, c, j, k - 1);
      var t := SetClient(s, c, Probing(k - 1));
      SameLife(s, t, c);
      Step(t, Advance(c));
      assert Do(t, Advance(c)) == SetClient(s, c, Probing(k));
      Then(s, Advance(c), t, Do(t, Advance(c)));
    }
  }

  lemma {:induction false} SameLife(s: State, t: State, c: nat)
    requires Live(s, c) && t.pids == s.pids && t.dead == s.dead
    ensures Live(t, c)
  {
  }

  /** From a free record on: the semaphore, the second look, the process number, then the status. */
  lemma {:induction false} PublishesAlone(s: State, c: nat, i: nat)
    requires c in s.clients && Live(s, c) && s.clients[c] == Waiting(i) && s.holder == Nobody
    requires i < |s.records| && s.records[i].status == 0
    ensures var rs := s.records[i := Record(0x01 | s.flags, s.pids[c])];
            exists late :: Alone(s, Advance(c), SetClient(s, c, ReadingEnd(i)).(records := rs, holder := HeldBy(c), late := late))
  {
    hide Alone, Live, InScan;
    var p := Advance(c);
    var a := Do(s, p);
    Step(s, p);
    SameLife(s, a, c);
    var b := Do(a, p);
    Step(a, p);
    Then(s, p, a, b);
    SameLife(s, b, c);
    var d := Do(b, p);
    Step(b, p);
    Then(s, p, b, d);
    SameLife(s, d, c);
    var e := Do(d, p);
    Step(d, p);
    Then(s, p, d, e);
    var rs := s.records[i := Record(0x01 | s.flags, s.pids[c])];
    assert e == SetClient(s, c, ReadingEnd(i)).(records := rs, holder := HeldBy(c), late := e.late);
  }

  /** Then the count, and the semaphore is let go. */
  lemma {:induction false} CountsAlone(s: State, c: nat, i: nat) returns (t: State)
    requires c in s.clients && Live(s, c) && s.clients[c] == ReadingEnd(i) && i < |s.records|
    ensures Alone(s, Advance(c), t)
    ensures t == SetClient(s, c, Owning(i)).(endPos := if s.endPos <= i then i + 1 else s.endPos, holder := Nobody, cut := t.cut)
  {
    hide Alone, Live;
    var p := Advance(c);
    var a := Do(s, p);
    Step(s, p);
    SameLife(s, a, c);
    var b := Do(a, p);
    Step(a, p);
    Then(s, p, a, b);
    SameLife(s, b, c);
    t := b;
    if s.endPos <= i {
      t := Do(b, p);
      Step(b, p);
      Then(s, p, b, t);
    }
  }

  lemma {:induction false} TakesAlone(s: State, c: nat, i: nat) returns (t: State)
    requires c in s.clients && Live(s, c) && s.clients[c] == Waiting(i) && s.holder == Nobody
    requires i < |s.records| && s.records[i].status == 0
    ensures Alone(s, Advance(c), t)
    ensures t == SetClient(s, c, Owning(i)).(records := s.records[i := Record(0x01 | s.flags, s.pids[c])], late := t.late,
                                             cut := t.cut, endPos := if s.endPos <= i then i + 1 else s.endPos)
  {
    var rs := s.records[i := Record(0x01 | s.flags, s.pids[c])];
    hide Alone, Live;
    PublishesAlone(s, c, i);
    var late :| Alone(s, Advance(c), SetClient(s, c, ReadingEnd(i)).(records := rs, holder := HeldBy(c), late := late));
    var b := SetClient(s, c, ReadingEnd(i)).(records := rs, holder := HeldBy(c), late := late);
    SameLife(s, b, c);
    t := CountsAlone(b, c, i);
    Then(s, Advance(c), b, t);
  }

  /** A record that was taken meanwhile is passed over, and the semaphore let go. */
  lemma {:induction false} PassesAlone(s: State, c: nat, i: nat)
    requires c in s.clients && Live(s, c) && s.clients[c] == Waiting(i) && s.holder == Nobody
    requires i < |s.records| && s.records[i].status != 0
    ensures Alone(s, Advance(c), SetClient(s, c, Probing(i + 1)))
  {
    hide Alone, Live;
    var p := Advance(c);
    var a := Do(s, p);
    Step(s, p);
    SameLife(s, a, c);
    var b := Do(a, p);
    Step(a, p);
    Then(s, p, a, b);
    SameLife(s, b, c);
    Step(b, p);
    Then(s, p, b, Do(b, p));
    assert Do(b, p) == SetClient(s, c, Probing(i + 1));
  }

  lemma {:induction false} FailsAlone(s: State, c: nat, k: nat)
    requires c in s.clients && Live(s, c) && s.clients[c] == Probing(k) && k >= |s.records|
    ensures Alone(s, Advance(c), SetClient(s, c, Failed))
  {
    hide Alone;
    Step(s, Advance(c));
  }

  /** What a claim looking at record j comes to: the first free record from there on, with the client's process number
      and the active bit 0x01 next to the common flags, the count raised over it, and the semaphore free. */
  predicate Claims(s: State, c: nat, j: nat, i: nat, t: State)
    requires c in s.clients && c in s.pids
  {
    && j <= i && InUse(s.records, j, i)
    && (i < |s.records| ==>
          && s.records[i].status == 0 && |t.records| == |s.records|
          && t.records == s.records[i := Record(0x01 | s.flags, s.pids[c])]
          && t == SetClient(s, c, Owning(i)).(records := t.records, late := t.late, cut := t.cut,
                                              endPos := if s.endPos <= i then i + 1 else s.endPos))
    && (i >= |s.records| ==> t == SetClient(s, c, Failed))
  }

  lemma {:induction false} ProbingClaims(s: State, c: nat, j: nat) returns (t: State, i: nat)
    requires c in s.clients && Live(s, c) && s.clients[c] == Probing(j) && s.holder == Nobody
    ensures Alone(s, Advance(c), t) && !Can(t, Advance(c)) && Claims(s, c, j, i, t)
  {
    hide Alone, Live, InUse;
    i := FirstFree(s.records, j);
    if i >= |s.records| {
      FailsLater(s, c, j, i);
      t := SetClient(s, c, Failed);
    } else {
      ProbesTo(s, c, j, i);
      var a := SetClient(s, c, Probing(i));
      SameLife(s, a, c);
      Step(a, Advance(c));
      var b := Do(a, Advance(c));
      Then(s, Advance(c), a, b);
      SameLife(s, b, c);
      t := TakesAlone(b, c, i);
      Then(s, Advance(c), b, t);
    }
  }

  lemma {:induction false} FailsLater(s: State, c: nat, j: nat, i: nat)
    requires c in s.clients && Live(s, c) && s.clients[c] == Probing(j) && j <= i && i >= |s.records| && InUse(s.records, j, i)
    ensures Alone(s, Advance(c), SetClient(s, c, Failed))
  {
    hide Alone, Live;
    var k := if j < |s.records| then |s.records| else j;
    var a := SetClient(s, c, Probing(k));
    if j < |s.records| {
      ProbesTo(s, c, j, k);
    } else {
      assert a == s;
      Stay(s, Advance(c));
    }
    SameLife(s, a, c);
    FailsAlone(a, c, k);
    assert SetClient(a, c, Failed) == SetClient(s, c, Failed);
    Then(s, Advance(c), a, SetClient(s, c, Failed));
  }

  /** A claim nobody interferes with any more is reload, wherever it stands: looking at a record, or waiting for the
      semaphore with a record it saw free, which may have been taken meanwhile. It takes the first free record from
      there on, or fails and changes nothing when there is none. */
  lemma {:induction false} ClaimAlone(s: State, c: nat) returns (t: State, i: nat)
    requires c in s.clients && Live(s, c) && s.holder == Nobody && (s.clients[c].Probing? || s.clients[c].Waiting?)
    requires s.clients[c].Waiting? ==> s.clients[c].index < |s.records|
    ensures Alone(s, Advance(c), t) && !Can(t, Advance(c)) && Claims(s, c, s.clients[c].index, i, t)
  {
    hide Alone, Live, InUse, Claims, Can;
    if s.clients[c].Probing? {
      t, i := ProbingClaims(s, c, s.clients[c].index);
    } else {
      t, i := WaitingClaims(s, c, s.clients[c].index);
    }
  }

  lemma {:induction false} WaitingClaims(s: State, c: nat, j: nat) returns (t: State, i: nat)
    requires c in s.clients && Live(s, c) && s.clients[c] == Waiting(j) && s.holder == Nobody && j < |s.records|
    ensures Alone(s, Advance(c), t) && !Can(t, Advance(c)) && Claims(s, c, j, i, t)
  {
    hide Alone, Live;
    if s.records[j].status == 0 {
      i := j;
      t := TakesAlone(s, c, j);
    } else {
      PassesAlone(s, c, j);
      var a := SetClient(s, c, Probing(j + 1));
      SameLife(s, a, c);
      hide Claims, InUse, Can;
      t, i := ProbingClaims(a, c, j + 1);
      Then(s, Advance(c), a, t);
      ClaimsFrom(s, a, c, j, i, t);
    }
  }

  lemma {:induction false} ClaimsFrom(s: State, a: State, c: nat, j: nat, i: nat, t: State)
    requires c in s.clients && c in s.pids && a == SetClient(s, c, Probing(j + 1)) && j < |s.records| && s.records[j].status != 0
    requires Claims(a, c, j + 1, i, t)
    ensures Claims(s, c, j, i, t)
  {
    hide InUse;
    OneMoreInUse(s.records, j, i);
    LastSet(s, c, Probing(j + 1), Owning(i));
    LastSet(s, c, Probing(j + 1), Failed);
    hide SetClient;
  }

  lemma {:induction false} LastSet(s: State, c: nat, p: Client, q: Client)
    ensures SetClient(SetClient(s, c, p), c, q) == SetClient(s, c, q)
    ensures SetClient(s, c, p) == s.(clients := SetClient(s, c, p).clients)
  {
    assert s.clients[c := p][c := q] == s.clients[c := q];
  }

  lemma {:induction false} OneMoreInUse(rs: seq<Record>, j: nat, i: nat)
    requires j < |rs| && rs[j].status != 0 && InUse(rs, j + 1, i)
    ensures InUse(rs, j, i)
  {
  }

  lemma {:induction false} FirstFree(rs: seq<Record>, j: nat) returns (i: nat)
    ensures j <= i && InUse(rs, j, i) && (i < |rs| ==> rs[i].status == 0)
    decreases |rs| - j
  {
    i := j;
    if j < |rs| && rs[j].status != 0 {
      i := FirstFree(rs, j + 1);
    }
  }

  // ---------------------------------------------------------------- finishAll and a client's own update

  /** A request to disconnect, bit 0x10, for a record in use that is not disconnected. */
  function Requested(r: Record): Record {
    if r.status == 0 || r.status & 0x20 != 0 then r else r.(status := 0x10 | r.status)
  }

  function RequestedBelow(rs: seq<Record>, k: nat): (r: seq<Record>)
    ensures |r| == |rs|
  {
    seq(|rs|, i requires 0 <= i < |rs| => if i < k then Requested(rs[i]) else rs[i])
  }

  function FinishAt(s: State, k: nat): State { s.(records := RequestedBelow(s.records, k), master := Finishing(k)) }

  lemma {:induction false} RequestAlone(s: State)
    requires s.master.Finishing? && s.master.i < s.endPos && s.master.i < |s.records|
    ensures var i := s.master.i;
            Alone(s, AdvanceMaster, s.(records := s.records[i := Requested(s.records[i])], master := Finishing(i + 1)))
  {
    hide Alone;
    var i := s.master.i;
    var r := s.records[i];
    var a := Do(s, AdvanceMaster);
    Step(s, AdvanceMaster);
    assert s.records[i := r] == s.records;
    if r.status != 0 && r.status & 0x20 == 0 {
      var b := Do(a, AdvanceMaster);
      Step(a, AdvanceMaster);
      Then(s, AdvanceMaster, a, b);
      Step(b, AdvanceMaster);
      Then(s, AdvanceMaster, b, Do(b, AdvanceMaster));
    }
  }

  lemma {:induction false} FinishTo(s: State, k: nat)
    requires k <= s.endPos <= |s.records|
    ensures Alone(FinishAt(s, 0), AdvanceMaster, FinishAt(s, k))
  {
    hide Alone, Requested;
    if k == 0 {
      Stay(FinishAt(s, 0), AdvanceMaster);
    } else {
      FinishTo(s, k - 1);
      var t := FinishAt(s, k - 1);
      RequestAlone(t);
      assert t.records[k - 1 := Requested(s.records[k - 1])] == RequestedBelow(s.records, k);
      Then(FinishAt(s, 0), AdvanceMaster, t, FinishAt(s, k));
    }
  }

  /** A pass of finishAll nobody interferes with requests the end of every owner, and changes nothing else. */
  lemma {:induction false} FinishAlone(s: State) returns (t: State)
    requires s.master.Idle? && s.endPos <= |s.records|
    ensures Can(s, StartFinish) && Alone(Do(s, StartFinish), AdvanceMaster, t) && t.master.Idle? && !Can(t, AdvanceMaster)
    ensures |t.records| == |s.records| && t == s.(records := t.records)
    ensures forall i :: 0 <= i < |s.records| ==>
              t.records[i] == if i < s.endPos then Requested(s.records[i]) else s.records[i]
  {
    hide Alone, Requested;
    assert RequestedBelow(s.records, 0) == s.records;
    assert Do(s, StartFinish) == FinishAt(s, 0);
    FinishTo(s, s.endPos);
    var u := FinishAt(s, s.endPos);
    t := Do(u, AdvanceMaster);
    Step(u, AdvanceMaster);
    Then(FinishAt(s, 0), AdvanceMaster, u, t);
  }

  /** A client's update nobody interferes with adds its bits to its own status, or to the common flags; with the
      disconnect bit 0x20 among them it is the client's last. */
  lemma {:induction false} UpdateAlone(s: State, c: nat, bits: bv8, blind: bool) returns (t: State)
    requires c in s.clients && Live(s, c) && s.clients[c].Owning? && s.clients[c].index < |s.records| && bits != 0
    ensures Can(s, Touch(c, bits, blind)) && Can(Do(s, Touch(c, bits, blind)), Advance(c))
    ensures t == Do(Do(s, Touch(c, bits, blind)), Advance(c))
    ensures var i := s.clients[c].index;
            var value := bits | if blind then s.flags else s.records[i].status;
            t == SetClient(s, c, if value & 0x20 != 0 then Disconnected(i) else Owning(i))
                   .(records := s.records[i := s.records[i].(status := value)])
  {
    t := Do(Do(s, Touch(c, bits, blind)), Advance(c));
  }
}
