/** The shared record page: clients claim, update and abandon records while the master scans, marks,
    frees and shrinks. Every shared read or write is one step; steps of all processes interleave freely. */
module CommsProtocol {
  const INVALID: bv8 := 0x00
  const ACTIVE: bv8 := 0x01
  const REQDISCONNECT: bv8 := 0x10
  const DISCONNECT: bv8 := 0x20

  predicate Gone(status: bv8) { status & DISCONNECT != 0 }

  datatype Record = Record(status: bv8, pid: nat)

  /** Where a client stands in reload's claim loop, or afterwards. */
  datatype Client =
    | Probing(index: nat)       // about to look at a record, or past the last one
    | Waiting(index: nat)       // saw it free, waits for the semaphore
    | Rechecking(index: nat)    // holds the semaphore, about to look again
    | WritingPid(index: nat)
    | WritingStatus(index: nat)
    | ReadingEnd(index: nat)    // claimed; about to compare the record count
    | WritingEnd(index: nat)
    | Releasing(index: nat)
    | Skipping(index: nat)      // lost the race, about to release and go on
    | Owning(index: nat)
    | Updating(index: nat, value: bv8)  // has worked out a new status, about to write it
    | Disconnected(index: nat)
    | Failed

  /** Where the master stands: in a scan, in the shrink after it, or in finishAll. */
  datatype Master =
    | Idle
    | Scanning(rc: nat, id: nat, maxRec: nat)
    | CheckingPid(rc: nat, id: nat, maxRec: nat, seen: bv8)
    | CheckingAlive(rc: nat, id: nat, maxRec: nat, seen: bv8)
    | Marking(rc: nat, id: nat, maxRec: nat, seen: bv8)
    | Freeing(rc: nat, id: nat, maxRec: nat)
    | WantingShrink(rc: nat, maxRec: nat)
    | CheckingEnd(rc: nat, maxRec: nat)   // holds the semaphore
    | Shrinking(rc: nat, maxRec: nat)
    | ShrinkDone
    | Finishing(i: nat)
    | Requesting(i: nat)
    | WritingRequest(i: nat, seen: bv8)

  datatype Holder = Nobody | HeldBy(client: nat) | HeldByMaster

  /** The page, the semaphore, the processes; and, as history, which records were claimed below the count
      of the running scan (`late`), and which of these a shrink has cut off and no claim behind them has brought
      back below the count since (`cut`). */
  datatype State = State(records: seq<Record>, endPos: nat, holder: Holder, flags: bv8,
                         clients: map<nat, Client>, pids: map<nat, nat>, dead: set<nat>,
                         master: Master, late: set<nat>, cut: set<nat>)

  datatype Action =
    | Spawn(c: nat, pid: nat)
    | Advance(c: nat)
    | Touch(c: nat, bits: bv8, blind: bool)
    | Crash(pid: nat)
    | StartScan
    | StartFinish
    | AdvanceMaster

  predicate Live(s: State, c: nat) { c in s.pids && s.pids[c] !in s.dead }

  /** The client holds the semaphore. */
  predicate Critical(p: Client) {
    p.Rechecking? || p.WritingPid? || p.WritingStatus? || p.ReadingEnd? || p.WritingEnd? || p.Releasing? || p.Skipping?
  }

  /** The client has published its claim and has not disconnected. */
  predicate Claimed(p: Client) {
    p.ReadingEnd? || p.WritingEnd? || p.Releasing? || p.Owning? || p.Updating?
  }

  predicate HoldsMaster(m: Master) { m.CheckingEnd? || m.Shrinking? || m.ShrinkDone? }

  predicate InScan(m: Master) {
    m.Scanning? || m.CheckingPid? || m.CheckingAlive? || m.Marking? || m.Freeing? || m.WantingShrink?
    || m.CheckingEnd? || m.Shrinking?
  }

  predicate CanAdvance(s: State, c: nat) {
    && c in s.clients && Live(s, c)
    && match s.clients[c]
       case Waiting(_) => s.holder == Nobody
       case Owning(_) | Disconnected(_) | Failed => false
       case Probing(_) => true
       case p => p.index < |s.records|
  }

  predicate Can(s: State, a: Action) {
    match a
    case Spawn(c, pid) => c !in s.clients && c !in s.pids && pid !in s.dead && pid > 0
    case Advance(c) => CanAdvance(s, c)
    case Touch(c, bits, blind) => c in s.clients && Live(s, c) && s.clients[c].Owning?
                                  && s.clients[c].index < |s.records| && (blind ==> bits != INVALID)
    case Crash(pid) => true
    case StartScan => s.master.Idle?
    case StartFinish => s.master.Idle?
    case AdvanceMaster => CanAdvanceMaster(s)
  }

  predicate CanAdvanceMaster(s: State) {
    match s.master
    case Idle => false
    case WantingShrink(_, _) => s.holder == Nobody
    case Scanning(rc, id, _) => id < rc ==> id < |s.records|
    case CheckingPid(_, id, _, _) => id < |s.records|
    case CheckingAlive(_, id, _, _) => id < |s.records|
    case Marking(_, id, _, _) => id < |s.records|
    case Freeing(_, id, _) => id < |s.records|
    case Finishing(i) => i < s.endPos ==> i < |s.records|
    case Requesting(i) => i < |s.records|
    case WritingRequest(i, _) => i < |s.records|
    case _ => true
  }

  function SetClient(s: State, c: nat, p: Client): State { s.(clients := s.clients[c := p]) }

  function SetStatus(s: State, i: nat, status: bv8): State
    requires i < |s.records|
  {
    s.(records := s.records[i := s.records[i].(status := status)])
  }

  /** The next shared access of a client. */
  function AdvanceClient(s: State, c: nat): State
    requires CanAdvance(s, c)
  {
    match s.clients[c]
    case Probing(i) =>
      SetClient(s, c, if i >= |s.records| then Failed
                      else if s.records[i].status == INVALID then Waiting(i) else Probing(i + 1))
    case Waiting(i) => SetClient(s.(holder := HeldBy(c)), c, Rechecking(i))
    case Rechecking(i) => SetClient(s, c, if s.records[i].status == INVALID then WritingPid(i) else Skipping(i))
    case WritingPid(i) => SetClient(s.(records := s.records[i := s.records[i].(pid := s.pids[c])]), c, WritingStatus(i))
    case WritingStatus(i) =>
      SetClient(SetStatus(s, i, ACTIVE | s.flags), c, ReadingEnd(i))
        .(late := if InScan(s.master) && i < s.master.rc then s.late + {i} else s.late)
    case ReadingEnd(i) => SetClient(s, c, if s.endPos <= i then WritingEnd(i) else Releasing(i))
    case WritingEnd(i) => SetClient(s.(endPos := i + 1, cut := set j | j in s.cut && j > i), c, Releasing(i))
    case Releasing(i) => SetClient(s.(holder := Nobody), c, Owning(i))
    case Skipping(i) => SetClient(s.(holder := Nobody), c, Probing(i + 1))
    case Updating(i, value) =>
      SetClient(SetStatus(s, i, value), c, if Gone(value) then Disconnected(i) else Owning(i))
    case Owning(_) | Disconnected(_) | Failed => s
  }

  /** The next shared access of the master: COMM_LOOP and setRecordCount, or finishAll. */
  function AdvanceTheMaster(s: State): State
    requires CanAdvanceMaster(s)
  {
    match s.master
    case Idle => s
    case Scanning(rc, id, maxRec) =>
      if id >= rc then
        s.(master := if maxRec + 1 < rc then WantingShrink(rc, maxRec) else Idle)
      else
        var seen := s.records[id].status;
        s.(master := if seen == INVALID then Scanning(rc, id + 1, maxRec)
                     else if Gone(seen) then Freeing(rc, id, maxRec)
                     else CheckingPid(rc, id, maxRec, seen))
    case CheckingPid(rc, id, maxRec, seen) =>
      s.(master := if s.records[id].pid == 0 then Scanning(rc, id + 1, id) else CheckingAlive(rc, id, maxRec, seen))
    case CheckingAlive(rc, id, maxRec, seen) =>
      s.(master := if s.records[id].pid in s.dead then Marking(rc, id, maxRec, seen) else Scanning(rc, id + 1, id))
    case Marking(rc, id, maxRec, seen) => SetStatus(s, id, DISCONNECT | seen).(master := Scanning(rc, id + 1, id))
    case Freeing(rc, id, maxRec) => SetStatus(s, id, INVALID).(master := Scanning(rc, id + 1, id))
    case WantingShrink(rc, maxRec) => s.(holder := HeldByMaster, master := CheckingEnd(rc, maxRec))
    case CheckingEnd(rc, maxRec) => s.(master := if s.endPos <= rc then Shrinking(rc, maxRec) else ShrinkDone)
    case Shrinking(rc, maxRec) =>
      s.(endPos := maxRec + 1, master := ShrinkDone, cut := s.cut + set i | i in s.late && i > maxRec)
    case ShrinkDone => s.(holder := Nobody, master := Idle)
    case Finishing(i) =>
      if i >= s.endPos then s.(master := Idle)
      else if s.records[i].status == INVALID || Gone(s.records[i].status) then s.(master := Finishing(i + 1))
      else s.(master := Requesting(i))
    case Requesting(i) => s.(master := WritingRequest(i, s.records[i].status))
    case WritingRequest(i, seen) => SetStatus(s, i, REQDISCONNECT | seen).(master := Finishing(i + 1))
  }

  function Do(s: State, a: Action): State
    requires Can(s, a)
  {
    match a
    case Spawn(c, pid) => s.(clients := s.clients[c := Probing(0)], pids := s.pids[c := pid])
    case Advance(c) => AdvanceClient(s, c)
    case Touch(c, bits, blind) =>
      // setStatus(bits | getStatus()), or setStatus(bits | defaultCommFlags)
      var i := s.clients[c].index;
      SetClient(s, c, Updating(i, bits | if blind then s.flags else s.records[i].status))
    case Crash(pid) => s.(dead := s.dead + {pid})
    case StartScan => s.(master := Scanning(s.endPos, 0, 0), late := {})
    case StartFinish => s.(master := Finishing(0))
    case AdvanceMaster => AdvanceTheMaster(s)
  }

  /** A fresh page: every record free, a count of one. */
  ghost predicate Init(s: State) {
    && |s.records| > 0 && (forall i :: 0 <= i < |s.records| ==> s.records[i] == Record(INVALID, 0))
    && s.endPos == 1 && s.holder == Nobody && !Gone(s.flags)
    && s.clients == map[] && s.pids == map[] && s.master == Idle && s.late == {} && s.cut == {}
  }

  ghost predicate Feasible(s: State, actions: seq<Action>)
    decreases |actions|
  {
    actions == [] || (Can(s, actions[0]) && Feasible(Do(s, actions[0]), actions[1..]))
  }

  ghost function Run(s: State, actions: seq<Action>): State
    requires Feasible(s, actions)
    decreases |actions|
  {
    if actions == [] then s else Run(Do(s, actions[0]), actions[1..])
  }
}
