/** The page operations run without interference, as the code writes them. */
module CommsPage {
  import opened CommsProtocol

  /** What one scan makes of a record, given the processes that no longer run. */
  function Scanned(r: Record, dead: set<nat>): Record {
    if r.status == INVALID then r
    else if Gone(r.status) then r.(status := INVALID)
    else if r.pid > 0 && r.pid in dead then r.(status := DISCONNECT | r.status)
    else r
  }

  /** The last record below n in use, or 0. */
  function LastUsed(rs: seq<Record>, n: nat): (m: nat)
    requires n <= |rs|
    ensures m < n || m == 0
  {
    if n == 0 then 0 else if rs[n - 1].status != INVALID then n - 1 else LastUsed(rs, n - 1)
  }

  class Page {
    const records: array<Record>
    var endPos: nat

    constructor (count: nat)
      requires count > 0
      ensures fresh(records) && records.Length == count && endPos == 1
      ensures forall i :: 0 <= i < count ==> records[i] == Record(INVALID, 0)
    {
      records := new Record[count](i => Record(INVALID, 0));
      endPos := 1;
    }

    /** reload: claims the first free record for `pid`, or fails when there is none. */
    method Reload(pid: nat, flags: bv8) returns (index: nat)
      modifies records, `endPos
      ensures index <= records.Length
      ensures forall i :: 0 <= i < index ==> old(records[i]).status != INVALID
      ensures index < records.Length ==> old(records[index]).status == INVALID
      ensures index < records.Length ==> records[..] == old(records[..])[index := Record(ACTIVE | flags, pid)]
      ensures index == records.Length ==> records[..] == old(records[..])
      ensures endPos == if index < records.Length && old(endPos) <= index then index + 1 else old(endPos)
    {
      index := 0;
      while index < records.Length
        invariant index <= records.Length && records[..] == old(records[..]) && endPos == old(endPos)
        invariant forall i :: 0 <= i < index ==> records[i].status != INVALID
      {
        if records[index].status == INVALID {
          records[index] := records[index].(pid := pid);
          records[index] := records[index].(status := ACTIVE | flags);
          if endPos <= index {
            endPos := index + 1;
          }
          return;
        }
        index := index + 1;
      }
    }

    /** setRecordCount */
    method SetRecordCount(idx: nat, prevCount: nat)
      modifies `endPos
      ensures endPos == if old(endPos) <= prevCount then idx else old(endPos)
    {
      if endPos <= prevCount {
        endPos := idx;
      }
    }

    /** COMM_LOOP: scans the records below the count, marks those of dead processes, frees those marked
        before, and shrinks the count to the last one that was in use. */
    method CommLoop(dead: set<nat>)
      requires endPos <= records.Length
      modifies records, `endPos
      ensures forall i :: 0 <= i < records.Length ==>
                records[i] == if i < old(endPos) then Scanned(old(records[i]), dead) else old(records[i])
      ensures var last := LastUsed(old(records[..]), old(endPos));
              endPos == if last + 1 < old(endPos) then last + 1 else old(endPos)
    {
      var rc := endPos;
      var maxRec := 0;
      for id := 0 to rc
        invariant endPos == rc && maxRec == LastUsed(old(records[..]), id)
        invariant forall i :: 0 <= i < records.Length ==>
                    records[i] == if i < id then Scanned(old(records[i]), dead) else old(records[i])
      {
        var s := records[id].status;
        if s == INVALID {
          continue;
        }
        if !Gone(s) && records[id].pid > 0 && records[id].pid in dead {
          records[id] := records[id].(status := DISCONNECT | s);
        }
        if Gone(s) {
          records[id] := records[id].(status := INVALID);
        }
        maxRec := id;
      }
      if maxRec + 1 < rc {
        SetRecordCount(maxRec + 1, rc);
      }
    }
  }

  lemma {:induction false} LastUsedIsLast(rs: seq<Record>, n: nat, i: nat)
    requires n <= |rs| && LastUsed(rs, n) < i < n
    ensures rs[i].status == INVALID
  {
    if i < n - 1 {
      LastUsedIsLast(rs, n - 1, i);
    }
  }

  /** A record whose process died is free after two scans, whatever its status was, and a live process's
      record comes out of a scan unchanged unless it had disconnected. */
  lemma {:induction false} TwoScansFree(r: Record, dead: set<nat>)
    ensures r.pid > 0 && r.pid in dead ==> Scanned(Scanned(r, dead), dead).status == INVALID
    ensures r.pid !in dead && !Gone(r.status) ==> Scanned(r, dead) == r
    ensures Gone(r.status) ==> Scanned(r, dead).status == INVALID
  {
    assert Gone(DISCONNECT | r.status);
    assert DISCONNECT | r.status != INVALID;
  }

  /** An undisturbed scan never shrinks the count below a record in use. */
  lemma {:induction false} ScanKeepsVisible(rs: seq<Record>, endPos: nat, dead: set<nat>, i: nat)
    requires i < endPos <= |rs| && Scanned(rs[i], dead).status != INVALID
    ensures i < LastUsed(rs, endPos) + 1
  {
    if LastUsed(rs, endPos) < i {
      LastUsedIsLast(rs, endPos, i);
    }
  }
}
