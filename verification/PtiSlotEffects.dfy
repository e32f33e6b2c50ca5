/** What each call on the slots does to the PIDs collected and to the slot, for every argument. */
module PtiSlotEffects {
  import opened PtiSlots

  /** A PID is set exactly if the handle is that of a slot in use and nobody collects the PID
      yet: then it is collected behind the others, and the slot knows where. */
  lemma SetPidCollects(t: Table, handle: int, pid: nat)
    requires Matched(t)
    ensures var i, u := handle - 20000, DoSetPid(t, handle, pid);
      if 0 <= i < 32 && t.slots[i].inUse == 1 && pid !in t.pids then
        && u.pids == t.pids + [pid] && |u.slots| == 32
        && u.slots[i] == Slot(handle, 1, |t.pids|, pid)
        && forall j :: 0 <= j < 32 && j != i ==> u.slots[j] == t.slots[j]
      else u == t
  {
    var i := handle - 20000;
    if 0 <= i < 32 {
      HandleFound(t, i);
    }
  }

  lemma HandleFound(t: Table, i: nat)
    requires Matched(t) && i < 32
    ensures FindHandle(t.slots, 20000 + i, 0) == i
  {
    hide SlotOk;
    assert t.slots[i].handle == 20000 + i;
  }

  /** The first slot that is not in use is taken, without a PID; if all are in use nothing
      happens. */
  lemma NewSlotTaken(t: Table, i: nat)
    requires i < |t.slots| && forall j :: 0 <= j < i ==> t.slots[j].inUse != 0
    ensures var u := DoGetNewSlot(t);
      && |u.slots| == |t.slots| && u.pids == t.pids
      && (t.slots[i].inUse == 0 ==>
            && u.slots[i].inUse == 1 && u.slots[i].tcIndex == -1 && u.slots[i].handle == t.slots[i].handle
            && forall j :: 0 <= j < |t.slots| && j != i ==> u.slots[j] == t.slots[j])
      && (t.slots[i].inUse != 0 && i == |t.slots| - 1 ==> u == t)
  {
  }

  /** A PID is given up exactly if the slot has one that is not the reserved one: then all
      others stay collected, and no more. */
  lemma ClearPidRemoves(t: Table, i: nat)
    requires Ok(t) && i < 32
    ensures var u := DoClearPid(t, i);
      if t.slots[i].tcIndex >= 0 && t.slots[i].pid != 0xFFFF then
        && |u.pids| == |t.pids| - 1
        && (forall p :: p in u.pids <==> p in t.pids && p != t.slots[i].pid)
        && |u.slots| == 32 && u.slots[i] == t.slots[i].(tcIndex := -1)
      else u == t
  {
    assert SlotOk(t, i);
    if t.slots[i].tcIndex >= 0 && t.slots[i].pid != 0xFFFF {
      ClearPidOk(t, i);
      var j := ClearShape(t, i);
    }
    hide SlotOk, Owned;
  }

  /** A slot that is freed has no PID, and nothing else is collected than before; its own PID
      is gone unless it was the reserved one. */
  lemma FreeSlotReleases(t: Table, i: nat)
    requires Ok(t) && i < 32
    ensures var u := DoFreeSlot(t, i);
      && |u.slots| == 32 && u.slots[i] == Slot(20000 + i, 0, -1, 0xFFFF)
      && forall p :: p in u.pids <==> p in t.pids && (t.slots[i].tcIndex >= 0 && t.slots[i].pid != 0xFFFF ==> p != t.slots[i].pid)
  {
    assert SlotOk(t, i);
    ClearPidRemoves(t, i);
    hide SlotOk, Owned, DoClearPid;
  }
}
