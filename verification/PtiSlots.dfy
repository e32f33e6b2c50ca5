/** The PID table of the PTI driver. The firmware reads the table and its length at any
    time; the driver changes them with two separate writes, fills gaps with the last
    entry, and remembers in each slot where its PID is. */
module PtiSlots {

  const SLOTS: nat := 32
  const SLOT_HANDLE_OFFSET: int := 20000
  const NO_PID: nat := 0xFFFF

  datatype Slot = Slot(handle: int, inUse: int, tcIndex: int, pid: nat)

  /** The slots, and the part of the PID table the firmware uses. */
  datatype Table = Table(slots: seq<Slot>, pids: seq<nat>)

  datatype Op =
    | GetNewSlot
    | SetPid(handle: int, pid: nat)
    | ClearPid(slot: nat)
    | FreeSlot(slot: nat)

  // ---------------------------------------------------------------------------
  // The operations on values
  // ---------------------------------------------------------------------------

  /** The first slot from `i` on with a given table index, or 32. */
  function FindIndex(slots: seq<Slot>, tc: int, i: nat): (r: nat)
    requires i <= |slots|
    ensures i <= r <= |slots|
    ensures r < |slots| ==> slots[r].tcIndex == tc
    ensures forall j :: i <= j < r ==> slots[j].tcIndex != tc
    decreases |slots| - i
  {
    if i == |slots| || slots[i].tcIndex == tc then i else FindIndex(slots, tc, i + 1)
  }

  function FindHandle(slots: seq<Slot>, handle: int, i: nat): (r: nat)
    requires i <= |slots|
    ensures i <= r <= |slots|
    ensures r < |slots| ==> slots[r].handle == handle
    ensures forall j :: i <= j < r ==> slots[j].handle != handle
    decreases |slots| - i
  {
    if i == |slots| || slots[i].handle == handle then i else FindHandle(slots, handle, i + 1)
  }

  function FindFree(slots: seq<Slot>, i: nat): (r: nat)
    requires i <= |slots|
    ensures i <= r <= |slots|
    ensures r < |slots| ==> slots[r].inUse == 0
    ensures forall j :: i <= j < r ==> slots[j].inUse != 0
    decreases |slots| - i
  {
    if i == |slots| || slots[i].inUse == 0 then i else FindFree(slots, i + 1)
  }

  /** The slot a PID would be set on, if the call gets that far. */
  function Target(t: Table, handle: int, pid: nat): (r: nat)
    ensures r <= |t.slots|
  {
    var i := FindHandle(t.slots, handle, 0);
    if pid in t.pids || i == |t.slots| || t.slots[i].inUse != 1 then |t.slots| else i
  }

  function DoGetNewSlot(t: Table): Table {
    var i := FindFree(t.slots, 0);
    if i == |t.slots| then t
    else t.(slots := t.slots[i := t.slots[i].(inUse := 1, tcIndex := -1)])
  }

  function DoSetPid(t: Table, handle: int, pid: nat): Table {
    var i := Target(t, handle, pid);
    if i == |t.slots| then t
    else Table(t.slots[i := t.slots[i].(pid := pid, tcIndex := |t.pids|)], t.pids + [pid])
  }

  predicate Clearable(t: Table, i: nat)
    requires i < |t.slots|
  {
    t.slots[i].tcIndex >= 0 && t.slots[i].pid != NO_PID
  }

  /** The table between the two writes of a deletion: the gap holds the last PID. */
  function GapFilled(t: Table, i: nat): seq<nat>
    requires i < |t.slots| && 0 <= t.slots[i].tcIndex < |t.pids|
  {
    t.pids[t.slots[i].tcIndex := t.pids[|t.pids| - 1]]
  }

  function DoClearPid(t: Table, i: nat): Table
    requires i < |t.slots|
  {
    if !Clearable(t, i) || t.slots[i].tcIndex >= |t.pids| then t
    else
      var n, tc := |t.pids| - 1, t.slots[i].tcIndex;
      var j := FindIndex(t.slots, n, 0);
      var moved := if j == |t.slots| then t.slots else t.slots[j := t.slots[j].(tcIndex := tc)];
      Table(moved[i := moved[i].(tcIndex := -1)], GapFilled(t, i)[..n])
  }

  function DoFreeSlot(t: Table, i: nat): Table
    requires i < |t.slots|
  {
    var u := if t.slots[i].tcIndex != -1 then DoClearPid(t, i) else t;
    u.(slots := u.slots[i := u.slots[i].(inUse := 0, pid := NO_PID, tcIndex := -1)])
  }

  function Apply(t: Table, op: Op): Table
    requires op.ClearPid? || op.FreeSlot? ==> op.slot < |t.slots|
  {
    match op
    case GetNewSlot => DoGetNewSlot(t)
    case SetPid(handle, pid) => DoSetPid(t, handle, pid)
    case ClearPid(i) => DoClearPid(t, i)
    case FreeSlot(i) => DoFreeSlot(t, i)
  }

  // ---------------------------------------------------------------------------
  // The invariant
  // ---------------------------------------------------------------------------

  /** The slots with a table index have entries of their own with their PIDs, and no PID is in
      the table twice. */
  ghost predicate Matched(t: Table) {
    && |t.slots| == SLOTS
    && (forall i :: 0 <= i < SLOTS ==> t.slots[i].handle == SLOT_HANDLE_OFFSET + i)
    && (forall i :: 0 <= i < SLOTS ==> SlotOk(t, i))
    && (forall i, j :: 0 <= i < j < SLOTS && t.slots[i].tcIndex >= 0 ==> t.slots[i].tcIndex != t.slots[j].tcIndex)
    && (forall k, m :: 0 <= k < m < |t.pids| ==> t.pids[k] != t.pids[m])
  }

  /** The slots with a table index and the table entries correspond one to one. */
  ghost predicate Ok(t: Table) {
    Matched(t) && forall k :: 0 <= k < |t.pids| ==> Owned(t, k)
  }

  ghost predicate SlotOk(t: Table, i: nat)
    requires i < |t.slots|
  {
    var s := t.slots[i];
    && (s.inUse == 0 || s.inUse == 1)
    && -1 <= s.tcIndex < |t.pids|
    && (s.tcIndex >= 0 ==> s.inUse == 1 && t.pids[s.tcIndex] == s.pid)
  }

  /** Some slot points at table entry `k`. */
  ghost predicate Owned(t: Table, k: nat) {
    exists i :: 0 <= i < |t.slots| && t.slots[i].tcIndex == k
  }

  ghost predicate NoReservedPid(t: Table) {
    forall k :: 0 <= k < |t.pids| ==> t.pids[k] != NO_PID
  }

  /** Slots that own one of the first `k` table entries. */
  ghost function Owners(t: Table, k: nat): set<nat> {
    set i: nat | i < |t.slots| && 0 <= t.slots[i].tcIndex < k
  }

  lemma {:induction false} OwnersCount(t: Table, k: nat)
    requires Ok(t) && k <= |t.pids|
    ensures |Owners(t, k)| == k
  {
    if k == 0 {
      assert Owners(t, 0) == {};
    } else {
      OwnersCount(t, k - 1);
      var i := OwnersStep(t, k);
      hide Ok, Owners;
      assert |Owners(t, k - 1) + {i}| == k;
    }
  }

  lemma {:induction false} OwnersStep(t: Table, k: nat) returns (i: nat)
    requires Ok(t) && 0 < k <= |t.pids|
    ensures i !in Owners(t, k - 1) && Owners(t, k) == Owners(t, k - 1) + {i}
  {
    hide SlotOk;
    assert Owned(t, k - 1);
    i :| 0 <= i < |t.slots| && t.slots[i].tcIndex == k - 1;
    forall m | m in Owners(t, k)
      ensures m in Owners(t, k - 1) + {i}
    {
      assert m != i ==> t.slots[m].tcIndex != t.slots[i].tcIndex;
    }
  }

  lemma {:induction false} BoundedSize(s: set<nat>, n: nat)
    requires forall x :: x in s ==> x < n
    ensures |s| <= n
  {
    if n == 0 {
      assert s == {};
    } else {
      BoundedSize(s - {n - 1}, n - 1);
    }
  }

  /** The table never outgrows the 32 slots, and a slot without a PID leaves room. */
  lemma TableFits(t: Table, i: nat)
    requires Ok(t) && i < SLOTS
    ensures |t.pids| <= SLOTS
    ensures t.slots[i].tcIndex < 0 ==> |t.pids| < SLOTS
  {
    var n := |t.pids|;
    OwnersCount(t, n);
    BoundedSize(Owners(t, n), SLOTS);
    if t.slots[i].tcIndex < 0 {
      BoundedSize(Owners(t, n) + {i}, SLOTS);
    }
  }

  lemma GetNewSlotOk(t: Table)
    requires Ok(t)
    ensures Ok(DoGetNewSlot(t)) && DoGetNewSlot(t).pids == t.pids
  {
    var u, i := DoGetNewSlot(t), FindFree(t.slots, 0);
    forall j | 0 <= j < SLOTS
      ensures SlotOk(u, j)
    {
      assert SlotOk(t, j);
    }
    forall k | 0 <= k < |u.pids|
      ensures Owned(u, k)
    {
      assert Owned(t, k);
      var j :| 0 <= j < |t.slots| && t.slots[j].tcIndex == k;
      assert SlotOk(t, j);
      assert u.slots[j].tcIndex == k;
    }
  }

  /** Setting a PID keeps the correspondence exactly when the slot had none: otherwise its
      old entry stays in the table without an owner. */
  lemma SetPidOkIff(t: Table, handle: int, pid: nat)
    requires Ok(t)
    ensures var i := Target(t, handle, pid);
            Ok(DoSetPid(t, handle, pid)) <==> i == SLOTS || t.slots[i].tcIndex < 0
  {
    var u, i := DoSetPid(t, handle, pid), Target(t, handle, pid);
    if i < SLOTS {
      var was := t.slots[i].tcIndex;
      assert SlotOk(t, i);
      if was >= 0 {
        forall j | 0 <= j < SLOTS
          ensures u.slots[j].tcIndex != was
        {
        }
        assert !Owned(u, was);
      } else {
        forall j | 0 <= j < SLOTS
          ensures SlotOk(u, j)
        {
          assert SlotOk(t, j);
        }
        forall j, m | 0 <= j < m < SLOTS && u.slots[j].tcIndex >= 0
          ensures u.slots[j].tcIndex != u.slots[m].tcIndex
        {
          assert SlotOk(t, j) && SlotOk(t, m);
        }
        forall k | 0 <= k < |u.pids|
          ensures Owned(u, k)
        {
          if k < |t.pids| {
            assert Owned(t, k);
            var j :| 0 <= j < |t.slots| && t.slots[j].tcIndex == k;
            assert u.slots[j].tcIndex == k;
          } else {
            assert u.slots[i].tcIndex == k;
          }
        }
      }
    }
  }

  /** Slot `j` owns the last PID and takes over the gap's index; slot `i` gives it up. */
  lemma {:induction false} ClearShape(t: Table, i: nat) returns (j: nat)
    requires Ok(t) && i < SLOTS && Clearable(t, i)
    ensures 0 <= t.slots[i].tcIndex < |t.pids|
    ensures var u, n, tc := DoClearPid(t, i), |t.pids| - 1, t.slots[i].tcIndex;
      && j < SLOTS && t.slots[j].tcIndex == n && |u.slots| == SLOTS && u.pids == t.pids[tc := t.pids[n]][..n]
      && forall m :: 0 <= m < SLOTS ==>
           u.slots[m] == t.slots[m].(tcIndex := if m == i then -1 else if m == j then tc else t.slots[m].tcIndex)
  {
    assert SlotOk(t, i);
    j := FindIndex(t.slots, |t.pids| - 1, 0);
    assert Owned(t, |t.pids| - 1);
  }

  lemma {:induction false} ClearSlotOk(t: Table, i: nat, m: nat)
    requires Ok(t) && i < SLOTS && m < SLOTS && Clearable(t, i)
    ensures |DoClearPid(t, i).slots| == SLOTS && SlotOk(DoClearPid(t, i), m)
  {
    assert SlotOk(t, i) && SlotOk(t, m);
    var j := ClearShape(t, i);
    hide DoClearPid;
    assert SlotOk(t, j);
  }

  lemma {:induction false} ClearOwned(t: Table, i: nat, k: nat)
    requires Ok(t) && i < SLOTS && Clearable(t, i) && k < |DoClearPid(t, i).pids|
    ensures Owned(DoClearPid(t, i), k)
  {
    assert SlotOk(t, i);
    var u := DoClearPid(t, i);
    var j := ClearShape(t, i);
    hide DoClearPid;
    assert Owned(t, k);
    var m :| 0 <= m < |t.slots| && t.slots[m].tcIndex == k;
    assert u.slots[if k == t.slots[i].tcIndex then j else m].tcIndex == k;
  }

  /** A deletion removes exactly the slot's PID: the others keep their slots. */
  lemma {:induction false} ClearPidOk(t: Table, i: nat)
    requires Ok(t) && i < SLOTS && Clearable(t, i)
    ensures Ok(DoClearPid(t, i))
    ensures forall p :: p in DoClearPid(t, i).pids <==> p in t.pids && p != t.slots[i].pid
    ensures DoClearPid(t, i).slots[i].tcIndex == -1
    ensures forall j :: 0 <= j < SLOTS && j != i ==>
              DoClearPid(t, i).slots[j].pid == t.slots[j].pid
              && (DoClearPid(t, i).slots[j].tcIndex >= 0 <==> t.slots[j].tcIndex >= 0)
  {
    var u, tc := DoClearPid(t, i), t.slots[i].tcIndex;
    assert SlotOk(t, i);
    var j := ClearShape(t, i);
    hide DoClearPid, SlotOk, Owned;
    forall m | 0 <= m < SLOTS
      ensures SlotOk(u, m)
    {
      ClearSlotOk(t, i, m);
    }
    forall k | 0 <= k < |u.pids|
      ensures Owned(u, k)
    {
      ClearOwned(t, i, k);
    }
    ClearedMembers(t.pids, tc);
  }

  /** Between the two writes of a deletion every other PID is still in the table. */
  lemma GapFilledKeeps(t: Table, i: nat)
    requires Matched(t) && i < SLOTS && Clearable(t, i)
    ensures 0 <= t.slots[i].tcIndex < |t.pids|
    ensures forall p :: p in t.pids && p != t.slots[i].pid ==> p in GapFilled(t, i)
    ensures forall p :: p in GapFilled(t, i) ==> p in t.pids
  {
    assert SlotOk(t, i);
    ClearedMembers(t.pids, t.slots[i].tcIndex);
    assert forall p :: p in GapFilled(t, i)[..|t.pids| - 1] ==> p in GapFilled(t, i);
  }

  lemma ClearedMembers(pids: seq<nat>, tc: nat)
    requires tc < |pids| && forall k, m :: 0 <= k < m < |pids| ==> pids[k] != pids[m]
    ensures var r := pids[tc := pids[|pids| - 1]][..|pids| - 1];
            forall p :: p in r <==> p in pids && p != pids[tc]
  {
    var n := |pids| - 1;
    var r := pids[tc := pids[n]][..n];
    forall p | p in pids && p != pids[tc]
      ensures p in r
    {
      var k :| 0 <= k < |pids| && pids[k] == p;
      assert r[if k == n then tc else k] == p;
    }
  }

  /** Freeing a slot keeps the correspondence exactly unless the slot holds the reserved
      PID: then the deletion refuses, but the slot lets go of its entry all the same. */
  lemma FreeSlotOkIff(t: Table, i: nat)
    requires Ok(t) && i < SLOTS
    ensures Ok(DoFreeSlot(t, i)) <==> !(t.slots[i].tcIndex >= 0 && t.slots[i].pid == NO_PID)
  {
    var u := DoFreeSlot(t, i);
    assert SlotOk(t, i);
    if t.slots[i].tcIndex >= 0 {
      if t.slots[i].pid == NO_PID {
        var tc := t.slots[i].tcIndex;
        assert u.pids == t.pids;
        forall j | 0 <= j < SLOTS
          ensures u.slots[j].tcIndex != tc
        {
        }
        assert !Owned(u, tc);
      } else {
        ClearPidOk(t, i);
        ReleaseOk(DoClearPid(t, i), i);
      }
    } else {
      ReleaseOk(t, i);
    }
  }

  lemma ReleaseOk(t: Table, i: nat)
    requires Ok(t) && i < SLOTS && t.slots[i].tcIndex == -1
    ensures Ok(t.(slots := t.slots[i := t.slots[i].(inUse := 0, pid := NO_PID, tcIndex := -1)]))
  {
    var u := t.(slots := t.slots[i := t.slots[i].(inUse := 0, pid := NO_PID, tcIndex := -1)]);
    forall j | 0 <= j < SLOTS
      ensures SlotOk(u, j)
    {
      assert SlotOk(t, j);
    }
    forall k | 0 <= k < |u.pids|
      ensures Owned(u, k)
    {
      assert Owned(t, k);
      var j :| 0 <= j < |t.slots| && t.slots[j].tcIndex == k;
      assert u.slots[j].tcIndex == k;
    }
  }

  // ---------------------------------------------------------------------------
  // Every sequence of operations
  // ---------------------------------------------------------------------------

  lemma {:induction false} ClearMatched(t: Table, i: nat)
    requires Matched(t) && i < SLOTS
    ensures Matched(DoClearPid(t, i))
  {
    assert SlotOk(t, i);
    if Clearable(t, i) {
      var u, n, tc := DoClearPid(t, i), |t.pids| - 1, t.slots[i].tcIndex;
      var j := FindIndex(t.slots, n, 0);
      forall m | 0 <= m < SLOTS
        ensures SlotOk(u, m) && (u.slots[m].tcIndex >= 0 ==> u.slots[m].tcIndex == (if m == j then tc else t.slots[m].tcIndex) && m != i)
      {
        assert SlotOk(t, m);
        assert m != i && m != j && t.slots[m].tcIndex >= 0 ==> t.slots[m].tcIndex != n && t.slots[m].tcIndex != tc;
      }
    }
  }

  lemma {:induction false} NewSlotMatched(t: Table)
    requires Matched(t)
    ensures Matched(DoGetNewSlot(t))
  {
    var u := DoGetNewSlot(t);
    forall j | 0 <= j < SLOTS
      ensures SlotOk(u, j)
    {
      assert SlotOk(t, j);
    }
  }

  lemma {:induction false} SetMatched(t: Table, handle: int, pid: nat)
    requires Matched(t)
    ensures Matched(DoSetPid(t, handle, pid))
  {
    var u, i := DoSetPid(t, handle, pid), Target(t, handle, pid);
    if i < SLOTS {
      forall j | 0 <= j < SLOTS
        ensures SlotOk(u, j) && (j != i ==> u.slots[j].tcIndex < |t.pids|)
      {
        assert SlotOk(t, j);
      }
      assert u.slots[i].tcIndex == |t.pids|;
      hide SlotOk, Target;
      forall k, m | 0 <= k < m < |u.pids|
        ensures u.pids[k] != u.pids[m]
      {
        assert t.pids[k] in t.pids;
      }
    }
  }

  lemma {:induction false} FreeMatched(t: Table, i: nat)
    requires Matched(t) && i < SLOTS
    ensures Matched(DoFreeSlot(t, i))
  {
    ClearMatched(t, i);
    var v := if t.slots[i].tcIndex != -1 then DoClearPid(t, i) else t;
    var u := DoFreeSlot(t, i);
    hide DoClearPid;
    forall j | 0 <= j < SLOTS
      ensures SlotOk(u, j)
    {
      assert SlotOk(v, j);
    }
  }

  /** Whatever is called, allowed or not: slots with a table index keep entries of their own
      with their PIDs, and the firmware never collects a PID twice. */
  lemma {:induction false} MatchedAlways(t: Table, op: Op)
    requires Matched(t) && (op.ClearPid? || op.FreeSlot? ==> op.slot < SLOTS)
    ensures Matched(Apply(t, op))
  {
    match op
    case GetNewSlot => NewSlotMatched(t);
    case SetPid(handle, pid) => SetMatched(t, handle, pid);
    case ClearPid(i) => ClearMatched(t, i);
    case FreeSlot(i) => FreeMatched(t, i);
  }

  /** Calls as they are meant: handles in range, no reserved PID, and a PID only for a
      slot that has none. */
  ghost predicate Allowed(t: Table, op: Op) {
    match op
    case GetNewSlot => true
    case SetPid(handle, pid) =>
      pid < NO_PID && var i := Target(t, handle, pid); (i < |t.slots| ==> t.slots[i].tcIndex < 0)
    case ClearPid(i) => i < |t.slots|
    case FreeSlot(i) => i < |t.slots|
  }

  ghost predicate AllAllowed(t: Table, ops: seq<Op>)
    decreases |ops|
  {
    ops != [] ==> Allowed(t, ops[0]) && AllAllowed(Apply(t, ops[0]), ops[1..])
  }

  function ApplyAll(t: Table, ops: seq<Op>): Table
    requires AllAllowed(t, ops)
    decreases |ops|
  {
    if ops == [] then t else ApplyAll(Apply(t, ops[0]), ops[1..])
  }

  lemma ApplyOk(t: Table, op: Op)
    requires Ok(t) && NoReservedPid(t) && Allowed(t, op)
    ensures Ok(Apply(t, op)) && NoReservedPid(Apply(t, op))
  {
    match op
    case GetNewSlot => GetNewSlotOk(t);
    case SetPid(handle, pid) => SetPidOkIff(t, handle, pid);
    case ClearPid(i) => ClearKeepsUnreserved(t, i);
    case FreeSlot(i) =>
      assert SlotOk(t, i);
      FreeSlotOkIff(t, i);
      ClearKeepsUnreserved(t, i);
  }

  lemma ClearKeepsUnreserved(t: Table, i: nat)
    requires Ok(t) && NoReservedPid(t) && i < SLOTS
    ensures Ok(DoClearPid(t, i)) && NoReservedPid(DoClearPid(t, i))
  {
    if Clearable(t, i) {
      ClearPidOk(t, i);
      var u := DoClearPid(t, i);
      forall k | 0 <= k < |u.pids|
        ensures u.pids[k] != NO_PID
      {
        assert u.pids[k] in u.pids;
      }
    }
  }

  /** After any sequence of operations the slots with a PID and the table entries are in
      one-to-one correspondence, no PID occurs twice and at most 32 are collected. */
  lemma {:induction false} SequencesKeepCorrespondence(t: Table, ops: seq<Op>)
    requires Ok(t) && NoReservedPid(t) && AllAllowed(t, ops)
    ensures Ok(ApplyAll(t, ops)) && |ApplyAll(t, ops).pids| <= SLOTS
    decreases |ops|
  {
    if ops == [] {
      TableFits(t, 0);
    } else {
      ApplyOk(t, ops[0]);
      SequencesKeepCorrespondence(Apply(t, ops[0]), ops[1..]);
    }
  }

  /** The start: every slot free, the table empty. */
  lemma StartOk(t: Table)
    requires t.pids == [] && |t.slots| == SLOTS
    requires forall i :: 0 <= i < SLOTS ==> t.slots[i] == Slot(SLOT_HANDLE_OFFSET + i, 0, -1, NO_PID)
    ensures Ok(t) && NoReservedPid(t)
  {
    forall i | 0 <= i < SLOTS
      ensures SlotOk(t, i)
    {
    }
  }

  /** A reserved PID leaks: set on a fresh slot and freed again, it is still collected and
      no slot points at it. */
  lemma ReservedPidLeaks(t: Table, i: nat)
    requires Ok(t) && i < SLOTS && t.slots[i].inUse == 1 && t.slots[i].tcIndex < 0 && NO_PID !in t.pids
    ensures var u := DoFreeSlot(DoSetPid(t, SLOT_HANDLE_OFFSET + i, NO_PID), i);
            NO_PID in u.pids && !Ok(u)
  {
    var v := DoSetPid(t, SLOT_HANDLE_OFFSET + i, NO_PID);
    assert FindHandle(t.slots, SLOT_HANDLE_OFFSET + i, 0) == i;
    SetPidOkIff(t, SLOT_HANDLE_OFFSET + i, NO_PID);
    FreeSlotOkIff(v, i);
    assert v.pids[|t.pids|] == NO_PID;
  }

  // ---------------------------------------------------------------------------
  // The driver
  // ---------------------------------------------------------------------------

  const HALF: nat := 0x1_0000

  /** The controller memory takes 32-bit writes only; the tables are 16-bit. Half-word `a`
      is the low or the high half of word `a / 2`. */
  class Controller {
    const dram: array<nat>
    const pidtable: nat
    const numPids: nat
    const vSlots: array<Slot>

    ghost predicate Valid()
      reads dram, vSlots
    {
      && vSlots.Length == SLOTS
      && (forall w :: 0 <= w < dram.Length ==> dram[w] < HALF * HALF)
      && pidtable + SLOTS <= 2 * dram.Length && numPids < 2 * dram.Length
      && (numPids < pidtable || pidtable + SLOTS <= numPids)
      && Half(numPids) <= SLOTS
    }

    function Half(a: nat): (h: nat)
      requires a < 2 * dram.Length
      reads dram
    {
      if a % 2 == 1 then dram[a / 2] / HALF else dram[a / 2] % HALF
    }

    /** The PIDs the firmware collects: the table up to its current length. */
    function Collected(): (pids: seq<nat>)
      requires Valid()
      reads dram, vSlots
      ensures |pids| == Half(numPids)
    {
      seq<nat>(Half(numPids), k requires 0 <= k < Half(numPids) && Valid() reads dram, vSlots => Half(pidtable + k))
    }

    function View(): Table
      requires Valid()
      reads dram, vSlots
    {
      Table(vSlots[..], Collected())
    }

    /** Reads the word, replaces one half, writes the word back: no other half-word of the
        memory changes. */
    method PtiWrite(a: nat, value: nat)
      requires a < 2 * dram.Length && value < HALF
      requires forall w :: 0 <= w < dram.Length ==> dram[w] < HALF * HALF
      modifies dram
      ensures forall w :: 0 <= w < dram.Length ==> dram[w] < HALF * HALF
      ensures Half(a) == value
      ensures forall b :: 0 <= b < 2 * dram.Length && b != a ==> Half(b) == old(Half(b))
    {
      var oldValue := dram[a / 2];
      if a % 2 == 1 {
        oldValue := oldValue % HALF + value * HALF;
      } else {
        oldValue := oldValue - oldValue % HALF + value;
      }
      dram[a / 2] := oldValue;
    }

    method IsCollecting(pid: nat) returns (found: bool)
      requires Valid() && pid < HALF
      ensures found <==> pid in Collected()
    {
      var v := 0;
      while v < Half(numPids)
        invariant 0 <= v <= Half(numPids)
        invariant pid !in Collected()[..v]
      {
        if Half(pidtable + v) == pid {
          assert Collected()[v] == pid;
          return true;
        }
        assert Collected()[..v + 1] == Collected()[..v] + [Collected()[v]];
        v := v + 1;
      }
      assert Collected()[..v] == Collected();
      return false;
    }

    /** One more entry: the PID first, then the length. */
    method Enter(pid: nat) returns (ghost midway: seq<nat>)
      requires Valid() && pid < HALF && Half(numPids) < SLOTS
      modifies dram
      ensures Valid() && Collected() == old(Collected()) + [pid]
      ensures midway == old(Collected())
    {
      var n := Half(numPids);
      PtiWrite(pidtable + n, pid);
      midway := Collected();
      assert midway == old(Collected());
      PtiWrite(numPids, n + 1);
    }

    /** One entry less: the last PID over the gap first, then the length. */
    method Drop(tc: nat) returns (ghost midway: seq<nat>)
      requires Valid() && tc < Half(numPids)
      modifies dram
      ensures Valid()
      ensures midway == old(Collected()[tc := Collected()[|Collected()| - 1]])
      ensures Collected() == midway[..|midway| - 1]
    {
      var n := Half(numPids) - 1;
      PtiWrite(pidtable + tc, Half(pidtable + n));
      midway := Collected();
      assert midway == old(Collected()[tc := Collected()[|Collected()| - 1]]);
      PtiWrite(numPids, n);
    }

    /** `midway` is what the firmware sees between the two writes: the same PIDs. */
    method SlotSetPid(slotHandle: int, pid: nat) returns (ret: int, ghost midway: seq<nat>)
      requires Valid() && pid < HALF
      requires Target(View(), slotHandle, pid) < SLOTS ==> Half(numPids) < SLOTS
      modifies dram, vSlots
      ensures Valid() && View() == old(DoSetPid(View(), slotHandle, pid))
      ensures ret == if old(Target(View(), slotHandle, pid)) < SLOTS then 0 else -1
      ensures midway == old(Collected())
    {
      midway := Collected();
      var found := IsCollecting(pid);
      if found {
        return -1, midway;
      }
      var v := 0;
      while v < SLOTS
        invariant 0 <= v <= SLOTS
        invariant FindHandle(vSlots[..], slotHandle, 0) == FindHandle(vSlots[..], slotHandle, v)
      {
        if vSlots[v].handle == slotHandle {
          if vSlots[v].inUse == 1 {
            var n := Half(numPids);
            vSlots[v] := vSlots[v].(pid := pid);
            vSlots[v] := vSlots[v].(tcIndex := n);
            midway := Enter(pid);
            return 0, midway;
          } else {
            return -1, midway;
          }
        }
        v := v + 1;
      }
      return -1, midway;
    }

    /** `midway` is what the firmware sees between the two writes: every PID but the one
        being removed is still collected. */
    method SlotClearPid(i: nat) returns (ret: int, ghost midway: seq<nat>)
      requires Valid() && i < SLOTS && Matched(View())
      modifies dram, vSlots
      ensures Valid() && View() == old(DoClearPid(View(), i))
      ensures ret == if old(Clearable(View(), i)) then 0 else -1
      ensures forall p :: p in old(Collected()) && (old(Clearable(View(), i)) ==> p != old(vSlots[i].pid)) ==> p in midway
      ensures forall p :: p in midway ==> p in old(Collected())
    {
      hide Matched;
      midway := Collected();
      if vSlots[i].tcIndex < 0 || vSlots[i].pid == NO_PID {
        return -1, midway;
      }

      ghost var t := View();
      GapFilledKeeps(t, i);
      midway := Drop(vSlots[i].tcIndex);
      assert midway == GapFilled(t, i);
      Reindex(i, Half(numPids));
      return 0, midway;
    }

    /** The slot of the moved PID takes over the gap's index, and slot `i` gives it up. */
    method Reindex(i: nat, n: int)
      requires vSlots.Length == SLOTS && i < SLOTS
      modifies vSlots
      ensures var s := old(vSlots[..]);
              var j := FindIndex(s, n, 0);
              var moved := if j == |s| then s else s[j := s[j].(tcIndex := s[i].tcIndex)];
              vSlots[..] == moved[i := moved[i].(tcIndex := -1)]
    {
      ghost var s := vSlots[..];
      var j := 0;
      while j < SLOTS
        invariant 0 <= j <= SLOTS && vSlots[..] == s
        invariant FindIndex(s, n, 0) == FindIndex(s, n, j)
      {
        if n == vSlots[j].tcIndex {
          vSlots[j] := vSlots[j].(tcIndex := vSlots[i].tcIndex);
          break;
        }
        j := j + 1;
      }
      vSlots[i] := vSlots[i].(tcIndex := -1);
    }

    method SlotFree(i: nat) returns (ret: int)
      requires Valid() && i < SLOTS && Matched(View())
      modifies dram, vSlots
      ensures Valid() && View() == old(DoFreeSlot(View(), i)) && ret == 0
    {
      if vSlots[i].tcIndex != -1 {
        var r, midway := SlotClearPid(i);
      }

      ghost var t := View();
      vSlots[i] := vSlots[i].(inUse := 0);
      vSlots[i] := vSlots[i].(pid := NO_PID);
      vSlots[i] := vSlots[i].(tcIndex := -1);
      assert View().pids == t.pids;
      return 0;
    }

    method GetNewSlotHandle() returns (handle: int)
      requires Valid()
      modifies vSlots
      ensures Valid() && View() == old(DoGetNewSlot(View()))
      ensures var i := old(FindFree(vSlots[..], 0)); handle == if i < SLOTS then old(vSlots[..])[i].handle else -1
    {
      ghost var t := View();
      var v := 0;
      while v < SLOTS
        invariant 0 <= v <= SLOTS && vSlots[..] == t.slots
        invariant FindFree(t.slots, 0) == FindFree(t.slots, v)
      {
        if vSlots[v].inUse == 0 {
          vSlots[v] := vSlots[v].(inUse := 1);
          vSlots[v] := vSlots[v].(tcIndex := -1);
          assert View().pids == t.pids;
          return vSlots[v].handle;
        }
        v := v + 1;
      }
      return -1;
    }
  }
}
