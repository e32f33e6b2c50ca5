/** The record an answer to reset is parsed into, in place, and printed from. */
module AtrRecord {
  import opened Common
  import opened Atr
  import opened ByteInvert

  datatype Slot = Slot(value: byte, present: bool)

  function Stored(s: Slot): Option<byte> {
    if s.present then Some(s.value) else None
  }

  /** How many groups the parser looks at, whether or not they are complete. */
  function Visited(bytes: seq<byte>, pointer: nat, td: byte): nat
    decreases |bytes| - pointer
  {
    if pointer + Ones(td) >= |bytes| then 0
    else
      var g := GroupAt(bytes, pointer, td);
      1 + if g.td.Some? then Visited(bytes, pointer + Ones(td), g.td.value) else 0
  }

  /** The record has room for seven groups; an eighth one would be written behind them. */
  predicate AtMostSevenGroups(buffer: seq<byte>) {
    |buffer| >= 2 ==> Visited(Normalised(buffer), 1, Normalised(buffer)[1]) <= 7
  }

  lemma {:induction false} BehindBoth(a: seq<Group>, b: seq<Group>, rest: Option<(seq<Group>, nat, bool)>)
    ensures Behind(a, Behind(b, rest)) == Behind(a + b, rest)
  {
    if rest.Some? {
      assert a + (b + rest.value.0) == (a + b) + rest.value.0;
    }
  }

  /** Reading one group moves it in front. */
  lemma {:induction false} OneMore(bytes: seq<byte>, pointer: nat, td: byte, check: bool, done: seq<Group>)
    requires pointer + Ones(td) < |bytes|
    ensures var g, p := GroupAt(bytes, pointer, td), pointer + Ones(td);
      Behind(done, GroupsFrom(bytes, pointer, td, check))
      == if g.td.None? then Some((done + [g], p, check))
         else Behind(done + [g], GroupsFrom(bytes, p, g.td.value, g.td.value % 16 != 0))
  {
    hide GroupAt, Ones, GroupsFrom;
    GroupsBuild(bytes, pointer, td, check);
    var g, p := GroupAt(bytes, pointer, td), pointer + Ones(td);
    if g.td.Some? {
      BehindBoth(done, [g], GroupsFrom(bytes, p, g.td.value, g.td.value % 16 != 0));
    }
  }

  /** Groups print one behind the other, and never longer than all of them. */
  lemma {:induction false} PrintNext(gs: seq<Group>, i: nat)
    requires i < |gs|
    ensures PrintGroups(gs[..i + 1]) == PrintGroups(gs[..i]) + PrintGroup(gs[i])
    ensures |PrintGroups(gs[..i + 1])| <= |PrintGroups(gs)|
  {
    hide PrintGroup, PrintGroups;
    PrintJoined(gs[..i], [gs[i]]);
    PrintMore(gs[i], []);
    assert gs[..i] + [gs[i]] == gs[..i + 1] && [gs[i]] + [] == [gs[i]];
    PrintJoined(gs[..i + 1], gs[i + 1..]);
    assert gs[..i + 1] + gs[i + 1..] == gs;
    assert PrintGroup(gs[i]) + [] == PrintGroup(gs[i]);
  }

  lemma {:induction false} PrintJoined(a: seq<Group>, b: seq<Group>)
    ensures PrintGroups(a + b) == PrintGroups(a) + PrintGroups(b)
    decreases |a|
  {
    hide PrintGroup;
    if a == [] {
      assert a + b == b;
    } else {
      PrintJoined(a[1..], b);
      assert (a + b)[1..] == a[1..] + b;
      var g := PrintGroup(a[0]);
      assert g + (PrintGroups(a[1..]) + PrintGroups(b)) == g + PrintGroups(a[1..]) + PrintGroups(b);
    }
  }

  lemma {:induction false} NoGroups()
    ensures PrintGroups([]) == []
  {
  }

  class Record {
    var length: nat
    var ts: byte
    var t0: byte
    const ib: array2<Slot>
    var tck: Slot
    var pn: nat
    const hb: array<byte>
    var hbn: nat

    ghost predicate Shaped()
      reads this
    {
      ib.Length0 == 7 && ib.Length1 == 4 && hb.Length == 15
    }

    ghost predicate Valid()
      reads this
    {
      Shaped() && pn <= 7 && hbn <= 15
    }

    function GroupOf(i: nat): Group
      requires i < ib.Length0 && ib.Length1 == 4
      reads ib
    {
      Group(Stored(ib[i, 0]), Stored(ib[i, 1]), Stored(ib[i, 2]), Stored(ib[i, 3]))
    }

    ghost function Groups(n: nat): (gs: seq<Group>)
      requires n <= ib.Length0 && ib.Length1 == 4
      reads ib
      ensures |gs| == n
    {
      seq(n, i requires 0 <= i < n <= ib.Length0 && ib.Length1 == 4 reads ib => GroupOf(i))
    }

    /** The answer the record stands for. */
    ghost function Value(): Answer
      requires Valid()
      reads this, ib, hb
    {
      Answer(ts, t0, Groups(pn), hb[..hbn], Stored(tck))
    }

    constructor ()
      ensures Valid() && fresh(ib) && fresh(hb)
    {
      length, ts, t0, pn, hbn, tck := 0, 0, 0, 0, 0, Slot(0, false);
      ib := new Slot[7, 4]((i, k) => Slot(0, false));
      hb := new byte[15](_ => 0);
    }

    /** One place of a group: the next byte if it is announced. */
    method ReadByte(bytes: array<byte>, n: nat, k: nat, from: nat, announced: bool) returns (pointer: nat)
      requires Shaped() && n < 7 && k < 4 && (announced ==> from + 1 < bytes.Length)
      modifies ib
      ensures pointer == if announced then from + 1 else from
      ensures Stored(ib[n, k]) == if announced then Some(bytes[from + 1]) else None
      ensures forall i, m :: 0 <= i < 7 && 0 <= m < 4 && (i != n || m != k) ==> ib[i, m] == old(ib[i, m])
    {
      pointer := from;
      if announced {
        pointer := pointer + 1;
        ib[n, k] := Slot(bytes[pointer], true);
      } else {
        ib[n, k] := ib[n, k].(present := false);
      }
    }

    /** Reads the announced bytes of one group, one after the other. */
    method ReadGroup(bytes: array<byte>, length: nat, n: nat, from: nat, td: byte) returns (pointer: nat)
      requires Shaped() && n < 7 && length <= bytes.Length && from + Ones(td) < length
      modifies ib
      ensures pointer == from + Ones(td)
      ensures GroupOf(n) == GroupAt(bytes[..length], from, td)
      ensures forall i, k :: 0 <= i < 7 && i != n && 0 <= k < 4 ==> ib[i, k] == old(ib[i, k])
    {
      hide Announced, Before;
      Befores(td);
      pointer := ReadByte(bytes, n, 0, from, Announced(td, 0));
      pointer := ReadByte(bytes, n, 1, pointer, Announced(td, 1));
      pointer := ReadByte(bytes, n, 2, pointer, Announced(td, 2));
      pointer := ReadByte(bytes, n, 3, pointer, Announced(td, 3));
    }

    /** Follows the chain of groups. */
    method ReadGroups(bytes: array<byte>, length: nat) returns (pointer: nat, ok: bool)
      requires Shaped() && 2 <= length <= bytes.Length && bytes != hb
      requires Visited(bytes[..length], 1, bytes[1]) <= 7
      modifies ib, this`tck, this`pn
      ensures var r := GroupsFrom(bytes[..length], 1, bytes[1], false);
        && ok == r.Some?
        && (ok ==> 1 <= pn <= 7 && (Groups(pn), pointer, tck.present) == r.value && pointer < length)
    {
      hide GroupsFrom, GroupAt, Ones, Visited, Announced, NumIb, Behind;
      ghost var all := bytes[..length];
      ghost var goal := GroupsFrom(all, 1, bytes[1], false);
      var n: nat, td := 0, bytes[1];
      pointer, ok := 1, true;
      tck := tck.(present := false);
      var more := true;
      assert Behind([], goal) == goal by { NothingBehind(goal); }
      while more
        invariant all == bytes[..length] && 1 <= pointer < length && n <= 7
        invariant more ==> n + Visited(all, pointer, td) <= 7
        invariant more ==> Behind(Groups(n), GroupsFrom(all, pointer, td, tck.present)) == goal
        invariant !more ==> n < 7 && goal == Some((Groups(n + 1), pointer, tck.present))
        decreases more, length - pointer
      {
        TableCounts(td);
        if pointer + NumIb(td / 16) >= length {
          GroupsBuild(all, pointer, td, tck.present);
          Nothing(Groups(n));
          return pointer, false;
        }
        OneMore(all, pointer, td, tck.present, Groups(n));
        VisitsOne(all, pointer, td);
        ghost var before := Groups(n);
        pointer := ReadGroup(bytes, length, n, pointer, td);
        assert Groups(n + 1) == before + [GroupOf(n)];
        if ib[n, 3].present {
          td := ib[n, 3].value;
          tck := tck.(present := td % 16 != 0);
          n := n + 1;
        } else {
          more := false;
        }
      }
      pn := n + 1;
    }

    lemma {:induction false} NothingBehind(r: Option<(seq<Group>, nat, bool)>)
      ensures Behind([], r) == r
    {
      if r.Some? {
        assert [] + r.value.0 == r.value.0;
      }
    }

    lemma {:induction false} Nothing(done: seq<Group>)
      ensures Behind(done, None) == None
    {
    }

    lemma {:induction false} VisitsOne(bytes: seq<byte>, pointer: nat, td: byte)
      requires pointer + Ones(td) < |bytes|
      ensures var g := GroupAt(bytes, pointer, td);
        && Visited(bytes, pointer, td) == 1 + (if g.td.Some? then Visited(bytes, pointer + Ones(td), g.td.value) else 0)
        && (g.td.Some? ==> Ones(td) > 0 && pointer + Ones(td) < |bytes| && Visited(bytes, pointer + Ones(td), g.td.value) >= 0)
    {
      GroupPrints(bytes, pointer, td);
      hide GroupAt, Ones;
    }

    /** Stores an answer of at most seven groups in the record. */
    method InitFromArray(buffer: array<byte>, len: nat) returns (ok: bool)
      requires Shaped() && len <= 33 && len <= buffer.Length && buffer != hb && AtMostSevenGroups(buffer[..len])
      modifies this, ib, hb
      ensures Shaped()
      ensures ok == Parse(buffer[..len]).Some?
      ensures ok ==> Valid() && (Value(), length) == Parse(buffer[..len]).value
    {
      hide GroupsFrom, Normalised, Visited, Plausible, Parse;
      if len < 2 {
        TooShort(buffer[..len]);
        return false;
      }
      var bytes := Normalise(buffer, len);
      ghost var all := bytes[..len];
      ts := bytes[0];
      t0 := bytes[1];
      hbn := t0 % 16;
      var pointer;
      pointer, ok := ReadGroups(bytes, len);
      if !ok || pointer + hbn >= len {
        ParseNeeds(buffer[..len]);
        return false;
      }
      var fits := StoreRest(bytes, pointer, len);
      if !fits {
        ParseNeeds(buffer[..len]);
        return false;
      }
      ok := CheckFirstGroup();
      ParseNeeds(buffer[..len]);
      if ok {
        ParseIs(buffer[..len]);
        assert all == bytes[..len];
        assert bytes[..len][pointer + 1..pointer + 1 + hbn] == bytes[pointer + 1..pointer + 1 + hbn];
      }
    }

    /** Historical bytes, the check byte if there is one, and the length. */
    method StoreRest(bytes: array<byte>, from: nat, len: nat) returns (fits: bool)
      requires Shaped() && hbn <= 15 && len <= bytes.Length && from + hbn < len && bytes != hb
      modifies hb, this`tck, this`length
      ensures fits == (from + hbn + (if tck.present then 1 else 0) < len) && tck.present == old(tck.present)
      ensures fits ==> hb[..hbn] == bytes[from + 1..from + 1 + hbn]
      ensures fits && tck.present ==> tck.value == bytes[from + 1 + hbn]
      ensures fits ==> length == from + 1 + hbn + if tck.present then 1 else 0
    {
      CopyHistorical(bytes, from + 1);
      var pointer := from + hbn;
      if tck.present {
        if pointer + 1 >= len {
          return false;
        }
        pointer := pointer + 1;
        tck := tck.(value := bytes[pointer]);
      }
      length := pointer + 1;
      return true;
    }

    lemma {:induction false} TooShort(buffer: seq<byte>)
      requires |buffer| < 2
      ensures Parse(buffer) == None
    {
      hide Normalised;
    }

    /** When a parse succeeds. */
    lemma {:induction false} ParseNeeds(buffer: seq<byte>)
      requires |buffer| >= 2
      ensures var bytes := Normalised(buffer);
        var r := GroupsFrom(bytes, 1, bytes[1], false);
        Parse(buffer).Some? <==>
          r.Some? && r.value.1 + bytes[1] % 16 + (if r.value.2 then 1 else 0) < |bytes| && Plausible(r.value.0)
    {
      hide Normalised, GroupsFrom, Plausible;
    }

    method Normalise(buffer: array<byte>, len: nat) returns (bytes: array<byte>)
      requires 2 <= len <= 33 && len <= buffer.Length
      ensures fresh(bytes) && bytes.Length == 33 && bytes[..len] == Normalised(buffer[..len])
    {
      hide Inverted;
      bytes := new byte[33];
      if buffer[0] == 0x03 {
        for pointer := 0 to len
          invariant forall i :: 0 <= i < pointer ==> bytes[i] == Inverted(buffer[i])
        {
          bytes[pointer] := Inverted(buffer[pointer]);
        }
      } else {
        forall i | 0 <= i < len {
          bytes[i] := buffer[i];
        }
      }
    }

    method CopyHistorical(bytes: array<byte>, from: nat)
      requires hb.Length == 15 && hbn <= 15 && from + hbn <= bytes.Length && bytes != hb
      modifies hb
      ensures hb[..hbn] == bytes[from..from + hbn]
    {
      forall i | 0 <= i < hbn {
        hb[i] := bytes[from + i];
      }
    }

    /** The checks on an answer of one group: a known clock rate and a voltage byte in range. */
    method CheckFirstGroup() returns (ok: bool)
      requires Shaped() && 1 <= pn <= 7
      ensures ok == Plausible(Groups(pn))
    {
      ok := true;
      assert Groups(pn)[0] == GroupOf(0);
      if pn == 1 && ib[0, 0].present {
        var fi := ib[0, 0].value / 16;
        if fi == 7 || fi == 8 || fi == 14 || fi == 15 {
          ok := false;
        }
      }
      if pn == 1 && ib[0, 1].present && ib[0, 1].value > 0x80 {
        ok := false;
      }
    }

    /** Appends a byte that is present. */
    method PutSlot(buffer: array<byte>, j: nat, s: Slot) returns (k: nat)
      requires j + |Shown(Stored(s))| <= buffer.Length
      modifies buffer
      ensures k == j + |Shown(Stored(s))| && buffer[..k] == old(buffer[..j]) + Shown(Stored(s))
    {
      k := j;
      if s.present {
        buffer[k] := s.value;
        k := k + 1;
      }
    }

    method PutGroup(buffer: array<byte>, j: nat, i: nat) returns (k: nat)
      requires Shaped() && i < 7 && j + |PrintGroup(GroupOf(i))| <= buffer.Length && buffer != hb
      modifies buffer
      ensures k == j + |PrintGroup(GroupOf(i))| && buffer[..k] == old(buffer[..j]) + PrintGroup(GroupOf(i))
    {
      hide Shown, Stored;
      k := PutSlot(buffer, j, ib[i, 0]);
      k := PutSlot(buffer, k, ib[i, 1]);
      k := PutSlot(buffer, k, ib[i, 2]);
      k := PutSlot(buffer, k, ib[i, 3]);
    }

    method PutHistorical(buffer: array<byte>, j: nat) returns (k: nat)
      requires Valid() && buffer != hb && j + hbn <= buffer.Length
      modifies buffer
      ensures k == j + hbn && buffer[..k] == old(buffer[..j]) + hb[..hbn]
    {
      k := j;
      if hbn > 0 {
        forall i | 0 <= i < hbn {
          buffer[k + i] := hb[i];
        }
        k := k + hbn;
      }
    }

    /** Prints the record. */
    method GetRaw(buffer: array<byte>) returns (len: nat)
      requires Valid() && buffer != hb && |Print(Value())| <= buffer.Length
      modifies buffer
      ensures len == |Print(Value())| && buffer[..len] == Print(Value())
    {
      hide PrintGroup, GroupOf, PrintGroups, Stored, Shown;
      ghost var gs := Groups(pn);
      assert Print(Value()) == [ts, t0] + PrintGroups(gs) + hb[..hbn] + Shown(Stored(tck));
      buffer[0] := ts;
      buffer[1] := t0;
      var j := 2;
      assert gs[..0] == [];
      NoGroups();
      for i := 0 to pn
        invariant gs == Groups(pn) && j == 2 + |PrintGroups(gs[..i])| && j <= buffer.Length
        invariant buffer[..j] == [ts, t0] + PrintGroups(gs[..i])
      {
        PrintNext(gs, i);
        j := PutGroup(buffer, j, i);
      }
      assert gs[..pn] == gs;
      j := PutHistorical(buffer, j);
      j := PutSlot(buffer, j, tck);
      len := j;
    }
  }
}
