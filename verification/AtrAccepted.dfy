/** Exactly which answers to reset are accepted: those put together by the rules of section 8.2
    of ISO/IEC 7816-3, whatever follows them in the buffer. */
module AtrAccepted {
  import opened Common
  import opened ByteInvert
  import opened Atr

  /** The high half of the byte in front announces exactly the bytes the group has. */
  predicate Fits(t: byte, g: Group) {
    && (g.ta.Some? <==> t / 16 % 2 == 1) && (g.tb.Some? <==> t / 32 % 2 == 1)
    && (g.tc.Some? <==> t / 64 % 2 == 1) && (g.td.Some? <==> t / 128 == 1)
  }

  /** Each group is announced by the byte in front of it, and the last one announces none. */
  predicate Chained(t: byte, gs: seq<Group>)
    decreases |gs|
  {
    && gs != [] && Fits(t, gs[0])
    && if gs[0].td.Some? then Chained(gs[0].td.value, gs[1..]) else |gs| == 1
  }

  /** A check byte ends the answer if the last `TD` byte names another protocol than zero. */
  predicate Checked(gs: seq<Group>) {
    |gs| > 1 && gs[|gs| - 2].td.Some? && gs[|gs| - 2].td.value % 16 != 0
  }

  /** An answer as the rules ask for; of a single group the clock rate and voltage must be
      among those defined. */
  predicate WellBuilt(a: Answer) {
    && a.ts != 0x03 && Chained(a.t0, a.groups)
    && |a.hb| == a.t0 % 16 && (a.tck.Some? <==> Checked(a.groups))
    && (|a.groups| == 1 ==>
          var g := a.groups[0];
          && (g.ta.Some? ==> g.ta.value / 16 !in {7, 8, 14, 15})
          && (g.tb.Some? ==> g.tb.value <= 0x80))
  }

  // ---------------------------------------------------------------------------
  // What was put together is taken apart again
  // ---------------------------------------------------------------------------

  lemma FitsAnnounced(t: byte, g: Group)
    requires Fits(t, g)
    ensures Announced(t, 0) == g.ta.Some? && Announced(t, 1) == g.tb.Some?
    ensures Announced(t, 2) == g.tc.Some? && Announced(t, 3) == g.td.Some?
    ensures Ones(t) == |PrintGroup(g)|
  {
  }

  lemma ByteIs(bytes: seq<byte>, pointer: nat, t: byte, k: nat, b: Option<byte>)
    requires k < 4 && pointer + Ones(t) < |bytes| && Announced(t, k) == b.Some?
    requires b.Some? ==> bytes[pointer + 1 + Before(t, k)] == b.value
    ensures Byte(bytes, pointer, t, k) == b
  {
    hide Announced, Ones, Before;
  }

  lemma Places(g: Group)
    ensures var p, a, b, c := PrintGroup(g), |Shown(g.ta)|, |Shown(g.ta)| + |Shown(g.tb)|, |Shown(g.ta)| + |Shown(g.tb)| + |Shown(g.tc)|;
      && |p| == c + |Shown(g.td)|
      && (g.ta.Some? ==> p[0] == g.ta.value) && (g.tb.Some? ==> p[a] == g.tb.value)
      && (g.tc.Some? ==> p[b] == g.tc.value) && (g.td.Some? ==> p[c] == g.td.value)
  {
  }

  lemma InSlice(bytes: seq<byte>, from: nat, p: seq<byte>)
    requires from + |p| <= |bytes| && bytes[from..from + |p|] == p
    ensures forall i :: 0 <= i < |p| ==> p[i] == bytes[from + i]
  {
    assert forall i :: 0 <= i < |p| ==> p[i] == bytes[from..from + |p|][i];
  }

  lemma GroupBack(bytes: seq<byte>, pointer: nat, t: byte, g: Group)
    requires Fits(t, g) && pointer + |PrintGroup(g)| < |bytes|
    requires bytes[pointer + 1..pointer + 1 + |PrintGroup(g)|] == PrintGroup(g)
    ensures Ones(t) == |PrintGroup(g)| && GroupAt(bytes, pointer, t) == g
  {
    FitsAnnounced(t, g);
    Befores(t);
    Places(g);
    var p := PrintGroup(g);
    InSlice(bytes, pointer + 1, p);
    hide Announced, Ones, Before, PrintGroup, Fits, Byte;
    ByteIs(bytes, pointer, t, 0, g.ta);
    ByteIs(bytes, pointer, t, 1, g.tb);
    ByteIs(bytes, pointer, t, 2, g.tc);
    ByteIs(bytes, pointer, t, 3, g.td);
  }

  lemma {:induction false} GroupsBack(bytes: seq<byte>, pointer: nat, t: byte, check: bool, gs: seq<Group>)
    requires Chained(t, gs) && pointer + |PrintGroups(gs)| < |bytes|
    requires bytes[pointer + 1..pointer + 1 + |PrintGroups(gs)|] == PrintGroups(gs)
    ensures GroupsFrom(bytes, pointer, t, check)
         == Some((gs, pointer + |PrintGroups(gs)|, if |gs| == 1 then check else Checked(gs)))
    decreases |gs|
  {
    hide GroupAt, Ones, PrintGroup, GroupsFrom, PrintGroups, Fits;
    var g, rest := gs[0], gs[1..];
    assert gs == [g] + rest;
    PrintMore(g, rest);
    var p := PrintGroup(g);
    assert bytes[pointer + 1..pointer + 1 + |p|] == PrintGroups(gs)[..|p|];
    GroupBack(bytes, pointer, t, g);
    GroupsBuild(bytes, pointer, t, check);
    if g.td.Some? {
      var q := pointer + |p|;
      assert bytes[q + 1..q + 1 + |PrintGroups(rest)|] == PrintGroups(gs)[|p|..];
      GroupsBack(bytes, q, g.td.value, g.td.value % 16 != 0, rest);
      assert |rest| > 1 ==> gs[|gs| - 2] == rest[|rest| - 2];
      assert |rest| == 1 ==> gs[|gs| - 2] == g;
    } else {
      assert rest == [] && gs == [g];
    }
  }

  /** An answer put together by the rules is accepted with all its parts, whatever is behind it
      in the buffer, also if the card turned its bytes round. */
  lemma BuiltParses(buffer: seq<byte>, a: Answer)
    requires WellBuilt(a) && |Print(a)| <= |buffer| && Normalised(buffer)[..|Print(a)|] == Print(a)
    ensures Parse(buffer) == Some((a, |Print(a)|))
  {
    hide GroupsFrom, PrintGroups, Normalised, Chained, Checked, Parse;
    var bytes, gs, p := Normalised(buffer), PrintGroups(a.groups), Print(a);
    PrintParts(a);
    SameLength(buffer);
    var end := 2 + |gs| + |a.hb|;
    InPrefix(bytes, p, 2, 2 + |gs|);
    InPrefix(bytes, p, 2 + |gs|, end);
    ChainedSome(a.t0, a.groups);
    GroupsBack(bytes, 1, a.t0, false, a.groups);
    OneGroupUnchecked(a.groups);
    ParseFrom(buffer);
    ParseIs(buffer);
    var b := Parse(buffer).value.0;
    assert b.ts == a.ts && b.t0 == a.t0 && b.groups == a.groups;
    assert b.hb == a.hb;
    assert b.tck == a.tck;
  }

  lemma InPrefix(bytes: seq<byte>, p: seq<byte>, i: nat, j: nat)
    requires |p| <= |bytes| && bytes[..|p|] == p && i <= j <= |p|
    ensures bytes[i..j] == p[i..j] && forall k :: 0 <= k < |p| ==> p[k] == bytes[k]
  {
    assert p[i..j] == bytes[..|p|][i..j];
    assert forall k :: 0 <= k < |p| ==> p[k] == bytes[..|p|][k];
  }

  lemma ChainedSome(t: byte, gs: seq<Group>)
    requires Chained(t, gs)
    ensures gs != []
  {
  }

  lemma OneGroupUnchecked(gs: seq<Group>)
    ensures |gs| == 1 ==> !Checked(gs)
  {
  }

  lemma PrintParts(a: Answer)
    ensures var p, gs := Print(a), PrintGroups(a.groups);
      var end := 2 + |gs| + |a.hb|;
      && |p| == end + (if a.tck.Some? then 1 else 0)
      && p[0] == a.ts && p[1] == a.t0 && p[2..2 + |gs|] == gs && p[2 + |gs|..end] == a.hb
      && (a.tck.Some? ==> p[end] == a.tck.value)
  {
    hide PrintGroups;
  }

  // ---------------------------------------------------------------------------
  // Nothing else is accepted
  // ---------------------------------------------------------------------------

  lemma AnnouncedFits(bytes: seq<byte>, pointer: nat, t: byte)
    requires pointer + Ones(t) < |bytes|
    ensures Fits(t, GroupAt(bytes, pointer, t))
  {
    hide Ones, Before;
  }

  lemma {:induction false} GroupsChained(bytes: seq<byte>, pointer: nat, t: byte, check: bool)
    requires GroupsFrom(bytes, pointer, t, check).Some?
    ensures var (gs, p, c) := GroupsFrom(bytes, pointer, t, check).value;
      Chained(t, gs) && c == if |gs| == 1 then check else Checked(gs)
    decreases |bytes| - pointer
  {
    hide GroupAt, Ones, GroupsFrom, Fits;
    GroupsStep(bytes, pointer, t, check);
    AnnouncedFits(bytes, pointer, t);
    GroupPrints(bytes, pointer, t);
    var g, p := GroupAt(bytes, pointer, t), pointer + Ones(t);
    if g.td.Some? {
      GroupsChained(bytes, p, g.td.value, g.td.value % 16 != 0);
      var gs := GroupsFrom(bytes, p, g.td.value, g.td.value % 16 != 0).value.0;
      assert ([g] + gs)[1..] == gs;
    }
  }

  lemma ParsedIsBuilt(buffer: seq<byte>)
    requires Parse(buffer).Some?
    ensures WellBuilt(Parse(buffer).value.0)
  {
    hide GroupsFrom, Normalised, Chained, Checked, Parse;
    ParseIs(buffer);
    NotInverse(buffer);
    var bytes := Normalised(buffer);
    GroupsChained(bytes, 1, bytes[1], false);
    OneGroupUnchecked(GroupsFrom(bytes, 1, bytes[1], false).value.0);
  }

  lemma ParsedWhole(buffer: seq<byte>)
    requires Parse(buffer).Some?
    ensures Parse(buffer).value.1 == |Print(Parse(buffer).value.0)|
  {
    hide Print, Parse, Normalised;
    PrintsWhatWasParsed(buffer);
    SameLength(buffer);
  }

  lemma SameLength(buffer: seq<byte>)
    ensures |Normalised(buffer)| == |buffer|
  {
  }

  /** A buffer is accepted as an answer exactly if the answer is put together by the rules and
      its bytes are the first of the buffer, in either convention. */
  lemma ParsesIff(buffer: seq<byte>, a: Answer, n: nat)
    ensures Parse(buffer) == Some((a, n)) <==>
      WellBuilt(a) && n == |Print(a)| <= |buffer| && Normalised(buffer)[..n] == Print(a)
  {
    hide WellBuilt, Print, Parse, Normalised;
    SameLength(buffer);
    if Parse(buffer) == Some((a, n)) {
      ParsedIsBuilt(buffer);
      ParsedWhole(buffer);
      PrintsWhatWasParsed(buffer);
    }
    if WellBuilt(a) && n == |Print(a)| <= |buffer| && Normalised(buffer)[..n] == Print(a) {
      BuiltParses(buffer, a);
    }
  }

  /** The bytes are turned round exactly if the first one is 0x03. */
  lemma NormalisedIs(buffer: seq<byte>, i: nat)
    requires i < |buffer|
    ensures Normalised(buffer)[i] == if buffer[0] == 0x03 then Inverted(buffer[i]) else buffer[i]
  {
    hide Inverted;
  }
}
