/** The answer to reset of a smart card (section 8.2 of ISO/IEC 7816-3): a parser that follows
    the chain of interface bytes, and a printer that puts the bytes together again. */
module Atr {
  import opened Common
  import opened ByteInvert

  /** A group of interface bytes. */
  datatype Group = Group(ta: Option<byte>, tb: Option<byte>, tc: Option<byte>, td: Option<byte>)

  datatype Answer = Answer(ts: byte, t0: byte, groups: seq<Group>, hb: seq<byte>, tck: Option<byte>)

  // ---------------------------------------------------------------------------
  // Parsing
  // ---------------------------------------------------------------------------

  /** Bytes of a card with the inverse convention are turned round. */
  function Normalised(bytes: seq<byte>): (r: seq<byte>)
    ensures |r| == |bytes|
  {
    if bytes != [] && bytes[0] == 0x03 then seq(|bytes|, i requires 0 <= i < |bytes| => Inverted(bytes[i])) else bytes
  }

  /** Whether the high half of a `TD` byte announces interface byte `k` of the next group. */
  predicate Announced(td: byte, k: nat) {
    if k == 0 then td / 16 % 2 == 1 else if k == 1 then td / 32 % 2 == 1
    else if k == 2 then td / 64 % 2 == 1 else td / 128 == 1
  }

  /** The table of how many bytes are announced. */
  function NumIb(n: nat): nat {
    if n == 0 then 0 else if n == 1 then 1 else if n == 2 then 1 else if n == 3 then 2
    else if n == 4 then 1 else if n == 5 then 2 else if n == 6 then 2 else if n == 7 then 3
    else if n == 8 then 1 else if n == 9 then 2 else if n == 10 then 2 else if n == 11 then 3
    else if n == 12 then 2 else if n == 13 then 3 else if n == 14 then 3 else 4
  }

  function Ones(td: byte): nat {
    (if Announced(td, 0) then 1 else 0) + (if Announced(td, 1) then 1 else 0)
    + (if Announced(td, 2) then 1 else 0) + (if Announced(td, 3) then 1 else 0)
  }

  lemma {:induction false} TableCounts(td: byte)
    ensures NumIb(td / 16) == Ones(td)
  {
    HalfBits(td, td / 16);
    var n := td / 16;
    if n == 0 { } else if n == 1 { } else if n == 2 { } else if n == 3 { }
    else if n == 4 { } else if n == 5 { } else if n == 6 { } else if n == 7 { }
    else if n == 8 { } else if n == 9 { } else if n == 10 { } else if n == 11 { }
    else if n == 12 { } else if n == 13 { } else if n == 14 { } else { assert n == 15; }
  }

  lemma {:induction false} HalfBits(td: byte, n: nat)
    requires n == td / 16
    ensures Announced(td, 0) <==> n % 2 == 1
    ensures Announced(td, 1) <==> n / 2 % 2 == 1
    ensures Announced(td, 2) <==> n / 4 % 2 == 1
    ensures Announced(td, 3) <==> n / 8 == 1
  {
    assert td / 32 == n / 2 && td / 64 == n / 4 && td / 128 == n / 8;
  }

  /** Interface byte `k`, if announced, is behind those announced before it. */
  function Byte(bytes: seq<byte>, pointer: nat, td: byte, k: nat): Option<byte>
    requires k < 4 && pointer + Ones(td) < |bytes|
  {
    if Announced(td, k) then Some(bytes[pointer + Before(td, k) + 1]) else None
  }

  function Before(td: byte, k: nat): (n: nat)
    ensures k < 4 ==> n + (if Announced(td, k) then 1 else 0) <= Ones(td)
  {
    if k == 0 then 0 else if k == 1 then if Announced(td, 0) then 1 else 0
    else if k == 2 then (if Announced(td, 0) then 1 else 0) + (if Announced(td, 1) then 1 else 0)
    else (if Announced(td, 0) then 1 else 0) + (if Announced(td, 1) then 1 else 0) + (if Announced(td, 2) then 1 else 0)
  }

  function GroupAt(bytes: seq<byte>, pointer: nat, td: byte): Group
    requires pointer + Ones(td) < |bytes|
  {
    Group(Byte(bytes, pointer, td, 0), Byte(bytes, pointer, td, 1), Byte(bytes, pointer, td, 2), Byte(bytes, pointer, td, 3))
  }

  /** The groups from `pointer` on, where they end, and whether a check byte follows; nothing if
      the bytes end too early. */
  function GroupsFrom(bytes: seq<byte>, pointer: nat, td: byte, check: bool): Option<(seq<Group>, nat, bool)>
    decreases |bytes| - pointer
  {
    if pointer + Ones(td) >= |bytes| then None
    else
      var g, p := GroupAt(bytes, pointer, td), pointer + Ones(td);
      if g.td.None? then Some(([g], p, check))
      else Behind([g], GroupsFrom(bytes, p, g.td.value, g.td.value % 16 != 0))
  }

  /** Groups in front of parsed ones. */
  function Behind(done: seq<Group>, rest: Option<(seq<Group>, nat, bool)>): Option<(seq<Group>, nat, bool)> {
    match rest
    case None => None
    case Some(r) => Some((done + r.0, r.1, r.2))
  }

  /** The two checks at the end, on an answer of one group. */
  predicate Plausible(groups: seq<Group>) {
    |groups| == 1 ==>
      && (groups[0].ta.Some? ==> groups[0].ta.value / 16 !in {7, 8, 14, 15})
      && (groups[0].tb.Some? ==> groups[0].tb.value <= 0x80)
  }

  /** The parsed answer and the number of bytes it takes; nothing if it is malformed. */
  function Parse(buffer: seq<byte>): Option<(Answer, nat)> {
    var bytes := Normalised(buffer);
    if |bytes| < 2 then None
    else
      match GroupsFrom(bytes, 1, bytes[1], false)
      case None => None
      case Some((groups, p, check)) =>
        var hbn := bytes[1] % 16;
        if p + hbn + (if check then 1 else 0) >= |bytes| then None
        else if !Plausible(groups) then None
        else
          Some((Answer(bytes[0], bytes[1], groups, bytes[p + 1..p + 1 + hbn], if check then Some(bytes[p + 1 + hbn]) else None),
                p + 1 + hbn + if check then 1 else 0))
  }

  // ---------------------------------------------------------------------------
  // Printing
  // ---------------------------------------------------------------------------

  function Shown(b: Option<byte>): seq<byte> {
    if b.Some? then [b.value] else []
  }

  function PrintGroup(g: Group): seq<byte> {
    Shown(g.ta) + Shown(g.tb) + Shown(g.tc) + Shown(g.td)
  }

  function PrintGroups(gs: seq<Group>): seq<byte> {
    if gs == [] then [] else PrintGroup(gs[0]) + PrintGroups(gs[1..])
  }

  function Print(a: Answer): seq<byte> {
    [a.ts, a.t0] + PrintGroups(a.groups) + a.hb + Shown(a.tck)
  }

  // ---------------------------------------------------------------------------
  // Round trips
  // ---------------------------------------------------------------------------

  /** How many of the first `k` interface bytes are announced. */
  lemma {:induction false} Befores(td: byte)
    ensures Before(td, 0) == 0 && Before(td, 1) == Before(td, 0) + (if Announced(td, 0) then 1 else 0)
    ensures Before(td, 2) == Before(td, 1) + (if Announced(td, 1) then 1 else 0)
    ensures Before(td, 3) == Before(td, 2) + (if Announced(td, 2) then 1 else 0)
    ensures Ones(td) == Before(td, 3) + (if Announced(td, 3) then 1 else 0)
  {
    hide Announced;
  }

  lemma {:induction false} BytePrints(bytes: seq<byte>, pointer: nat, td: byte, k: nat)
    requires k < 4 && pointer + Ones(td) < |bytes|
    ensures var from := pointer + 1 + Before(td, k);
      var to := from + if Announced(td, k) then 1 else 0;
      to <= |bytes| && Shown(Byte(bytes, pointer, td, k)) == bytes[from..to]
  {
    hide Announced, Ones, Before;
  }

  lemma {:induction false} GroupPrints(bytes: seq<byte>, pointer: nat, td: byte)
    requires pointer + Ones(td) < |bytes|
    ensures PrintGroup(GroupAt(bytes, pointer, td)) == bytes[pointer + 1..pointer + 1 + Ones(td)]
    ensures GroupAt(bytes, pointer, td).td.Some? ==> Ones(td) > 0 && GroupAt(bytes, pointer, td).td.value == bytes[pointer + Ones(td)]
  {
    FourPrint(bytes, pointer, td);
    LastByte(bytes, pointer, td);
    hide Announced, Ones, Before, Shown, Byte;
  }

  lemma {:induction false} FourPrint(bytes: seq<byte>, pointer: nat, td: byte)
    requires pointer + Ones(td) < |bytes|
    ensures Shown(Byte(bytes, pointer, td, 0)) + Shown(Byte(bytes, pointer, td, 1))
            + Shown(Byte(bytes, pointer, td, 2)) + Shown(Byte(bytes, pointer, td, 3))
         == bytes[pointer + 1..pointer + 1 + Ones(td)]
  {
    hide Announced, Ones, Before, Shown, Byte;
    Befores(td);
    BytePrints(bytes, pointer, td, 0);
    BytePrints(bytes, pointer, td, 1);
    BytePrints(bytes, pointer, td, 2);
    BytePrints(bytes, pointer, td, 3);
    var p := pointer + 1;
    FourSlices(bytes, p, p + Before(td, 1), p + Before(td, 2), p + Before(td, 3), p + Ones(td));
  }

  lemma {:induction false} FourSlices(s: seq<byte>, p: nat, a: nat, b: nat, c: nat, d: nat)
    requires p <= a <= b <= c <= d <= |s|
    ensures s[p..a] + s[a..b] + s[b..c] + s[c..d] == s[p..d]
  {
  }

  lemma {:induction false} LastByte(bytes: seq<byte>, pointer: nat, td: byte)
    requires pointer + Ones(td) < |bytes|
    ensures Byte(bytes, pointer, td, 3).Some? ==> Ones(td) > 0 && Byte(bytes, pointer, td, 3).value == bytes[pointer + Ones(td)]
  {
    hide Announced;
  }

  lemma {:induction false} GroupsStep(bytes: seq<byte>, pointer: nat, td: byte, check: bool)
    requires GroupsFrom(bytes, pointer, td, check).Some?
    ensures pointer + Ones(td) < |bytes|
    ensures var g, p := GroupAt(bytes, pointer, td), pointer + Ones(td);
      if g.td.None? then GroupsFrom(bytes, pointer, td, check) == Some(([g], p, check))
      else
        var rest := GroupsFrom(bytes, p, g.td.value, g.td.value % 16 != 0);
        rest.Some? && GroupsFrom(bytes, pointer, td, check) == Some(([g] + rest.value.0, rest.value.1, rest.value.2))
  {
    hide GroupAt, Ones;
  }

  lemma {:induction false} PrintMore(g: Group, gs: seq<Group>)
    ensures PrintGroups([g] + gs) == PrintGroup(g) + PrintGroups(gs) && PrintGroups([]) == []
  {
    hide PrintGroup;
    assert ([g] + gs)[1..] == gs;
  }

  lemma {:induction false} GroupsPrint(bytes: seq<byte>, pointer: nat, td: byte, check: bool)
    requires GroupsFrom(bytes, pointer, td, check).Some?
    ensures var (gs, p, c) := GroupsFrom(bytes, pointer, td, check).value;
      && pointer <= p < |bytes| && gs != [] && PrintGroups(gs) == bytes[pointer + 1..p + 1]
    decreases |bytes| - pointer
  {
    hide GroupAt, PrintGroup, PrintGroups, GroupsFrom, Ones;
    GroupsStep(bytes, pointer, td, check);
    GroupPrints(bytes, pointer, td);
    var g, p := GroupAt(bytes, pointer, td), pointer + Ones(td);
    if g.td.Some? {
      GroupsPrint(bytes, p, g.td.value, g.td.value % 16 != 0);
      var (gs, q, c) := GroupsFrom(bytes, p, g.td.value, g.td.value % 16 != 0).value;
      PrintMore(g, gs);
      assert bytes[pointer + 1..p + 1] + bytes[p + 1..q + 1] == bytes[pointer + 1..q + 1];
    } else {
      PrintMore(g, []);
      assert [g] + [] == [g] && PrintGroup(g) + [] == PrintGroup(g);
    }
  }

  /** What is behind the groups: historical bytes, and maybe the check byte. */
  lemma {:induction false} ParseIs(buffer: seq<byte>)
    requires Parse(buffer).Some?
    ensures var bytes := Normalised(buffer);
      && |bytes| >= 2 && GroupsFrom(bytes, 1, bytes[1], false).Some?
      && var (gs, p, check) := GroupsFrom(bytes, 1, bytes[1], false).value;
         var end := p + 1 + bytes[1] % 16;
         var (a, n) := Parse(buffer).value;
         && n == (if check then end + 1 else end) && n <= |bytes| && p < |bytes|
         && a == Answer(bytes[0], bytes[1], gs, bytes[p + 1..end], if check then Some(bytes[end]) else None)
         && Plausible(gs)
  {
    hide GroupsFrom, Normalised, Plausible;
  }

  /** The converse: these conditions are all a parse needs. */
  lemma {:induction false} ParseFrom(buffer: seq<byte>)
    requires var bytes := Normalised(buffer);
      && |bytes| >= 2 && GroupsFrom(bytes, 1, bytes[1], false).Some?
      && var (gs, p, check) := GroupsFrom(bytes, 1, bytes[1], false).value;
         p + bytes[1] % 16 + (if check then 1 else 0) < |bytes| && Plausible(gs)
    ensures Parse(buffer).Some?
  {
    hide GroupsFrom, Normalised, Plausible;
  }

  /** Printing a parsed answer gives exactly the bytes it was parsed from. */
  lemma {:induction false} PrintsWhatWasParsed(buffer: seq<byte>)
    requires Parse(buffer).Some?
    ensures var (a, n) := Parse(buffer).value;
      n <= |buffer| && Print(a) == Normalised(buffer)[..n]
  {
    hide GroupsFrom, PrintGroups, Normalised, Plausible, Parse;
    ParseIs(buffer);
    var bytes := Normalised(buffer);
    GroupsPrint(bytes, 1, bytes[1], false);
    var (gs, p, check) := GroupsFrom(bytes, 1, bytes[1], false).value;
    var end := p + 1 + bytes[1] % 16;
    var (a, n) := Parse(buffer).value;
    assert bytes[..p + 1] == [a.ts, a.t0] + bytes[2..p + 1];
    assert bytes[..end] == bytes[..p + 1] + bytes[p + 1..end];
    assert check ==> bytes[..end + 1] == bytes[..end] + [bytes[end]];
    assert bytes[..end] + [] == bytes[..end];
  }

  lemma {:induction false} GroupDepends(a: seq<byte>, b: seq<byte>, pointer: nat, td: byte)
    requires pointer + Ones(td) < |a| && pointer + Ones(td) < |b|
    requires a[..pointer + Ones(td) + 1] == b[..pointer + Ones(td) + 1]
    ensures GroupAt(a, pointer, td) == GroupAt(b, pointer, td)
  {
    hide Announced, Ones;
    ByteDepends(a, b, pointer, td, 0);
    ByteDepends(a, b, pointer, td, 1);
    ByteDepends(a, b, pointer, td, 2);
    ByteDepends(a, b, pointer, td, 3);
    hide Byte;
  }

  lemma {:induction false} ByteDepends(a: seq<byte>, b: seq<byte>, pointer: nat, td: byte, k: nat)
    requires k < 4 && pointer + Ones(td) < |a| && pointer + Ones(td) < |b|
    requires a[..pointer + Ones(td) + 1] == b[..pointer + Ones(td) + 1]
    ensures Byte(a, pointer, td, k) == Byte(b, pointer, td, k)
  {
    hide Announced, Ones, Before;
    if Announced(td, k) {
      var i := pointer + Before(td, k) + 1;
      assert a[i] == a[..pointer + Ones(td) + 1][i] == b[i];
    }
  }

  /** Bytes behind the groups do not change them. */
  lemma {:induction false} GroupsDepend(a: seq<byte>, b: seq<byte>, pointer: nat, td: byte, check: bool)
    requires GroupsFrom(a, pointer, td, check).Some?
    requires var p := GroupsFrom(a, pointer, td, check).value.1;
      p < |a| && p < |b| && a[..p + 1] == b[..p + 1]
    ensures GroupsFrom(b, pointer, td, check) == GroupsFrom(a, pointer, td, check)
    decreases |a| - pointer
  {
    hide GroupAt, Ones, PrintGroups, PrintGroup, GroupsFrom;
    GroupsPrint(a, pointer, td, check);
    GroupsStep(a, pointer, td, check);
    var g, p, q := GroupAt(a, pointer, td), pointer + Ones(td), GroupsFrom(a, pointer, td, check).value.1;
    if g.td.Some? {
      GroupsPrint(a, p, g.td.value, g.td.value % 16 != 0);
    }
    assert a[..p + 1] == a[..q + 1][..p + 1];
    assert b[..p + 1] == b[..q + 1][..p + 1];
    GroupDepends(a, b, pointer, td);
    GroupsBuild(b, pointer, td, check);
    if g.td.Some? {
      GroupPrints(a, pointer, td);
      GroupsDepend(a, b, p, g.td.value, g.td.value % 16 != 0);
    }
  }

  lemma {:induction false} GroupsBuild(bytes: seq<byte>, pointer: nat, td: byte, check: bool)
    ensures pointer + Ones(td) >= |bytes| ==> GroupsFrom(bytes, pointer, td, check) == None
    ensures pointer + Ones(td) < |bytes| ==>
      var g, p := GroupAt(bytes, pointer, td), pointer + Ones(td);
      GroupsFrom(bytes, pointer, td, check)
      == if g.td.None? then Some(([g], p, check)) else Behind([g], GroupsFrom(bytes, p, g.td.value, g.td.value % 16 != 0))
  {
    hide GroupAt, Ones, Behind;
  }

  /** Parsing what was printed gives the same answer, of the whole text. */
  lemma {:induction false} ParsesWhatWasPrinted(buffer: seq<byte>)
    requires Parse(buffer).Some?
    ensures var (a, n) := Parse(buffer).value;
      Parse(Print(a)) == Some((a, n))
  {
    hide GroupsFrom, PrintGroups, Plausible, Normalised, Print, Parse;
    PrintsWhatWasParsed(buffer);
    ParseIs(buffer);
    NotInverse(buffer);
    var bytes := Normalised(buffer);
    GroupsPrint(bytes, 1, bytes[1], false);
    var (a, n) := Parse(buffer).value;
    var again, p := Print(a), GroupsFrom(bytes, 1, bytes[1], false).value.1;
    assert again == bytes[..n];
    assert again[0] == bytes[0] && again[1] == bytes[1];
    assert again[..p + 1] == bytes[..p + 1];
    GroupsDepend(bytes, again, 1, bytes[1], false);
    assert Normalised(again) == again;
    ParseFrom(again);
    ParseIs(again);
    var end, check := p + 1 + bytes[1] % 16, GroupsFrom(bytes, 1, bytes[1], false).value.2;
    assert again[p + 1..end] == bytes[p + 1..end];
    assert check ==> again[end] == bytes[end];
    var (a', n') := Parse(again).value;
    assert n' == n;
    assert a'.tck == a.tck;
    assert a'.hb == a.hb;
  }

  lemma {:induction false} NotInverse(buffer: seq<byte>)
    requires buffer != []
    ensures Normalised(buffer)[0] != 0x03
    ensures forall b: seq<byte> :: b != [] && b[0] == Normalised(buffer)[0] ==> Normalised(b) == b
  {
    assert Inverted(3) == 0x3F;
  }
}
